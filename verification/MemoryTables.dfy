/**
 The memory table as the store's transactions change it. The table keeps its history, so that what holds over
 every run holds of it: a write is the atomic operation at its own instant.
 */
module MemoryTables {
  import opened Wrappers
  import opened MemoryRows
  import opened MemoryRuns
  import MemoryHistories

  class MemoryTable {
    const digest: string -> string
    var rows: map<nat, Row>
    var nextId: nat
    /** Every transaction so far. */
    ghost var run: Run

    ghost function Value(): Table
      reads this
    {
      Table(rows, nextId)
    }

    ghost predicate Valid()
      reads this
    {
      Ends(run, Value(), digest)
    }

    /** The row as a transaction numbered `at` left it. */
    ghost predicate ReadAt(id: nat, at: nat, read: Row)
      requires Valid()
      reads this
    {
      at < |run.tables| && id in run.tables[at].rows && run.tables[at].rows[id] == read
    }

    /** Notes the transaction that is about to be performed. */
    ghost method Note(a: Action)
      requires Valid() && Issuable(run, a)
      modifies this`run
      ensures run == Extended(old(run), a, digest)
      ensures Ends(run, Apply(Value(), a, ReadBy(old(run), a), digest), digest)
    {
      ExtendedEnds(run, Value(), a, digest);
      run := Extended(run, a, digest);
    }

    constructor (digest: string -> string)
      ensures Valid() && Value() == Table(map[], 1) && this.digest == digest
    {
      this.digest := digest;
      rows, nextId := map[], 1;
      run := Run([Table(map[], 1)], []);
    }

    /** A draft about a person the store does not know is refused before anything is written. */
    method Insert(draft: Draft, subjectKnown: bool) returns (id: Option<nat>)
      requires Valid()
      modifies this
      ensures Valid() && run == if subjectKnown then Extended(old(run), Create(draft), digest) else old(run)
      ensures id.Some? <==> subjectKnown && ValidRetention(draft.kind, draft.createdAt, draft.retention)
      ensures id.None? ==> Value() == old(Value())
      ensures id.Some? ==>
                id.value == old(nextId) && id.value !in old(rows) && rows == old(rows)[id.value := NewRow(draft)]
    {
      if !subjectKnown { return None; }
      ReachableIds(run, digest, |run.actions|);
      Note(Create(draft));
      if !ValidRetention(draft.kind, draft.createdAt, draft.retention) { return None; }
      rows := rows[nextId := NewRow(draft)];
      id := Some(nextId);
      nextId := nextId + 1;
    }

    /** Marks every due row expired; the rows are visited in any order. */
    method ExpireDueRows(now: nat) returns (changed: nat)
      requires Valid()
      modifies this`rows, this`run
      ensures Valid() && run == Extended(old(run), ExpireDue(now), digest)
      ensures changed == |set id | id in old(rows) && Due(old(rows)[id], now)|
    {
      Note(ExpireDue(now));
      var due := set id | id in rows && Due(rows[id], now);
      rows, changed := ExpireEach(rows, due, now);
      assert due == set id | id in old(rows) && Due(old(rows)[id], now);
      assert Value() == Swept(Table(old(rows), nextId), now);
    }

    /** Ends a conversation: its rows expire, whatever else they hold. */
    method ExpireSessionRows(session: nat, at: nat) returns (changed: nat)
      requires Valid()
      modifies this`rows, this`run
      ensures Valid() && run == Extended(old(run), ExpireSession(session, at), digest)
      ensures changed == |set id | id in old(rows) && OfSession(old(rows)[id], session)|
    {
      Note(ExpireSession(session, at));
      var ended := set id | id in rows && OfSession(rows[id], session);
      rows, changed := ExpireEach(rows, ended, at);
      assert ended == set id | id in old(rows) && OfSession(old(rows)[id], session);
      assert Value() == SweptSession(Table(old(rows), nextId), session, at);
    }

    /** A retrieval stamps the row it returns; the table refuses a time before the row was created. */
    method MarkUsed(id: nat, now: nat) returns (changed: bool)
      requires Valid()
      modifies this`rows, this`run
      ensures Valid() && run == Extended(old(run), UseRow(id, now), digest)
      ensures changed <==> id in old(rows) && old(rows)[id].createdAt <= now
      ensures rows == if changed then old(rows)[id := old(rows)[id].(lastUsed := Some(now))] else old(rows)
    {
      Note(UseRow(id, now));
      if id !in rows || now < rows[id].createdAt { return false; }
      rows := rows[id := rows[id].(lastUsed := Some(now))];
      changed := true;
    }

    /** The row as a separate read sees it, and when; the operation's checks are made on this value. */
    method Inspect(id: nat) returns (row: Option<Row>, ghost at: nat)
      requires Valid()
      ensures row.Some? <==> id in rows
      ensures row.Some? ==> ReadAt(id, at, row.value)
    {
      at := |run.actions|;
      if id !in rows { return None, at; }
      row := Some(rows[id]);
    }

    /** The write of an edit that was accepted on a row read earlier, whatever happened since. */
    method UpdateEdited(id: nat, read: Row, ghost at: nat, p: Patch) returns (changed: bool)
      requires Valid() && ReadAt(id, at, read) && EditAllowed(read, p)
      modifies this`rows, this`run
      ensures Valid() && run == Extended(old(run), EditRow(id, at, p), digest)
      ensures changed <==> id in old(rows) && Edit(old(rows)[id], p).Some?
      ensures rows == if changed then old(rows)[id := Edit(old(rows)[id], p).value] else old(rows)
      ensures changed <==> id in old(rows) && MemoryHistories.EditGoes(old(rows)[id], p)
      ensures changed ==> id in rows && MemoryHistories.EditedTo(old(rows)[id], p, rows[id])
    {
      if id in rows { MemoryHistories.EditAsStated(run, Value(), id, p, digest); }
      LastWriteIsAtomic(run, Value(), EditRow(id, at, p), digest);
      Note(EditRow(id, at, p));
      if id !in rows || rows[id].revision != p.expected { return false; }
      var state := read.state;
      if RequiresApproval(read.kind) && read.state.Active? && Or(p.content, read.content) != read.content {
        state := Candidate;
      }
      rows := rows[id := rows[id].(content := Or(p.content, read.content),
                                   confidence := Or(p.confidence, read.confidence),
                                   updatedAt := p.editedAt, retention := Or(p.retention, read.retention),
                                   state := state,
                                   revision := rows[id].revision + 1)];
      changed := true;
    }

    method UpdateApproved(id: nat, read: Row, ghost at: nat, a: Approval) returns (changed: bool)
      requires Valid() && ReadAt(id, at, read) && ApproveAllowed(read, a)
      modifies this`rows, this`run
      ensures Valid() && run == Extended(old(run), ApproveRow(id, at, a), digest)
      ensures changed <==> id in old(rows) && Approve(old(rows)[id], a, digest).Some?
      ensures rows == if changed then old(rows)[id := Approve(old(rows)[id], a, digest).value] else old(rows)
      ensures changed <==> id in old(rows) && MemoryHistories.ApproveGoes(old(rows)[id], a)
      ensures changed ==> id in rows && MemoryHistories.ApprovedTo(old(rows)[id], a, digest, rows[id])
    {
      LastWriteIsAtomic(run, Value(), ApproveRow(id, at, a), digest);
      Note(ApproveRow(id, at, a));
      if id !in rows || rows[id].revision != a.expected || !rows[id].state.Candidate?
         || !RequiresApproval(rows[id].kind) {
        return false;
      }
      rows := rows[id := rows[id].(state := Active, updatedAt := a.confirmedAt, revision := rows[id].revision + 1)];
      rows := rows[id := rows[id].(approvals := rows[id].approvals + [EvidenceFor(a, read.content, digest)])];
      changed := true;
    }

    method UpdatePinned(id: nat, read: Row, ghost at: nat, p: PinRequest) returns (changed: bool)
      requires Valid() && ReadAt(id, at, read) && PinAllowed(read, p)
      modifies this`rows, this`run
      ensures Valid() && run == Extended(old(run), PinRow(id, at, p), digest)
      ensures changed <==> id in old(rows) && Pin(old(rows)[id], p).Some?
      ensures rows == if changed then old(rows)[id := Pin(old(rows)[id], p).value] else old(rows)
      ensures changed <==> id in old(rows) && MemoryHistories.PinGoes(old(rows)[id], p)
      ensures changed ==> id in rows && MemoryHistories.PinnedTo(old(rows)[id], p, rows[id])
    {
      LastWriteIsAtomic(run, Value(), PinRow(id, at, p), digest);
      if id in rows { ReachableIsLawful(run, digest, |run.actions|, id); }
      Note(PinRow(id, at, p));
      if id !in rows || rows[id].revision != p.expected { return false; }
      var row := rows[id];
      if p.pinned {
        if row.pinned || row.kind.Working? { return false; }
        row := row.(pinned := true, prior := Some(row.retention), retention := UntilDeleted);
      } else {
        if !row.pinned || row.prior.None? { return false; }
        row := row.(pinned := false, retention := row.prior.value, prior := None);
      }
      rows := rows[id := row.(updatedAt := p.changedAt, revision := row.revision + 1)];
      changed := true;
    }

    method DeleteRow(id: nat, expected: nat) returns (changed: bool)
      requires Valid()
      modifies this`rows, this`run
      ensures Valid() && run == Extended(old(run), Delete(id, expected), digest)
      ensures changed <==> id in old(rows) && old(rows)[id].revision == expected
      ensures rows == if changed then old(rows) - {id} else old(rows)
    {
      Note(Delete(id, expected));
      if id !in rows || rows[id].revision != expected { return false; }
      rows := rows - {id};
      changed := true;
    }
  }

  /** Marks the given rows expired one at a time, in any order. */
  method ExpireEach(rows: map<nat, Row>, due: set<nat>, now: nat) returns (swept: map<nat, Row>, changed: nat)
    requires due <= rows.Keys
    ensures swept == map id | id in rows :: if id in due then Expire(rows[id], now) else rows[id]
    ensures changed == |due|
  {
    var left := due;
    swept, changed := rows, 0;
    while left != {}
      invariant left <= due && changed == |due| - |left|
      invariant swept.Keys == rows.Keys
      invariant forall id :: id in rows ==>
        swept[id] == if id in due && id !in left then Expire(rows[id], now) else rows[id]
      decreases |left|
    {
      var id :| id in left;
      swept := swept[id := Expire(swept[id], now)];
      left := left - {id};
      changed := changed + 1;
    }
  }
}
