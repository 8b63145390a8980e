/**
 Every interleaving of the store's transactions. An operation reads a row in one transaction and writes
 in a later one with anything in between; each write is proved to be the atomic operation at its own
 instant, and the record lifecycle laws follow for every run.
 */
module MemoryRuns {
  import opened Wrappers
  import opened MemoryRows

  datatype Table = Table(rows: map<nat, Row>, nextId: nat)

  /** A write names the state its operation read, by position in the run. */
  datatype Action =
    | Create(draft: Draft)
    | ExpireDue(now: nat)
    | ExpireSession(session: nat, at: nat)
    | UseRow(id: nat, now: nat)
    | EditRow(id: nat, read: nat, patch: Patch)
    | ApproveRow(id: nat, read: nat, approval: Approval)
    | PinRow(id: nat, read: nat, pin: PinRequest)
    | Delete(id: nat, expected: nat)

  /** A table with one row put in place when the conditional update matched. */
  function Updated(t: Table, id: nat, row: Option<Row>): Table {
    if id in t.rows && row.Some? then t.(rows := t.rows[id := row.value]) else t
  }

  function Swept(t: Table, now: nat): Table {
    t.(rows := map id | id in t.rows :: if Due(t.rows[id], now) then Expire(t.rows[id], now) else t.rows[id])
  }

  function SweptSession(t: Table, session: nat, at: nat): Table {
    t.(rows := map id | id in t.rows :: if OfSession(t.rows[id], session) then Expire(t.rows[id], at) else t.rows[id])
  }

  /** The effect of one transaction, given the row the operation read before. */
  function Apply(t: Table, a: Action, read: Option<Row>, digest: string -> string): Table {
    match a
    case Create(draft) =>
      if ValidRetention(draft.kind, draft.createdAt, draft.retention)
      then Table(t.rows[t.nextId := NewRow(draft)], t.nextId + 1) else t
    case ExpireDue(now) => Swept(t, now)
    case ExpireSession(session, at) => SweptSession(t, session, at)
    case UseRow(id, now) => if id in t.rows then Updated(t, id, Some(Use(t.rows[id], now))) else t
    case EditRow(id, _, patch) =>
      if id in t.rows && read.Some? then Updated(t, id, EditWrite(t.rows[id], read.value, patch)) else t
    case ApproveRow(id, _, approval) =>
      if id in t.rows && read.Some? then Updated(t, id, ApproveWrite(t.rows[id], read.value, approval, digest)) else t
    case PinRow(id, _, pin) =>
      if id in t.rows && read.Some? then Updated(t, id, PinWrite(t.rows[id], pin)) else t
    case Delete(id, expected) =>
      if id in t.rows && t.rows[id].revision == expected then t.(rows := t.rows - {id}) else t
  }

  datatype Run = Run(tables: seq<Table>, actions: seq<Action>)

  predicate Writes(a: Action) {
    a.EditRow? || a.ApproveRow? || a.PinRow?
  }

  /** The row a write's operation read: it stood in an earlier table, and the operation's own checks accepted it. */
  function ReadBy(r: Run, a: Action): Option<Row> {
    if Writes(a) && a.read < |r.tables| && a.id in r.tables[a.read].rows then Some(r.tables[a.read].rows[a.id])
    else None
  }

  predicate Accepted(a: Action, read: Row) {
    match a
    case EditRow(_, _, patch) => EditAllowed(read, patch)
    case ApproveRow(_, _, approval) => ApproveAllowed(read, approval)
    case PinRow(_, _, pin) => PinAllowed(read, pin)
    case _ => true
  }

  ghost predicate StepAt(r: Run, digest: string -> string, i: nat)
    requires i < |r.actions| && |r.tables| == |r.actions| + 1
  {
    var a := r.actions[i];
    && (Writes(a) ==> a.read <= i && ReadBy(r, a).Some? && Accepted(a, ReadBy(r, a).value))
    && r.tables[i + 1] == Apply(r.tables[i], a, ReadBy(r, a), digest)
  }

  ghost predicate IsRun(r: Run, digest: string -> string) {
    && |r.tables| == |r.actions| + 1
    && r.tables[0].rows == map[]
    && (forall i {:trigger StepAt(r, digest, i)} :: 0 <= i < |r.actions| ==> StepAt(r, digest, i))
  }

  // ---------------------------------------------------------------- revisions identify rows

  predicate SameButUse(a: Row, b: Row) {
    a.(lastUsed := None) == b.(lastUsed := None)
  }

  /** Nothing but the time of last use changes without a new revision. */
  predicate Newer(a: Row, b: Row) {
    a.revision < b.revision || SameButUse(a, b)
  }

  ghost predicate IdsBelow(t: Table) {
    forall id :: id in t.rows ==> id < t.nextId
  }

  lemma StepIds(t: Table, a: Action, read: Option<Row>, digest: string -> string)
    requires IdsBelow(t)
    ensures IdsBelow(Apply(t, a, read, digest)) && t.nextId <= Apply(t, a, read, digest).nextId
    ensures forall id :: id in Apply(t, a, read, digest).rows && id < t.nextId ==> id in t.rows
  {
  }

  lemma StepNewer(t: Table, a: Action, read: Option<Row>, digest: string -> string, id: nat)
    requires IdsBelow(t) && id in t.rows && id in Apply(t, a, read, digest).rows
    ensures Newer(t.rows[id], Apply(t, a, read, digest).rows[id])
  {
  }

  lemma {:induction false} ReachableIds(r: Run, digest: string -> string, i: nat)
    requires IsRun(r, digest) && i < |r.tables|
    ensures IdsBelow(r.tables[i])
  {
    if i > 0 {
      ReachableIds(r, digest, i - 1);
      assert StepAt(r, digest, i - 1);
      StepIds(r.tables[i - 1], r.actions[i - 1], ReadBy(r, r.actions[i - 1]), digest);
    }
  }

  /** An id once drawn names the same record for ever: it is there throughout, or it never comes back. */
  lemma {:induction false} IdsAreNotReused(r: Run, digest: string -> string, i: nat, j: nat, id: nat)
    requires IsRun(r, digest) && i <= j < |r.tables| && id < r.tables[i].nextId && id in r.tables[j].rows
    ensures id in r.tables[i].rows && (i < j ==> id in r.tables[j - 1].rows && id < r.tables[j - 1].nextId)
    decreases j
  {
    if i < j {
      NextIdGrows(r, digest, i, j - 1);
      ReachableIds(r, digest, j - 1);
      assert StepAt(r, digest, j - 1);
      StepIds(r.tables[j - 1], r.actions[j - 1], ReadBy(r, r.actions[j - 1]), digest);
      IdsAreNotReused(r, digest, i, j - 1, id);
    }
  }

  lemma {:induction false} NextIdGrows(r: Run, digest: string -> string, i: nat, j: nat)
    requires IsRun(r, digest) && i <= j < |r.tables|
    ensures r.tables[i].nextId <= r.tables[j].nextId
  {
    if i < j {
      NextIdGrows(r, digest, i, j - 1);
      ReachableIds(r, digest, j - 1);
      assert StepAt(r, digest, j - 1);
      StepIds(r.tables[j - 1], r.actions[j - 1], ReadBy(r, r.actions[j - 1]), digest);
    }
  }

  /** Over any stretch of a run the revision never falls, and an equal revision means an equal record. */
  lemma {:induction false} RevisionsIdentify(r: Run, digest: string -> string, i: nat, j: nat, id: nat)
    requires IsRun(r, digest) && i <= j < |r.tables| && id in r.tables[i].rows && id in r.tables[j].rows
    ensures Newer(r.tables[i].rows[id], r.tables[j].rows[id])
    decreases j
  {
    if i < j {
      ReachableIds(r, digest, i);
      ReachableIds(r, digest, j - 1);
      IdsAreNotReused(r, digest, i, j, id);
      RevisionsIdentify(r, digest, i, j - 1, id);
      assert StepAt(r, digest, j - 1);
      StepNewer(r.tables[j - 1], r.actions[j - 1], ReadBy(r, r.actions[j - 1]), digest, id);
    }
  }

  // ---------------------------------------------------------------- writes are atomic operations

  /** The operation behind a write, done in one instant on the row as it stands. */
  function Atomic(row: Row, a: Action, digest: string -> string): Option<Row>
    requires Writes(a)
  {
    match a
    case EditRow(_, _, patch) => Edit(row, patch)
    case ApproveRow(_, _, approval) => Approve(row, approval, digest)
    case PinRow(_, _, pin) => Pin(row, pin)
  }

  function Written(row: Row, read: Row, a: Action, digest: string -> string): Option<Row>
    requires Writes(a)
  {
    match a
    case EditRow(_, _, patch) => EditWrite(row, read, patch)
    case ApproveRow(_, _, approval) => ApproveWrite(row, read, approval, digest)
    case PinRow(_, _, pin) => PinWrite(row, pin)
  }

  ghost predicate PinShape(row: Row) {
    && (row.pinned ==> row.prior.Some? && row.retention.UntilDeleted? && !row.kind.Working?)
    && (!row.pinned ==> row.prior.None?)
  }

  lemma WrittenIsAtomic(row: Row, read: Row, a: Action, digest: string -> string)
    requires Writes(a) && Accepted(a, read) && Newer(read, row) && PinShape(row)
    ensures Written(row, read, a, digest) == Atomic(row, a, digest)
  {
    assert Expected(a) == read.revision;
    if row.revision == read.revision {
      assert SameButUse(read, row);
      assert row == read.(lastUsed := row.lastUsed);
    }
  }

  function Expected(a: Action): nat
    requires Writes(a)
  {
    match a
    case EditRow(_, _, patch) => patch.expected
    case ApproveRow(_, _, approval) => approval.expected
    case PinRow(_, _, pin) => pin.expected
  }

  // ---------------------------------------------------------------- the record laws

  /** The newest approval counts only when the row is past candidacy and the digest still matches the content. */
  function CurrentApproval(row: Row, digest: string -> string): Option<Evidence> {
    if row.state.Candidate? || row.approvals == [] then None
    else
      var newest := row.approvals[|row.approvals| - 1];
      if newest.digest == digest(row.content) then Some(newest) else None
  }

  ghost predicate Evidenced(row: Row, digest: string -> string) {
    && (forall k :: 0 <= k < |row.approvals| ==>
          row.approvals[k].revision < row.revision && row.approvals[k].confirmedAt <= row.updatedAt)
    && (row.state.Active? && RequiresApproval(row.kind) ==> CurrentApproval(row, digest).Some?)
  }

  ghost predicate Lawful(row: Row, digest: string -> string) {
    && PinShape(row) && (row.pinned ==> !row.state.Expired?)
    && ValidRetention(row.kind, row.createdAt, row.retention)
    && (row.prior.Some? ==> ValidRetention(row.kind, row.createdAt, row.prior.value))
    && row.createdAt <= row.updatedAt && 1 <= row.revision
    && (row.lastUsed.Some? ==> row.createdAt <= row.lastUsed.value)
    && Evidenced(row, digest)
  }

  /** What one transaction may make of a record. */
  predicate Follows(old_: Row, new_: Row) {
    && new_.kind == old_.kind && new_.createdAt == old_.createdAt && old_.updatedAt <= new_.updatedAt
    && (old_.state.Expired? ==> new_.state.Expired?)
    && (old_.pinned && new_.pinned ==> new_.prior == old_.prior)
    && (old_.pinned && !new_.pinned ==> old_.prior == Some(new_.retention))
    && (!old_.pinned && new_.pinned ==> new_.prior == Some(old_.retention))
  }

  lemma AtomicLawful(row: Row, a: Action, digest: string -> string)
    requires Writes(a) && Lawful(row, digest) && Atomic(row, a, digest).Some?
    ensures Lawful(Atomic(row, a, digest).value, digest) && Follows(row, Atomic(row, a, digest).value)
  {
  }

  lemma ExpireLawful(row: Row, now: nat, digest: string -> string)
    requires Lawful(row, digest) && !row.retention.UntilDeleted?
    ensures Lawful(Expire(row, now), digest) && Follows(row, Expire(row, now))
  {
  }

  lemma UseLawful(row: Row, now: nat, digest: string -> string)
    requires Lawful(row, digest)
    ensures Lawful(Use(row, now), digest) && Follows(row, Use(row, now))
  {
  }

  lemma StepLawful(t: Table, a: Action, read: Option<Row>, digest: string -> string, id: nat)
    requires IdsBelow(t) && id in t.rows && Lawful(t.rows[id], digest) && id in Apply(t, a, read, digest).rows
    requires Writes(a) && a.id == id ==> read.Some? && Accepted(a, read.value) && Newer(read.value, t.rows[id])
    ensures Lawful(Apply(t, a, read, digest).rows[id], digest)
            && Follows(t.rows[id], Apply(t, a, read, digest).rows[id])
  {
    var row, next := t.rows[id], Apply(t, a, read, digest).rows[id];
    if Writes(a) && a.id == id {
      WrittenIsAtomic(row, read.value, a, digest);
      if Atomic(row, a, digest).Some? { AtomicLawful(row, a, digest); }
    } else if a.ExpireDue? && Due(row, a.now) {
      ExpireLawful(row, a.now, digest);
    } else if a.ExpireSession? && OfSession(row, a.session) {
      ExpireLawful(row, a.at, digest);
    } else if a.UseRow? && a.id == id {
      UseLawful(row, a.now, digest);
    } else {
      assert next == row;
    }
  }

  lemma CreateLawful(d: Draft, digest: string -> string)
    requires ValidRetention(d.kind, d.createdAt, d.retention)
    ensures Lawful(NewRow(d), digest)
  {
  }

  /** The row a write read, and how it compares with the row as it stands when the write happens. */
  lemma ReadIsOlder(r: Run, digest: string -> string, i: nat, id: nat)
    requires IsRun(r, digest) && i < |r.actions| && Writes(r.actions[i]) && r.actions[i].id == id
             && id in r.tables[i].rows
    ensures ReadBy(r, r.actions[i]).Some? && Accepted(r.actions[i], ReadBy(r, r.actions[i]).value)
    ensures Newer(ReadBy(r, r.actions[i]).value, r.tables[i].rows[id])
  {
    assert StepAt(r, digest, i);
    RevisionsIdentify(r, digest, r.actions[i].read, i, id);
  }

  lemma {:induction false} ReachableIsLawful(r: Run, digest: string -> string, i: nat, id: nat)
    requires IsRun(r, digest) && i < |r.tables| && id in r.tables[i].rows
    ensures Lawful(r.tables[i].rows[id], digest)
  {
    if i > 0 {
      var t, a := r.tables[i - 1], r.actions[i - 1];
      ReachableIds(r, digest, i - 1);
      assert StepAt(r, digest, i - 1);
      StepIds(t, a, ReadBy(r, a), digest);
      if id in t.rows {
        ReachableIsLawful(r, digest, i - 1, id);
        if Writes(a) && a.id == id { ReadIsOlder(r, digest, i - 1, id); }
        StepLawful(t, a, ReadBy(r, a), digest, id);
      } else {
        CreateLawful(a.draft, digest);
      }
    }
  }

  lemma StepFollows(r: Run, digest: string -> string, i: nat, id: nat)
    requires IsRun(r, digest) && i < |r.actions| && id in r.tables[i].rows && id in r.tables[i + 1].rows
    ensures Follows(r.tables[i].rows[id], r.tables[i + 1].rows[id])
  {
    var a := r.actions[i];
    ReachableIds(r, digest, i);
    ReachableIsLawful(r, digest, i, id);
    assert StepAt(r, digest, i);
    if Writes(a) && a.id == id { ReadIsOlder(r, digest, i, id); }
    StepLawful(r.tables[i], a, ReadBy(r, a), digest, id);
  }

  // ---------------------------------------------------------------- theorems over runs

  /**
   Linearizability: in any interleaving, a write that follows an accepted read does to the table exactly
   what the whole operation would do atomically at the write; when that is refused the table is unchanged.
   */
  lemma WritesAreAtomic(r: Run, digest: string -> string, i: nat)
    requires IsRun(r, digest) && i < |r.actions| && Writes(r.actions[i])
    ensures
      var t, a := r.tables[i], r.actions[i];
      r.tables[i + 1] == if a.id in t.rows then Updated(t, a.id, Atomic(t.rows[a.id], a, digest)) else t
  {
    var t, a := r.tables[i], r.actions[i];
    assert StepAt(r, digest, i);
    if a.id in t.rows {
      ReadIsOlder(r, digest, i, a.id);
      ReachableIsLawful(r, digest, i, a.id);
      WrittenIsAtomic(t.rows[a.id], ReadBy(r, a).value, a, digest);
    }
  }

  /** The checks made when a stored row is read back as a record. */
  ghost predicate Readable(row: Row, digest: string -> string) {
    && 1 <= row.revision && row.createdAt <= row.updatedAt
    && (row.lastUsed.Some? ==> row.createdAt <= row.lastUsed.value)
    && !(row.pinned && row.kind.Working?)
    && ValidRetention(row.kind, row.createdAt, row.retention)
    && (CurrentApproval(row, digest).Some? ==>
          var e := CurrentApproval(row, digest).value;
          e.digest == digest(row.content) && e.confirmedAt <= row.updatedAt && e.revision < row.revision)
    && (RequiresApproval(row.kind) && row.state.Active? ==> CurrentApproval(row, digest).Some?)
  }

  /**
   Every row of every reachable table reads back; in particular an active identity or relationship is approved
   as it stands.
   */
  lemma StoredRowsAreReadable(r: Run, digest: string -> string, i: nat, id: nat)
    requires IsRun(r, digest) && i < |r.tables| && id in r.tables[i].rows
    ensures Readable(r.tables[i].rows[id], digest)
    ensures r.tables[i].rows[id].pinned ==>
              !r.tables[i].rows[id].state.Expired? && r.tables[i].rows[id].retention.UntilDeleted?
  {
    ReachableIsLawful(r, digest, i, id);
  }

  /** Expired is absorbing, and neither the revision nor the update time goes back. */
  lemma {:induction false} RecordsOnlyMoveForward(r: Run, digest: string -> string, i: nat, j: nat, id: nat)
    requires IsRun(r, digest) && i <= j < |r.tables| && id in r.tables[i].rows && id in r.tables[j].rows
    ensures r.tables[i].rows[id].revision <= r.tables[j].rows[id].revision
    ensures r.tables[i].rows[id].updatedAt <= r.tables[j].rows[id].updatedAt
    ensures r.tables[i].rows[id].state.Expired? ==> r.tables[j].rows[id].state.Expired?
    decreases j
  {
    RevisionsIdentify(r, digest, i, j, id);
    if i < j {
      ReachableIds(r, digest, i);
      IdsAreNotReused(r, digest, i, j, id);
      RecordsOnlyMoveForward(r, digest, i, j - 1, id);
      StepFollows(r, digest, j - 1, id);
    }
  }

  /** The record is there and pinned in every table from `i` to `j`. */
  ghost predicate PinnedThroughout(r: Run, i: nat, j: nat, id: nat)
    requires i <= j < |r.tables|
  {
    forall k :: i <= k <= j ==> id in r.tables[k].rows && r.tables[k].rows[id].pinned
  }

  lemma {:induction false} PinnedKeepsPrior(r: Run, digest: string -> string, i: nat, j: nat, id: nat)
    requires IsRun(r, digest) && i <= j < |r.tables| && PinnedThroughout(r, i, j, id)
    ensures id in r.tables[i].rows && id in r.tables[j].rows
    ensures r.tables[j].rows[id].prior == r.tables[i].rows[id].prior
  {
    if i < j {
      PinnedKeepsPrior(r, digest, i, j - 1, id);
      StepFollows(r, digest, j - 1, id);
    }
  }

  /**
   Unpinning gives back exactly the retention held when the record was pinned, whatever edits, approvals,
   expiry sweeps and uses came between; and while it stays pinned it cannot expire.
   */
  lemma UnpinRestoresRetention(r: Run, digest: string -> string, i: nat, j: nat, id: nat)
    requires IsRun(r, digest) && i < j < |r.actions| && PinnedThroughout(r, i + 1, j, id)
    requires id in r.tables[i].rows && !r.tables[i].rows[id].pinned
    requires id in r.tables[j + 1].rows && !r.tables[j + 1].rows[id].pinned
    ensures r.tables[j + 1].rows[id].retention == r.tables[i].rows[id].retention
    ensures forall k :: i < k <= j ==> !r.tables[k].rows[id].state.Expired?
  {
    assert id in r.tables[i + 1].rows && id in r.tables[j].rows;
    StepFollows(r, digest, i, id);
    PinnedKeepsPrior(r, digest, i + 1, j, id);
    StepFollows(r, digest, j, id);
    forall k | i < k <= j ensures !r.tables[k].rows[id].state.Expired? {
      ReachableIsLawful(r, digest, k, id);
    }
  }

  // ---------------------------------------------------------------- runs that grow

  /** The run with one more transaction. */
  ghost function Extended(r: Run, a: Action, digest: string -> string): Run
    requires |r.tables| == |r.actions| + 1
  {
    Run(r.tables + [Apply(r.tables[|r.actions|], a, ReadBy(r, a), digest)], r.actions + [a])
  }

  ghost predicate Ends(r: Run, t: Table, digest: string -> string) {
    IsRun(r, digest) && r.tables[|r.actions|] == t
  }

  /** A write is issued only on a row that was read before and that its operation accepts. */
  ghost predicate Issuable(r: Run, a: Action) {
    Writes(a) ==> a.read < |r.tables| && ReadBy(r, a).Some? && Accepted(a, ReadBy(r, a).value)
  }

  lemma ExtendedEnds(r: Run, t: Table, a: Action, digest: string -> string)
    requires Ends(r, t, digest) && Issuable(r, a)
    ensures Ends(Extended(r, a, digest), Apply(t, a, ReadBy(r, a), digest), digest)
  {
    var next := Extended(r, a, digest);
    forall i | 0 <= i < |next.actions| ensures StepAt(next, digest, i) {
      if i < |r.actions| {
        assert StepAt(r, digest, i);
        assert ReadBy(next, r.actions[i]) == ReadBy(r, r.actions[i]);
      } else {
        assert ReadBy(next, a) == ReadBy(r, a);
      }
    }
  }

  /** The write that ends a run has the effect of its atomic operation. */
  lemma LastWriteIsAtomic(r: Run, t: Table, a: Action, digest: string -> string)
    requires Ends(r, t, digest) && Issuable(r, a) && Writes(a)
    ensures Apply(t, a, ReadBy(r, a), digest) ==
            if a.id in t.rows then Updated(t, a.id, Atomic(t.rows[a.id], a, digest)) else t
  {
    ExtendedEnds(r, t, a, digest);
    WritesAreAtomic(Extended(r, a, digest), digest, |r.actions|);
  }
}
