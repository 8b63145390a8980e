/**
 What every transaction of the memory store does to the rows, field by field and in any interleaving, and what
 a row is at any time, told by the history of the table alone.
 */
module MemoryHistories {
  import opened Wrappers
  import opened Histories
  import opened MemoryRows
  import opened MemoryRuns

  // ---------------------------------------------------------------- when an operation goes through

  /** The retentions a record of this kind may have; working memory lives for a day at most. */
  predicate MayRetain(kind: Kind, createdAt: nat, retention: Retention) {
    match retention
    case WorkingUntil(expires) => kind.Working? && createdAt < expires <= createdAt + 86_400_000
    case Until(expires) => !kind.Working? && createdAt < expires
    case Session(_) => !kind.Working?
    case UntilDeleted => !kind.Working?
  }

  predicate EditGoes(row: Row, p: Patch) {
    && row.revision == p.expected && row.updatedAt <= p.editedAt
    && (p.retention.Some? ==> !row.pinned && MayRetain(row.kind, row.createdAt, p.retention.value))
  }

  predicate ApproveGoes(row: Row, a: Approval) {
    && row.revision == a.expected && row.updatedAt <= a.confirmedAt && row.state == Candidate
    && (row.kind == Identity || row.kind == Relationship)
  }

  predicate PinGoes(row: Row, p: PinRequest) {
    && row.revision == p.expected && row.updatedAt <= p.changedAt && row.state != Expired && row.kind != Working
    && (row.pinned <==> !p.pinned)
  }

  // ---------------------------------------------------------------- what it leaves

  /** What the patch gives, and what it leaves alone. */
  predicate Given<T(==)>(choice: Option<T>, before: T, after: T) {
    match choice
    case Some(value) => after == value
    case None => after == before
  }

  predicate EditedTo(row: Row, p: Patch, after: Row) {
    && Given(p.content, row.content, after.content)
    && Given(p.confidence, row.confidence, after.confidence)
    && Given(p.retention, row.retention, after.retention)
    && after.state == (if (row.kind == Identity || row.kind == Relationship) && row.state == Active
                          && after.content != row.content then Candidate else row.state)
    && after.updatedAt == p.editedAt && after.revision == row.revision + 1
    && after.kind == row.kind && after.createdAt == row.createdAt && after.pinned == row.pinned
    && after.prior == row.prior && after.lastUsed == row.lastUsed && after.approvals == row.approvals
  }

  predicate ApprovedTo(row: Row, a: Approval, digest: string -> string, after: Row) {
    && after.state == Active && after.updatedAt == a.confirmedAt && after.revision == row.revision + 1
    && |after.approvals| == |row.approvals| + 1 && after.approvals[..|row.approvals|] == row.approvals
    && after.approvals[|row.approvals|]
       == Evidence(a.confirmation, a.actor, a.confirmedAt, row.revision, digest(row.content))
    && after.content == row.content && after.confidence == row.confidence && after.retention == row.retention
    && after.kind == row.kind && after.createdAt == row.createdAt && after.pinned == row.pinned
    && after.prior == row.prior && after.lastUsed == row.lastUsed
  }

  predicate PinnedTo(row: Row, p: PinRequest, after: Row) {
    && after.pinned == p.pinned && after.updatedAt == p.changedAt && after.revision == row.revision + 1
    && (p.pinned ==> after.retention == UntilDeleted && after.prior == Some(row.retention))
    && (!p.pinned ==> Some(after.retention) == row.prior && after.prior == None)
    && after.content == row.content && after.confidence == row.confidence && after.state == row.state
    && after.kind == row.kind && after.createdAt == row.createdAt && after.lastUsed == row.lastUsed
    && after.approvals == row.approvals
  }

  predicate ExpiredTo(row: Row, at: nat, after: Row) {
    && after.state == Expired && after.revision == row.revision + 1
    && row.updatedAt <= after.updatedAt && at <= after.updatedAt && after.updatedAt in {row.updatedAt, at}
    && after.content == row.content && after.confidence == row.confidence && after.retention == row.retention
    && after.kind == row.kind && after.createdAt == row.createdAt && after.pinned == row.pinned
    && after.prior == row.prior && after.lastUsed == row.lastUsed && after.approvals == row.approvals
  }

  predicate StartsAs(d: Draft, row: Row) {
    && row.kind == d.kind && row.content == d.content && row.confidence == d.confidence
    && row.createdAt == d.createdAt && row.updatedAt == d.createdAt && row.retention == d.retention
    && row.state == (if d.kind == Identity || d.kind == Relationship then Candidate else Active)
    && !row.pinned && row.prior == None && row.revision == 1 && row.lastUsed == None && row.approvals == []
  }

  /** Every row but one is as it was. */
  ghost predicate OthersStand(t: Table, id: nat, next: Table) {
    forall other :: other != id ==>
      (other in next.rows <==> other in t.rows) && (other in t.rows ==> next.rows[other] == t.rows[other])
  }

  // ---------------------------------------------------------------- exactly what each transaction does

  lemma RetentionsAgree(kind: Kind, createdAt: nat, retention: Retention)
    ensures ValidRetention(kind, createdAt, retention) <==> MayRetain(kind, createdAt, retention)
  {
  }

  /** The edit of a row of a run as it stands. */
  lemma EditAsStated(r: Run, t: Table, id: nat, p: Patch, digest: string -> string)
    requires Ends(r, t, digest) && id in t.rows
    ensures Edit(t.rows[id], p).Some? <==> EditGoes(t.rows[id], p)
    ensures Edit(t.rows[id], p).Some? ==> EditedTo(t.rows[id], p, Edit(t.rows[id], p).value)
  {
    var row := t.rows[id];
    ReachableIsLawful(r, digest, |r.actions|, id);
    RetentionsAgree(row.kind, row.createdAt, row.retention);
    if p.retention.Some? { RetentionsAgree(row.kind, row.createdAt, p.retention.value); }
  }

  /**
   An edit goes through if and only if the row is there as expected, the time does not go back and a new
   retention is allowed; then each of content, confidence and retention is the patch's where it has one and
   the old one otherwise, and nothing but state, update time and revision changes besides. Else nothing does.
   */
  lemma EditExactly(r: Run, digest: string -> string, i: nat)
    requires IsRun(r, digest) && i < |r.actions| && r.actions[i].EditRow?
    ensures
      var t, next, id, p := r.tables[i], r.tables[i + 1], r.actions[i].id, r.actions[i].patch;
      if id in t.rows && EditGoes(t.rows[id], p)
      then id in next.rows && EditedTo(t.rows[id], p, next.rows[id]) && OthersStand(t, id, next)
      else next == t
  {
    var t, id, p := r.tables[i], r.actions[i].id, r.actions[i].patch;
    WritesAreAtomic(r, digest, i);
    if id in t.rows {
      ReachableIsLawful(r, digest, i, id);
      RetentionsAgree(t.rows[id].kind, t.rows[id].createdAt, t.rows[id].retention);
      if p.retention.Some? {
        RetentionsAgree(t.rows[id].kind, t.rows[id].createdAt, p.retention.value);
      }
    }
  }

  /** The same of an approval, which records what was approved as it stands. */
  lemma ApproveExactly(r: Run, digest: string -> string, i: nat)
    requires IsRun(r, digest) && i < |r.actions| && r.actions[i].ApproveRow?
    ensures
      var t, next, id, a := r.tables[i], r.tables[i + 1], r.actions[i].id, r.actions[i].approval;
      if id in t.rows && ApproveGoes(t.rows[id], a)
      then id in next.rows && ApprovedTo(t.rows[id], a, digest, next.rows[id]) && OthersStand(t, id, next)
      else next == t
  {
    WritesAreAtomic(r, digest, i);
  }

  /** The same of a pin, which keeps the retention aside, and of an unpin, which gives it back. */
  lemma PinExactly(r: Run, digest: string -> string, i: nat)
    requires IsRun(r, digest) && i < |r.actions| && r.actions[i].PinRow?
    ensures
      var t, next, id, p := r.tables[i], r.tables[i + 1], r.actions[i].id, r.actions[i].pin;
      if id in t.rows && PinGoes(t.rows[id], p)
      then id in next.rows && PinnedTo(t.rows[id], p, next.rows[id]) && OthersStand(t, id, next)
      else next == t
  {
    WritesAreAtomic(r, digest, i);
    if r.actions[i].id in r.tables[i].rows {
      ReachableIsLawful(r, digest, i, r.actions[i].id);
    }
  }

  /** A draft is stored under a number never drawn before, if its retention is allowed. */
  lemma CreateExactly(r: Run, digest: string -> string, i: nat)
    requires IsRun(r, digest) && i < |r.actions| && r.actions[i].Create?
    ensures
      var t, next, d := r.tables[i], r.tables[i + 1], r.actions[i].draft;
      if MayRetain(d.kind, d.createdAt, d.retention)
      then && t.nextId !in t.rows && t.nextId in next.rows && StartsAs(d, next.rows[t.nextId])
           && OthersStand(t, t.nextId, next) && next.nextId == t.nextId + 1
      else next == t
  {
    var d := r.actions[i].draft;
    assert StepAt(r, digest, i);
    ReachableIds(r, digest, i);
    RetentionsAgree(d.kind, d.createdAt, d.retention);
  }

  /** A row goes only at the revision expected. */
  lemma DeleteExactly(r: Run, digest: string -> string, i: nat)
    requires IsRun(r, digest) && i < |r.actions| && r.actions[i].Delete?
    ensures
      var t, next, id := r.tables[i], r.tables[i + 1], r.actions[i].id;
      if id in t.rows && t.rows[id].revision == r.actions[i].expected
      then id !in next.rows && OthersStand(t, id, next) && next.nextId == t.nextId
      else next == t
  {
    assert StepAt(r, digest, i);
  }

  /** The row expires by itself at this time, or with this session. */
  predicate Expires(row: Row, a: Action) {
    && row.state != Expired
    && ((a.ExpireDue? && (row.retention.WorkingUntil? || row.retention.Until?) && row.retention.expires <= a.now)
        || (a.ExpireSession? && row.retention == Session(a.session)))
  }

  /** A sweep expires exactly the rows that are due, or exactly the rows of the session. */
  lemma SweepExactly(r: Run, digest: string -> string, i: nat, id: nat)
    requires IsRun(r, digest) && i < |r.actions| && (r.actions[i].ExpireDue? || r.actions[i].ExpireSession?)
    ensures
      var t, next, a := r.tables[i], r.tables[i + 1], r.actions[i];
      && (id in next.rows <==> id in t.rows) && next.nextId == t.nextId
      && (id in t.rows ==>
            if Expires(t.rows[id], a)
            then ExpiredTo(t.rows[id], if a.ExpireDue? then a.now else a.at, next.rows[id])
            else next.rows[id] == t.rows[id])
  {
    assert StepAt(r, digest, i);
  }

  /** A use leaves its time and touches nothing else; one from before the row was made is refused. */
  lemma UseExactly(r: Run, digest: string -> string, i: nat)
    requires IsRun(r, digest) && i < |r.actions| && r.actions[i].UseRow?
    ensures
      var t, next, id, now := r.tables[i], r.tables[i + 1], r.actions[i].id, r.actions[i].now;
      if id in t.rows && t.rows[id].createdAt <= now
      then id in next.rows && next.rows[id] == t.rows[id].(lastUsed := Some(now)) && OthersStand(t, id, next)
      else next == t
  {
    assert StepAt(r, digest, i);
  }

  // ---------------------------------------------------------------- histories

  ghost function When(r: Run, does: (Table, Action) -> bool): nat -> bool {
    (i: nat) => i < |r.actions| && i < |r.tables| && does(r.tables[i], r.actions[i])
  }

  ghost function Where(r: Run, id: nat, has: Row -> bool): nat -> bool {
    (i: nat) => i < |r.tables| && id in r.tables[i].rows && has(r.tables[i].rows[id])
  }

  ghost predicate MovesAt(r: Run, i: nat, id: nat, has: Row -> bool, starts: (Table, Action) -> bool,
                          stops: (Table, Action) -> bool)
    requires i < |r.actions| && |r.tables| == |r.actions| + 1
  {
    var t, a, next := r.tables[i], r.actions[i], r.tables[i + 1];
    id in next.rows && has(next.rows[id]) <==>
    starts(t, a) || (id in t.rows && has(t.rows[id]) && !stops(t, a))
  }

  lemma HasSince(r: Run, digest: string -> string, n: nat, id: nat, has: Row -> bool,
                 starts: (Table, Action) -> bool, stops: (Table, Action) -> bool)
    requires IsRun(r, digest) && n < |r.tables|
    requires forall i :: 0 <= i < |r.actions| ==> MovesAt(r, i, id, has, starts, stops)
    ensures id in r.tables[n].rows && has(r.tables[n].rows[id]) <==> Since(When(r, starts), When(r, stops), n)
  {
    forall i: nat | i < n ensures LatchedAt(Where(r, id, has), When(r, starts), When(r, stops), i) {
      assert MovesAt(r, i, id, has, starts, stops);
    }
    Latched(Where(r, id, has), When(r, starts), When(r, stops), n);
  }

  predicate Makes(t: Table, a: Action, id: nat) {
    a.Create? && MayRetain(a.draft.kind, a.draft.createdAt, a.draft.retention) && t.nextId == id
  }

  predicate Drops(t: Table, a: Action, id: nat) {
    a.Delete? && a.id == id && id in t.rows && t.rows[id].revision == a.expected
  }

  predicate Edits(t: Table, a: Action, id: nat) {
    a.EditRow? && a.id == id && id in t.rows && EditGoes(t.rows[id], a.patch)
  }

  predicate Approves(t: Table, a: Action, id: nat) {
    a.ApproveRow? && a.id == id && id in t.rows && ApproveGoes(t.rows[id], a.approval)
  }

  predicate Pins(t: Table, a: Action, id: nat) {
    a.PinRow? && a.id == id && id in t.rows && PinGoes(t.rows[id], a.pin)
  }

  predicate Ages(t: Table, a: Action, id: nat) {
    id in t.rows && Expires(t.rows[id], a)
  }

  predicate Uses(t: Table, a: Action, id: nat) {
    a.UseRow? && a.id == id && id in t.rows && t.rows[id].createdAt <= a.now
  }

  /** What one transaction makes of one row. */
  ghost predicate RowMoves(t: Table, a: Action, id: nat, next: Table, digest: string -> string) {
    && (id in next.rows <==> Makes(t, a, id) || (id in t.rows && !Drops(t, a, id)))
    && (Makes(t, a, id) ==> id !in t.rows && id in next.rows && StartsAs(a.draft, next.rows[id]))
    && (id in t.rows && id in next.rows ==>
          var row, after := t.rows[id], next.rows[id];
          if Edits(t, a, id) then EditedTo(row, a.patch, after)
          else if Approves(t, a, id) then ApprovedTo(row, a.approval, digest, after)
          else if Pins(t, a, id) then PinnedTo(row, a.pin, after)
          else if Ages(t, a, id) then ExpiredTo(row, if a.ExpireDue? then a.now else a.at, after)
          else if Uses(t, a, id) then after == row.(lastUsed := Some(a.now))
          else after == row)
  }

  lemma RunMovesRow(r: Run, digest: string -> string, i: nat, id: nat)
    requires IsRun(r, digest) && i < |r.actions|
    ensures RowMoves(r.tables[i], r.actions[i], id, r.tables[i + 1], digest)
  {
    ReachableIds(r, digest, i);
    match r.actions[i]
    case Create(_) => CreateExactly(r, digest, i);
    case ExpireDue(_) => SweepExactly(r, digest, i, id);
    case ExpireSession(_, _) => SweepExactly(r, digest, i, id);
    case UseRow(_, _) => UseExactly(r, digest, i);
    case EditRow(_, _, _) => EditExactly(r, digest, i);
    case ApproveRow(_, _, _) => ApproveExactly(r, digest, i);
    case PinRow(_, _, _) => PinExactly(r, digest, i);
    case Delete(_, _) => DeleteExactly(r, digest, i);
  }

  predicate Words(t: Table, a: Action, id: nat, content: string) {
    (Makes(t, a, id) && a.draft.content == content) || (Edits(t, a, id) && a.patch.content == Some(content))
  }

  predicate Rewrites(t: Table, a: Action, id: nat) {
    Drops(t, a, id) || (Edits(t, a, id) && a.patch.content.Some?)
  }

  function Saying(content: string): Row -> bool { (row: Row) => row.content == content }

  function Writing(id: nat, content: string): (Table, Action) -> bool {
    (t: Table, a: Action) => Words(t, a, id, content)
  }

  function Rewriting(id: nat): (Table, Action) -> bool { (t: Table, a: Action) => Rewrites(t, a, id) }

  /** A row says what its last edit that set a content says, or its draft when none did. */
  lemma ContentIsHistory(r: Run, digest: string -> string, n: nat, id: nat, content: string)
    requires IsRun(r, digest) && n < |r.tables|
    ensures id in r.tables[n].rows && r.tables[n].rows[id].content == content <==>
              Since(When(r, Writing(id, content)), When(r, Rewriting(id)), n)
  {
    forall i | 0 <= i < |r.actions| ensures MovesAt(r, i, id, Saying(content), Writing(id, content), Rewriting(id)) {
      RunMovesRow(r, digest, i, id);
    }
    HasSince(r, digest, n, id, Saying(content), Writing(id, content), Rewriting(id));
  }

  predicate Rates(t: Table, a: Action, id: nat, confidence: nat) {
    || (Makes(t, a, id) && a.draft.confidence == confidence)
    || (Edits(t, a, id) && a.patch.confidence == Some(confidence))
  }

  predicate Rerates(t: Table, a: Action, id: nat) {
    Drops(t, a, id) || (Edits(t, a, id) && a.patch.confidence.Some?)
  }

  function Trusted(confidence: nat): Row -> bool { (row: Row) => row.confidence == confidence }

  function Rating(id: nat, confidence: nat): (Table, Action) -> bool {
    (t: Table, a: Action) => Rates(t, a, id, confidence)
  }

  function Rerating(id: nat): (Table, Action) -> bool { (t: Table, a: Action) => Rerates(t, a, id) }

  /** The same of its confidence. */
  lemma ConfidenceIsHistory(r: Run, digest: string -> string, n: nat, id: nat, confidence: nat)
    requires IsRun(r, digest) && n < |r.tables|
    ensures id in r.tables[n].rows && r.tables[n].rows[id].confidence == confidence <==>
              Since(When(r, Rating(id, confidence)), When(r, Rerating(id)), n)
  {
    forall i | 0 <= i < |r.actions|
      ensures MovesAt(r, i, id, Trusted(confidence), Rating(id, confidence), Rerating(id))
    {
      RunMovesRow(r, digest, i, id);
    }
    HasSince(r, digest, n, id, Trusted(confidence), Rating(id, confidence), Rerating(id));
  }

  predicate Activates(t: Table, a: Action, id: nat) {
    (Makes(t, a, id) && a.draft.kind != Identity && a.draft.kind != Relationship) || Approves(t, a, id)
  }

  /** An edit that changes the wording of an approved identity or relationship. */
  predicate Unsettles(t: Table, a: Action, id: nat) {
    && Edits(t, a, id) && (t.rows[id].kind == Identity || t.rows[id].kind == Relationship)
    && a.patch.content.Some? && a.patch.content.value != t.rows[id].content
  }

  predicate Deactivates(t: Table, a: Action, id: nat) {
    Drops(t, a, id) || Ages(t, a, id) || Unsettles(t, a, id)
  }

  function IsActive(): Row -> bool { (row: Row) => row.state == Active }

  function Activating(id: nat): (Table, Action) -> bool { (t: Table, a: Action) => Activates(t, a, id) }

  function Deactivating(id: nat): (Table, Action) -> bool { (t: Table, a: Action) => Deactivates(t, a, id) }

  /**
   A row is active exactly from its making, or from its approval when it is an identity or relationship, until
   it expires, is deleted, or its approved wording is changed.
   */
  lemma ActiveIsHistory(r: Run, digest: string -> string, n: nat, id: nat)
    requires IsRun(r, digest) && n < |r.tables|
    ensures id in r.tables[n].rows && r.tables[n].rows[id].state == Active <==>
              Since(When(r, Activating(id)), When(r, Deactivating(id)), n)
  {
    forall i | 0 <= i < |r.actions| ensures MovesAt(r, i, id, IsActive(), Activating(id), Deactivating(id)) {
      RunMovesRow(r, digest, i, id);
    }
    HasSince(r, digest, n, id, IsActive(), Activating(id), Deactivating(id));
  }

  function IsPinned(): Row -> bool { (row: Row) => row.pinned }

  function Pinning(id: nat): (Table, Action) -> bool { (t: Table, a: Action) => Pins(t, a, id) && a.pin.pinned }

  function Unpinning(id: nat): (Table, Action) -> bool {
    (t: Table, a: Action) => Drops(t, a, id) || (Pins(t, a, id) && !a.pin.pinned)
  }

  function IsExpired(): Row -> bool { (row: Row) => row.state == Expired }

  function Aging(id: nat): (Table, Action) -> bool { (t: Table, a: Action) => Ages(t, a, id) }

  function Dropping(id: nat): (Table, Action) -> bool { (t: Table, a: Action) => Drops(t, a, id) }

  /** A row is pinned exactly from its pin to its unpin, and expired exactly from the sweep it fell to. */
  lemma PinIsHistory(r: Run, digest: string -> string, n: nat, id: nat)
    requires IsRun(r, digest) && n < |r.tables|
    ensures id in r.tables[n].rows && r.tables[n].rows[id].pinned <==>
              Since(When(r, Pinning(id)), When(r, Unpinning(id)), n)
    ensures id in r.tables[n].rows && r.tables[n].rows[id].state == Expired <==>
              Since(When(r, Aging(id)), When(r, Dropping(id)), n)
  {
    forall i | 0 <= i < |r.actions|
      ensures MovesAt(r, i, id, IsPinned(), Pinning(id), Unpinning(id))
      ensures MovesAt(r, i, id, IsExpired(), Aging(id), Dropping(id))
    {
      RunMovesRow(r, digest, i, id);
    }
    HasSince(r, digest, n, id, IsPinned(), Pinning(id), Unpinning(id));
    HasSince(r, digest, n, id, IsExpired(), Aging(id), Dropping(id));
  }
}
