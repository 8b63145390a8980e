/**
 Controlled memory records: each operation as one atomic change of a row, and the conditional
 UPDATE the store issues for it from a row it read earlier.
 */
module MemoryRows {
  import opened Wrappers

  const MAX_WORKING_RETENTION: nat := 86_400_000

  datatype Kind = Working | Episodic | Semantic | Identity | Relationship

  datatype State = Candidate | Active | Expired

  datatype Retention = WorkingUntil(expires: nat) | Session(session: nat) | Until(expires: nat) | UntilDeleted

  /** Approval evidence: when, for which revision, and the digest of the approved content. */
  datatype Evidence = Evidence(confirmation: string, actor: string, confirmedAt: nat, revision: nat, digest: string)

  datatype Row = Row(
    kind: Kind,
    state: State,
    content: string,
    confidence: nat,
    createdAt: nat,
    updatedAt: nat,
    retention: Retention,
    pinned: bool,
    prior: Option<Retention>,
    revision: nat,
    lastUsed: Option<nat>,
    approvals: seq<Evidence>)

  predicate RequiresApproval(kind: Kind) {
    kind.Identity? || kind.Relationship?
  }

  predicate Expiring(retention: Retention) {
    retention.WorkingUntil? || retention.Until?
  }

  predicate ValidRetention(kind: Kind, createdAt: nat, retention: Retention) {
    if kind.Working? then retention.WorkingUntil? && createdAt < retention.expires <= createdAt + MAX_WORKING_RETENTION
    else !retention.WorkingUntil? && (retention.Until? ==> createdAt < retention.expires)
  }

  datatype Draft = Draft(kind: Kind, content: string, confidence: nat, createdAt: nat, retention: Retention)

  function NewRow(d: Draft): Row {
    Row(d.kind, if RequiresApproval(d.kind) then Candidate else Active,
        d.content, d.confidence, d.createdAt, d.createdAt,
        d.retention, false, None, 1, None, [])
  }

  // ---------------------------------------------------------------- expiry and use

  predicate Due(row: Row, now: nat) {
    !row.state.Expired? && Expiring(row.retention) && row.retention.expires <= now
  }

  predicate OfSession(row: Row, session: nat) {
    !row.state.Expired? && row.retention == Session(session)
  }

  function Expire(row: Row, now: nat): Row {
    row.(state := Expired, updatedAt := if row.updatedAt < now then now else row.updatedAt,
         revision := row.revision + 1)
  }

  function Use(row: Row, now: nat): Row {
    if now < row.createdAt then row else row.(lastUsed := Some(now))
  }

  // ---------------------------------------------------------------- edit

  datatype Patch = Patch(expected: nat, content: Option<string>, confidence: Option<nat>,
                         retention: Option<Retention>, editedAt: nat)

  function Or<T>(choice: Option<T>, otherwise: T): T {
    if choice.Some? then choice.value else otherwise
  }

  /** The checks an edit makes on the row it read. */
  predicate EditAllowed(row: Row, p: Patch) {
    && row.revision == p.expected
    && row.updatedAt <= p.editedAt
    && !(row.pinned && p.retention.Some?)
    && ValidRetention(row.kind, row.createdAt, Or(p.retention, row.retention))
  }

  function EditedState(row: Row, p: Patch): State {
    if RequiresApproval(row.kind) && row.state.Active? && Or(p.content, row.content) != row.content then Candidate
    else row.state
  }

  /** An edit as one atomic change. */
  function Edit(row: Row, p: Patch): Option<Row> {
    if !EditAllowed(row, p) then None
    else Some(row.(content := Or(p.content, row.content), confidence := Or(p.confidence, row.confidence),
                   updatedAt := p.editedAt, retention := Or(p.retention, row.retention),
                   state := EditedState(row, p), revision := row.revision + 1))
  }

  /** The conditional UPDATE of an edit: new values come from the row `read` earlier, the rest stays. */
  function EditWrite(row: Row, read: Row, p: Patch): Option<Row> {
    if row.revision != p.expected then None
    else Some(row.(content := Or(p.content, read.content), confidence := Or(p.confidence, read.confidence),
                   updatedAt := p.editedAt, retention := Or(p.retention, read.retention),
                   state := EditedState(read, p), revision := row.revision + 1))
  }

  // ---------------------------------------------------------------- approve

  datatype Approval = Approval(confirmation: string, actor: string, confirmedAt: nat, expected: nat)

  predicate ApproveAllowed(row: Row, a: Approval) {
    row.revision == a.expected && row.state.Candidate? && RequiresApproval(row.kind) && row.updatedAt <= a.confirmedAt
  }

  function EvidenceFor(a: Approval, content: string, digest: string -> string): Evidence {
    Evidence(a.confirmation, a.actor, a.confirmedAt, a.expected, digest(content))
  }

  function Approve(row: Row, a: Approval, digest: string -> string): Option<Row> {
    if !ApproveAllowed(row, a) then None
    else Some(row.(state := Active, updatedAt := a.confirmedAt, revision := row.revision + 1,
                   approvals := row.approvals + [EvidenceFor(a, row.content, digest)]))
  }

  function ApproveWrite(row: Row, read: Row, a: Approval, digest: string -> string): Option<Row> {
    if row.revision != a.expected || !row.state.Candidate? || !RequiresApproval(row.kind) then None
    else Some(row.(state := Active, updatedAt := a.confirmedAt, revision := row.revision + 1,
                   approvals := row.approvals + [EvidenceFor(a, read.content, digest)]))
  }

  // ---------------------------------------------------------------- pin and unpin

  datatype PinRequest = PinRequest(expected: nat, pinned: bool, changedAt: nat)

  predicate PinAllowed(row: Row, p: PinRequest) {
    && row.revision == p.expected && !row.state.Expired? && !row.kind.Working?
    && row.pinned != p.pinned && row.updatedAt <= p.changedAt
  }

  function Pinned(row: Row, at: nat): Row {
    row.(pinned := true, prior := Some(row.retention), retention := UntilDeleted, updatedAt := at,
         revision := row.revision + 1)
  }

  function Unpinned(row: Row, at: nat): Row {
    if row.prior.None? then row
    else row.(pinned := false, retention := row.prior.value, prior := None, updatedAt := at,
              revision := row.revision + 1)
  }

  function Pin(row: Row, p: PinRequest): Option<Row> {
    if !PinAllowed(row, p) then None
    else Some(if p.pinned then Pinned(row, p.changedAt) else Unpinned(row, p.changedAt))
  }

  function PinWrite(row: Row, p: PinRequest): Option<Row> {
    if row.revision != p.expected then None
    else if p.pinned then
      if row.pinned || row.kind.Working? then None else Some(Pinned(row, p.changedAt))
    else if !row.pinned || row.prior.None? then None
    else Some(Unpinned(row, p.changedAt))
  }
}
