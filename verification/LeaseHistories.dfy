/**
 What the reservation in a session's slot is at any time, told by the history of the slot alone: its
 credentials, its deadlines, its connection and its finish; and exactly which connections are admitted.
 */
module LeaseHistories {
  import opened Wrappers
  import opened Histories
  import opened CaptureTiming
  import opened MediaLeases
  import opened ReservationFencing

  // ---------------------------------------------------------------- the steps

  predicate Displaces(s: Server, a: Action) {
    Installs(s, a) || a.Revoke?
  }

  /** The connection is admitted to the reservation in the slot. */
  predicate Welcomes(s: Server, a: Action, now: nat) {
    && a.Admission? && s.slot.Some?
    && var l := s.slot.value;
       && a.offered == l.credential && a.spoken == l.version && a.claimed == Bridge(l.timed)
       && now <= l.expiresAt && now <= l.reconnectDeadline
       && l.connection.None? && !l.finished && l.nextConnection < 0xFFFF_FFFF_FFFF_FFFF
  }

  /** The token is that of the connection in the slot. */
  predicate Current(s: Server, t: Token) {
    s.slot.Some? && s.slot.value.epoch == t.epoch && s.slot.value.connection == Some(t.connection)
  }

  /** The connection leaves, and a reconnect window opens. */
  predicate Releases(s: Server, a: Action) {
    a.ReleaseBy? && Current(s, a.token)
  }

  predicate Leaves(s: Server, a: Action) {
    Releases(s, a) || (a.PlannedBy? && Current(s, a.token))
  }

  predicate Renews(s: Server, a: Action, now: nat) {
    && a.RenewLease? && s.slot.Some? && !s.slot.value.finished && now <= s.slot.value.expiresAt
    && (s.slot.value.connection.Some? || now <= s.slot.value.reconnectDeadline)
  }

  /** The boundary is exactly where the watermarks stand. */
  predicate EndsAt(w: Watermarks, b: FinishBoundary) {
    && w.epoch.Some? && b.epoch == w.epoch.value.epoch
    && w.pair.Some? && b.pair == w.pair.value.sequence
    && (if w.sequence == 0 then w.outputEnd.None? && b.frame.None?
        else w.outputEnd.Some? && b.frame == Some((w.sequence, w.outputEnd.value)))
  }

  predicate Finishes(s: Server, a: Action) {
    && a.FinishBy? && Current(s, a.token) && !s.slot.value.finished && s.slot.value.version == DrainableTimed
    && s.slot.value.timed.Some? && EndsAt(s.slot.value.timed.value, a.boundary)
  }

  // ---------------------------------------------------------------- what one step does

  predicate InstalledAs(l: Lease, a: Action, now: nat) {
    && a.Install? && l.epoch == a.epoch && l.version == a.version && l.credential == a.credential
    && Bridge(l.timed) == a.bridge && l.expiresAt == now + a.lifetime && l.reconnectDeadline == now + a.reconnect
    && l.connection.None? && l.nextConnection == 1 && !l.finished && !l.released
  }

  predicate LeaseMoves(s: Server, a: Action, now: nat, next: Lease)
    requires s.slot.Some?
  {
    var l := s.slot.value;
    && next.epoch == l.epoch && next.version == l.version && next.credential == l.credential
    && Bridge(next.timed) == Bridge(l.timed)
    && next.expiresAt == (if Renews(s, a, now) then now + a.extended else l.expiresAt)
    && next.reconnectDeadline == (if Releases(s, a) then a.deadline else l.reconnectDeadline)
    && next.connection == (if Welcomes(s, a, now) then Some(l.nextConnection)
                           else if Leaves(s, a) then None else l.connection)
    && next.nextConnection == (if Welcomes(s, a, now) then l.nextConnection + 1 else l.nextConnection)
    && next.finished == (l.finished || Finishes(s, a))
    && next.released == (l.released || Releases(s, a))
  }

  predicate SlotMoves(s: Server, a: Action, now: nat, next: Server) {
    && (next.slot.Some? <==> Installs(s, a) || (s.slot.Some? && !a.Revoke?))
    && (Installs(s, a) ==> next.slot.Some? && InstalledAs(next.slot.value, a, now))
    && (!Installs(s, a) && next.slot.Some? ==> s.slot.Some? && LeaseMoves(s, a, now, next.slot.value))
  }

  predicate ByConnection(a: Action) {
    a.Admission? || a.ReleaseBy? || a.PlannedBy? || a.FinishBy?
  }

  lemma ConnectionMovesSlot(s: Server, a: Action, now: nat)
    requires Orderly(s) && s.slot.Some? && ByConnection(a)
    ensures Apply(s, a, now).slot.Some? && LeaseMoves(s, a, now, Apply(s, a, now).slot.value)
  {
  }

  lemma OtherMovesSlot(s: Server, a: Action, now: nat)
    requires Orderly(s) && !ByConnection(a)
    ensures SlotMoves(s, a, now, Apply(s, a, now))
  {
  }

  lemma StepMovesSlot(s: Server, a: Action, now: nat)
    requires Orderly(s)
    ensures SlotMoves(s, a, now, Apply(s, a, now))
  {
    if !ByConnection(a) {
      OtherMovesSlot(s, a, now);
    } else if s.slot.Some? {
      ConnectionMovesSlot(s, a, now);
    }
  }

  // ---------------------------------------------------------------- histories

  ghost function When(r: Run, does: (Server, Action, nat) -> bool): nat -> bool {
    (i: nat) => i < |r.actions| && i < |r.times| && i < |r.states| && does(r.states[i], r.actions[i], r.times[i])
  }

  ghost function Where(r: Run, has: Lease -> bool): nat -> bool {
    (i: nat) => i < |r.states| && r.states[i].slot.Some? && has(r.states[i].slot.value)
  }

  ghost predicate MovesAt(r: Run, i: nat, has: Lease -> bool, starts: (Server, Action, nat) -> bool,
                          stops: (Server, Action, nat) -> bool)
    requires i < |r.actions| == |r.times| && |r.states| == |r.actions| + 1
  {
    var s, next, a, now := r.states[i].slot, r.states[i + 1].slot, r.actions[i], r.times[i];
    next.Some? && has(next.value) <==>
      starts(r.states[i], a, now) || (s.Some? && has(s.value) && !stops(r.states[i], a, now))
  }

  lemma HasSince(r: Run, n: nat, has: Lease -> bool, starts: (Server, Action, nat) -> bool,
                 stops: (Server, Action, nat) -> bool)
    requires IsRun(r) && n < |r.states|
    requires forall i :: 0 <= i < |r.actions| ==> MovesAt(r, i, has, starts, stops)
    ensures r.states[n].slot.Some? && has(r.states[n].slot.value) <==> Since(When(r, starts), When(r, stops), n)
  {
    forall i: nat | i < n ensures LatchedAt(Where(r, has), When(r, starts), When(r, stops), i) {
      assert MovesAt(r, i, has, starts, stops);
    }
    Latched(Where(r, has), When(r, starts), When(r, stops), n);
  }

  lemma RunMovesSlot(r: Run, i: nat)
    requires IsRun(r) && i < |r.actions|
    ensures SlotMoves(r.states[i], r.actions[i], r.times[i], r.states[i + 1])
  {
    ReachableIsOrderly(r, i);
    assert StepAt(r, i);
    StepMovesSlot(r.states[i], r.actions[i], r.times[i]);
  }

  function Displacing(): (Server, Action, nat) -> bool { (s: Server, a: Action, now: nat) => Displaces(s, a) }

  function Bound(e: nat, credential: bytes, bridge: Option<bytes>, version: Version): Lease -> bool {
    (l: Lease) => l.epoch == e && l.credential == credential && Bridge(l.timed) == bridge && l.version == version
  }

  function Binding(e: nat, credential: bytes, bridge: Option<bytes>, version: Version)
    : (Server, Action, nat) -> bool
  {
    (s: Server, a: Action, now: nat) =>
      Installs(s, a) && a.epoch == e && a.credential == credential && a.bridge == bridge && a.version == version
  }

  /** The reservation in the slot is bound to the credential, bridge and version it was installed with. */
  lemma CredentialsAreHistory(r: Run, n: nat, e: nat, credential: bytes, bridge: Option<bytes>, version: Version)
    requires IsRun(r) && n < |r.states|
    ensures r.states[n].slot.Some? && Bound(e, credential, bridge, version)(r.states[n].slot.value) <==>
              Since(When(r, Binding(e, credential, bridge, version)), When(r, Displacing()), n)
  {
    var has, starts := Bound(e, credential, bridge, version), Binding(e, credential, bridge, version);
    forall i | 0 <= i < |r.actions| ensures MovesAt(r, i, has, starts, Displacing()) {
      RunMovesSlot(r, i);
    }
    HasSince(r, n, has, starts, Displacing());
  }

  function Expiring(x: nat): Lease -> bool { (l: Lease) => l.expiresAt == x }

  predicate SetsExpiry(s: Server, a: Action, now: nat, x: nat) {
    (Installs(s, a) && now + a.lifetime == x) || (Renews(s, a, now) && now + a.extended == x)
  }

  predicate MovesExpiry(s: Server, a: Action, now: nat) {
    Displaces(s, a) || Renews(s, a, now)
  }

  function SettingExpiry(x: nat): (Server, Action, nat) -> bool {
    (s: Server, a: Action, now: nat) => SetsExpiry(s, a, now, x)
  }

  function MovingExpiry(): (Server, Action, nat) -> bool { (s: Server, a: Action, now: nat) => MovesExpiry(s, a, now) }

  /** The expiry is that of the installation, or of the last renewal that was granted since. */
  lemma ExpiryIsHistory(r: Run, n: nat, x: nat)
    requires IsRun(r) && n < |r.states|
    ensures r.states[n].slot.Some? && r.states[n].slot.value.expiresAt == x <==>
              Since(When(r, SettingExpiry(x)), When(r, MovingExpiry()), n)
  {
    forall i | 0 <= i < |r.actions| ensures MovesAt(r, i, Expiring(x), SettingExpiry(x), MovingExpiry()) {
      RunMovesSlot(r, i);
    }
    HasSince(r, n, Expiring(x), SettingExpiry(x), MovingExpiry());
  }

  function ReconnectingBy(d: nat): Lease -> bool { (l: Lease) => l.reconnectDeadline == d }

  predicate SetsDeadline(s: Server, a: Action, now: nat, d: nat) {
    (Installs(s, a) && now + a.reconnect == d) || (Releases(s, a) && a.deadline == d)
  }

  predicate MovesDeadline(s: Server, a: Action) {
    Displaces(s, a) || Releases(s, a)
  }

  function SettingDeadline(d: nat): (Server, Action, nat) -> bool {
    (s: Server, a: Action, now: nat) => SetsDeadline(s, a, now, d)
  }

  function MovingDeadline(): (Server, Action, nat) -> bool { (s: Server, a: Action, now: nat) => MovesDeadline(s, a) }

  /** The reconnect deadline is that of the installation, or of the last release since. */
  lemma DeadlineIsHistory(r: Run, n: nat, d: nat)
    requires IsRun(r) && n < |r.states|
    ensures r.states[n].slot.Some? && r.states[n].slot.value.reconnectDeadline == d <==>
              Since(When(r, SettingDeadline(d)), When(r, MovingDeadline()), n)
  {
    forall i | 0 <= i < |r.actions| ensures MovesAt(r, i, ReconnectingBy(d), SettingDeadline(d), MovingDeadline()) {
      RunMovesSlot(r, i);
    }
    HasSince(r, n, ReconnectingBy(d), SettingDeadline(d), MovingDeadline());
  }

  function OnConnection(c: nat): Lease -> bool { (l: Lease) => l.connection == Some(c) }

  function Admitting(c: nat): (Server, Action, nat) -> bool {
    (s: Server, a: Action, now: nat) => Welcomes(s, a, now) && s.slot.value.nextConnection == c
  }

  function Leaving(): (Server, Action, nat) -> bool {
    (s: Server, a: Action, now: nat) => Displaces(s, a) || Leaves(s, a)
  }

  /** A connection is there exactly from its admission to its own release. */
  lemma ConnectionIsHistory(r: Run, n: nat, c: nat)
    requires IsRun(r) && n < |r.states|
    ensures r.states[n].slot.Some? && r.states[n].slot.value.connection == Some(c) <==>
              Since(When(r, Admitting(c)), When(r, Leaving()), n)
  {
    forall i | 0 <= i < |r.actions| ensures MovesAt(r, i, OnConnection(c), Admitting(c), Leaving()) {
      RunMovesSlot(r, i);
    }
    HasSince(r, n, OnConnection(c), Admitting(c), Leaving());
  }

  function Over(): Lease -> bool { (l: Lease) => l.finished }

  function Finishing(): (Server, Action, nat) -> bool { (s: Server, a: Action, now: nat) => Finishes(s, a) }

  function WasReleased(): Lease -> bool { (l: Lease) => l.released }

  function Releasing(): (Server, Action, nat) -> bool { (s: Server, a: Action, now: nat) => Releases(s, a) }

  /** The capture is finished exactly from its finish on, and counts as released from the first release on. */
  lemma FinishIsHistory(r: Run, n: nat)
    requires IsRun(r) && n < |r.states|
    ensures r.states[n].slot.Some? && r.states[n].slot.value.finished <==>
              Since(When(r, Finishing()), When(r, Displacing()), n)
    ensures r.states[n].slot.Some? && r.states[n].slot.value.released <==>
              Since(When(r, Releasing()), When(r, Displacing()), n)
  {
    forall i | 0 <= i < |r.actions|
      ensures MovesAt(r, i, Over(), Finishing(), Displacing())
      ensures MovesAt(r, i, WasReleased(), Releasing(), Displacing())
    {
      RunMovesSlot(r, i);
    }
    HasSince(r, n, Over(), Finishing(), Displacing());
    HasSince(r, n, WasReleased(), Releasing(), Displacing());
  }

  // ---------------------------------------------------------------- epochs and records

  function Drawing(e: nat): (Server, Action, nat) -> bool {
    (s: Server, a: Action, now: nat) => a.Draw? && s.nextEpoch == e < 0xFFFF_FFFF_FFFF_FFFF
  }

  function InstallingEpoch(e: nat): (Server, Action, nat) -> bool {
    (s: Server, a: Action, now: nat) => a.Install? && a.epoch == e
  }

  /** An epoch can be installed exactly from its draw from the counter to its installation. */
  lemma {:induction false} DrawnIsHistory(r: Run, n: nat, e: nat)
    requires IsRun(r) && n < |r.states|
    ensures e in r.states[n].drawn <==> Since(When(r, Drawing(e)), When(r, InstallingEpoch(e)), n)
  {
    var starts, stops := When(r, Drawing(e)), When(r, InstallingEpoch(e));
    if n == 0 {
      SinceNever(starts, stops);
    } else {
      DrawnIsHistory(r, n - 1, e);
      SinceNext(starts, stops, n - 1);
      assert StepAt(r, n - 1);
    }
  }

  /** Each epoch is drawn once, the numbers rising one by one until none is left. */
  lemma DrawnOnce(r: Run, i: nat, j: nat, e: nat)
    requires IsRun(r) && i < j < |r.actions| && When(r, Drawing(e))(i)
    ensures !When(r, Drawing(e))(j)
    ensures r.states[i + 1].nextEpoch == e + 1
  {
    assert StepAt(r, i);
    CounterRises(r, i + 1, j);
  }

  lemma {:induction false} CounterRises(r: Run, i: nat, j: nat)
    requires IsRun(r) && i <= j < |r.states|
    ensures r.states[i].nextEpoch <= r.states[j].nextEpoch
  {
    if i < j {
      CounterRises(r, i, j - 1);
      assert StepAt(r, j - 1);
    }
  }

  /** The records of a connection may leave any window and any watermarks of the same bridge behind. */
  lemma RecordsExactly(r: Run, i: nat)
    requires IsRun(r) && i < |r.actions| && r.actions[i].Records? && r.states[i].slot.Some?
    ensures
      var l, a, next := r.states[i].slot.value, r.actions[i], r.states[i + 1].slot;
      && next.Some?
      && (Bridge(a.timed) == Bridge(l.timed) ==> next.value.frames == a.frames && next.value.timed == a.timed)
      && (Bridge(a.timed) != Bridge(l.timed) ==> next.value == l)
  {
    assert StepAt(r, i);
  }

  // ---------------------------------------------------------------- admission

  lemma IssuedWhenWelcome(s: Server, a: Action, now: nat, t: Token)
    requires Orderly(s)
    ensures ReservationFencing.Issued(s, a, now) == Some(t) <==>
              Welcomes(s, a, now) && t == Token(s.slot.value.epoch, s.slot.value.nextConnection)
  {
  }

  /** Nothing in the history bars the connection. */
  ghost predicate Open(r: Run, i: nat)
    requires i < |r.actions| == |r.times|
  {
    && (forall c: nat :: !Since(When(r, Admitting(c)), When(r, Leaving()), i))
    && !Since(When(r, Finishing()), When(r, Displacing()), i)
    && (exists x: nat :: r.times[i] <= x && Since(When(r, SettingExpiry(x)), When(r, MovingExpiry()), i))
    && (exists d: nat :: r.times[i] <= d && Since(When(r, SettingDeadline(d)), When(r, MovingDeadline()), i))
  }

  lemma OpenIsState(r: Run, i: nat)
    requires IsRun(r) && i < |r.actions| && r.states[i].slot.Some?
    ensures
      var l := r.states[i].slot.value;
      Open(r, i) <==>
        l.connection.None? && !l.finished && r.times[i] <= l.expiresAt && r.times[i] <= l.reconnectDeadline
  {
    var l := r.states[i].slot.value;
    FinishIsHistory(r, i);
    forall c: nat ensures l.connection == Some(c) <==> Since(When(r, Admitting(c)), When(r, Leaving()), i) {
      ConnectionIsHistory(r, i, c);
    }
    forall x: nat ensures l.expiresAt == x <==> Since(When(r, SettingExpiry(x)), When(r, MovingExpiry()), i) {
      ExpiryIsHistory(r, i, x);
    }
    forall d: nat
      ensures l.reconnectDeadline == d <==> Since(When(r, SettingDeadline(d)), When(r, MovingDeadline()), i)
    {
      DeadlineIsHistory(r, i, d);
    }
    if l.connection.Some? {
      assert Since(When(r, Admitting(l.connection.value)), When(r, Leaving()), i);
    }
    assert Since(When(r, SettingExpiry(l.expiresAt)), When(r, MovingExpiry()), i);
    assert Since(When(r, SettingDeadline(l.reconnectDeadline)), When(r, MovingDeadline()), i);
  }

  /**
   A token of a reservation is issued if and only if the credential, the bridge and the version offered are
   those it was installed with, it is still in the slot, no connection is there, no finish was admitted,
   neither its expiry nor its reconnect deadline is past, and the connection counter has a number left.
   */
  lemma AdmittedExactly(r: Run, i: nat, t: Token)
    requires IsRun(r) && i < |r.actions|
    ensures
      var a := r.actions[i];
      ReservationFencing.Issued(r.states[i], a, r.times[i]) == Some(t) <==>
        && a.Admission?
        && Since(When(r, Binding(t.epoch, a.offered, a.claimed, a.spoken)), When(r, Displacing()), i)
        && Open(r, i)
        && r.states[i].slot.Some? && t.connection == r.states[i].slot.value.nextConnection < 0xFFFF_FFFF_FFFF_FFFF
  {
    var s, a := r.states[i], r.actions[i];
    ReachableIsOrderly(r, i);
    IssuedWhenWelcome(s, a, r.times[i], t);
    if a.Admission? {
      CredentialsAreHistory(r, i, t.epoch, a.offered, a.claimed, a.spoken);
      if s.slot.Some? {
        OpenIsState(r, i);
      }
    }
  }
}
