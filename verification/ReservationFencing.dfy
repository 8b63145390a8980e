/**
 One session's reservation slot across every reserve, revoke, renewal, reconnect and release: tokens are
 never reissued, an outlived token can end nothing, a lost reservation stays lost, and exactly when a
 record handler that is not fenced by its token writes to a reservation other than its own.
 */
module ReservationFencing {
  import opened Wrappers
  import opened CaptureTiming
  import opened RateWindows
  import opened MediaLeases

  /** The shared epoch counter, the epochs drawn but not yet installed, and the session's slot. */
  datatype Server = Server(nextEpoch: nat, drawn: set<nat>, slot: Option<Lease>)

  datatype Action =
    | Draw
    | Install(epoch: nat, version: Version, credential: bytes, bridge: Option<bytes>, lifetime: nat, reconnect: nat)
    | Revoke
    | RenewLease(extended: nat)
    | Admission(offered: bytes, claimed: Option<bytes>, spoken: Version)
    | ReleaseBy(token: Token, deadline: nat)
    | PlannedBy(token: Token)
    | FinishBy(token: Token, boundary: FinishBoundary)
    | CommitBy(token: Token, frame: FrameProvenance)
    | Records(frames: Window, timed: Option<Watermarks>)

  function Issued(s: Server, a: Action, now: nat): Option<Token> {
    if a.Admission? && s.slot.Some? then
      var r := Authenticate(s.slot.value, a.offered, a.claimed, a.spoken, now);
      if r.Some? then Some(r.value.1) else None
    else None
  }

  predicate Installs(s: Server, a: Action) {
    a.Install? && a.epoch in s.drawn
  }

  function Bridge(timed: Option<Watermarks>): Option<bytes> {
    if timed.Some? then Some(timed.value.bridge) else None
  }

  /** The slot after a step that finds it occupied; the records of a connection leave its bridge alone. */
  function Touched(l: Lease, a: Action, now: nat): Option<Lease> {
    match a
    case Revoke => None
    case RenewLease(lifetime) =>
      var r := Renew(l, now, lifetime);
      if r.Some? then r else Some(l)
    case Admission(credential, bridge, version) =>
      var r := Authenticate(l, credential, bridge, version, now);
      if r.Some? then Some(r.value.0) else Some(l)
    case ReleaseBy(token, deadline) => Some(Release(l, token, deadline))
    case PlannedBy(token) => Some(ReleasePlanned(l, token))
    case FinishBy(token, boundary) =>
      var r := AdmitFinish(l, token, boundary);
      if r.Ok? then Some(r.value) else Some(l)
    case CommitBy(_, frame) =>
      if l.timed.Some? then Some(l.(timed := Some(CommitFrame(l.timed.value, frame)))) else Some(l)
    case Records(frames, timed) =>
      if Bridge(timed) == BridgeOf(l) then Some(l.(frames := frames, timed := timed)) else Some(l)
    case _ => Some(l)
  }

  function Apply(s: Server, a: Action, now: nat): Server {
    if a.Draw? then
      if s.nextEpoch >= U64_MAX then s else s.(nextEpoch := s.nextEpoch + 1, drawn := s.drawn + {s.nextEpoch})
    else if a.Install? then
      if a.epoch !in s.drawn then s
      else s.(drawn := s.drawn - {a.epoch},
              slot := Some(NewLease(a.version, a.epoch, a.credential, a.bridge, now, a.lifetime, a.reconnect)))
    else if s.slot.None? then s
    else s.(slot := Touched(s.slot.value, a, now))
  }

  datatype Run = Run(states: seq<Server>, actions: seq<Action>, times: seq<nat>)

  ghost predicate StepAt(r: Run, i: nat)
    requires i < |r.actions| == |r.times| && |r.states| == |r.actions| + 1
  {
    r.states[i + 1] == Apply(r.states[i], r.actions[i], r.times[i])
  }

  /** Any run from a server that has drawn nothing, under a clock that never goes back. */
  ghost predicate IsRun(r: Run) {
    && |r.actions| == |r.times| && |r.states| == |r.actions| + 1
    && r.states[0].drawn == {} && r.states[0].slot.None?
    && (forall i, j :: 0 <= i < j < |r.times| ==> r.times[i] <= r.times[j])
    && (forall i {:trigger StepAt(r, i)} :: 0 <= i < |r.actions| ==> StepAt(r, i))
  }

  // ---------------------------------------------------------------- the invariant

  ghost predicate Used(s: Server, epoch: nat) {
    epoch < s.nextEpoch && epoch !in s.drawn
  }

  ghost predicate Orderly(s: Server) {
    && (forall e :: e in s.drawn ==> e < s.nextEpoch)
    && (s.slot.Some? ==> Used(s, s.slot.value.epoch) && (s.slot.value.active <==> s.slot.value.connection.Some?))
    && (s.slot.Some? && s.slot.value.connection.Some? ==> s.slot.value.connection.value < s.slot.value.nextConnection)
  }

  lemma OrderlyStep(s: Server, a: Action, now: nat)
    requires Orderly(s)
    ensures Orderly(Apply(s, a, now))
  {
  }

  /** In every reachable state a reservation is active exactly when one connection holds it. */
  lemma {:induction false} ReachableIsOrderly(r: Run, i: nat)
    requires IsRun(r) && i < |r.states|
    ensures Orderly(r.states[i])
  {
    if i > 0 {
      ReachableIsOrderly(r, i - 1);
      assert StepAt(r, i - 1);
      OrderlyStep(r.states[i - 1], r.actions[i - 1], r.times[i - 1]);
    }
  }

  // ---------------------------------------------------------------- tokens

  /** The token can never be issued from this state on. */
  ghost predicate Spent(s: Server, t: Token) {
    Used(s, t.epoch) && (s.slot.Some? && s.slot.value.epoch == t.epoch ==> t.connection < s.slot.value.nextConnection)
  }

  predicate Held(s: Server, t: Token) {
    s.slot.Some? && Holds(s.slot.value, t)
  }

  lemma SpentStep(s: Server, a: Action, now: nat, t: Token)
    requires Spent(s, t)
    ensures Spent(Apply(s, a, now), t)
    ensures Issued(s, a, now) != Some(t)
    ensures !Held(s, t) ==> !Held(Apply(s, a, now), t)
  {
  }

  lemma IssuedIsSpent(s: Server, a: Action, now: nat, t: Token)
    requires Orderly(s) && Issued(s, a, now) == Some(t)
    ensures Spent(Apply(s, a, now), t) && Held(Apply(s, a, now), t)
  {
  }

  lemma {:induction false} SpentForGood(r: Run, t: Token, i: nat, j: nat)
    requires IsRun(r) && i <= j < |r.states| && Spent(r.states[i], t)
    ensures Spent(r.states[j], t)
    ensures !Held(r.states[i], t) ==> !Held(r.states[j], t)
  {
    if i < j {
      SpentForGood(r, t, i, j - 1);
      assert StepAt(r, j - 1);
      SpentStep(r.states[j - 1], r.actions[j - 1], r.times[j - 1], t);
    }
  }

  /** A token is issued at most once in any run, through every reservation of the session. */
  lemma TokensAreFresh(r: Run, i: nat, j: nat, t: Token)
    requires IsRun(r) && i < j < |r.actions|
    requires Issued(r.states[i], r.actions[i], r.times[i]) == Some(t)
    ensures Issued(r.states[j], r.actions[j], r.times[j]) != Some(t)
  {
    ReachableIsOrderly(r, i);
    assert StepAt(r, i);
    IssuedIsSpent(r.states[i], r.actions[i], r.times[i], t);
    SpentForGood(r, t, i + 1, j);
    SpentStep(r.states[j], r.actions[j], r.times[j], t);
  }

  /**
   A token issued at `i` and no longer held at `j` is never held again, and from then on releasing,
   planned releasing and finishing with it change nothing.
   */
  lemma OutlivedTokenIsInert(r: Run, t: Token, i: nat, j: nat, k: nat, deadline: nat, b: FinishBoundary, now: nat)
    requires IsRun(r) && i < j <= k < |r.states|
    requires Issued(r.states[i], r.actions[i], r.times[i]) == Some(t) && !Held(r.states[j], t)
    ensures !Held(r.states[k], t)
    ensures Apply(r.states[k], ReleaseBy(t, deadline), now) == r.states[k]
    ensures Apply(r.states[k], PlannedBy(t), now) == r.states[k]
    ensures Apply(r.states[k], FinishBy(t, b), now) == r.states[k]
  {
    ReachableIsOrderly(r, i);
    assert StepAt(r, i);
    IssuedIsSpent(r.states[i], r.actions[i], r.times[i], t);
    SpentForGood(r, t, i + 1, j);
    SpentForGood(r, t, j, k);
  }

  // ---------------------------------------------------------------- lost reservations

  /** The reservation with this epoch is gone for good, or lost. */
  ghost predicate Beyond(s: Server, epoch: nat, now: nat) {
    && Used(s, epoch)
    && (s.slot.Some? && s.slot.value.epoch == epoch ==>
          s.slot.value.connection.None? && Lost(s.slot.value, now))
  }

  lemma BeyondStep(s: Server, a: Action, epoch: nat, now: nat, later: nat)
    requires Beyond(s, epoch, now) && now <= later
    ensures Beyond(Apply(s, a, later), epoch, later)
    ensures Issued(s, a, later).Some? ==> Issued(s, a, later).value.epoch != epoch
    ensures a.RenewLease? && s.slot.Some? && s.slot.value.epoch == epoch ==>
            Renew(s.slot.value, later, a.extended).None?
  {
  }

  lemma {:induction false} StaysBeyond(r: Run, epoch: nat, i: nat, j: nat)
    requires IsRun(r) && i <= j < |r.times| && Beyond(r.states[i], epoch, r.times[i])
    ensures Beyond(r.states[j], epoch, r.times[j])
  {
    if i < j {
      StaysBeyond(r, epoch, i, j - 1);
      assert StepAt(r, j - 1);
      BeyondStep(r.states[j - 1], r.actions[j - 1], epoch, r.times[j - 1], r.times[j - 1]);
      assert r.times[j - 1] <= r.times[j];
    }
  }

  /**
   Once media is reported lost, for the rest of the run no connection is admitted to that reservation,
   it is never renewed, and it stays lost for as long as it is in the slot.
   */
  lemma LostForGood(r: Run, i: nat, j: nat)
    requires IsRun(r) && i <= j < |r.times|
    requires r.states[i].slot.Some? && Lost(r.states[i].slot.value, r.times[i])
    ensures Issued(r.states[j], r.actions[j], r.times[j]).Some? ==>
              Issued(r.states[j], r.actions[j], r.times[j]).value.epoch != r.states[i].slot.value.epoch
    ensures r.states[j].slot.Some? && r.states[j].slot.value.epoch == r.states[i].slot.value.epoch ==>
              && Lost(r.states[j].slot.value, r.times[j])
              && r.states[j].slot.value.expiresAt == r.states[i].slot.value.expiresAt
  {
    var epoch := r.states[i].slot.value.epoch;
    ReachableIsOrderly(r, i);
    StaysBeyond(r, epoch, i, j);
    BeyondStep(r.states[j], r.actions[j], epoch, r.times[j], r.times[j]);
    ExpiryStands(r, i, j);
  }

  lemma {:induction false} ExpiryStands(r: Run, i: nat, j: nat)
    requires IsRun(r) && i <= j < |r.times|
    requires r.states[i].slot.Some? && Beyond(r.states[i], r.states[i].slot.value.epoch, r.times[i])
    ensures r.states[j].slot.Some? && r.states[j].slot.value.epoch == r.states[i].slot.value.epoch ==>
              r.states[j].slot.value.expiresAt == r.states[i].slot.value.expiresAt
  {
    if i < j {
      ExpiryStands(r, i, j - 1);
      StaysBeyond(r, r.states[i].slot.value.epoch, i, j - 1);
      assert StepAt(r, j - 1);
    }
  }

  /** Whether the rightful bridge would be admitted. */
  predicate Reconnects(l: Lease, now: nat) {
    Authenticate(l, l.credential, BridgeOf(l), l.version, now).Some?
  }

  /**
   A holder's release opens the reconnect window to exactly its deadline and the credential's expiry: until
   then the bridge is admitted under a token never issued before, and past it the media is lost.
   */
  lemma ReleaseOpensTheWindow(l: Lease, t: Token, deadline: nat, now: nat)
    requires Holds(l, t) && !l.finished && t.connection < l.nextConnection < U64_MAX
    ensures
      var r := Release(l, t, deadline);
      && (Reconnects(r, now) <==> now <= l.expiresAt && now <= deadline)
      && (Lost(r, now) <==> !Reconnects(r, now))
      && (Reconnects(r, now) ==>
            var next := Authenticate(r, r.credential, BridgeOf(r), r.version, now).value;
            && Holds(next.0, next.1) && next.1 != t && next.0.active && next.0.timed == l.timed
            && !Reconnects(next.0, now))
  {
    var r := Release(l, t, deadline);
    assert r.credential == l.credential && BridgeOf(r) == BridgeOf(l) && r.version == l.version;
  }

  /** A renewal moves the expiry and nothing else: a disconnected bridge gains no time past its reconnect deadline. */
  lemma RenewalKeepsTheDeadline(l: Lease, now: nat, lifetime: nat, later: nat)
    requires Renew(l, now, lifetime).Some? && !l.active && l.nextConnection < U64_MAX
    ensures
      var r := Renew(l, now, lifetime).value;
      && (Reconnects(r, later) <==> later <= now + lifetime && later <= l.reconnectDeadline)
      && r == l.(expiresAt := now + lifetime)
  {
    var r := Renew(l, now, lifetime).value;
    assert r.credential == l.credential && BridgeOf(r) == BridgeOf(l) && r.version == l.version;
  }

  // ---------------------------------------------------------------- records are not fenced

  /** No reservation was installed in the slot by steps `i .. j`. */
  ghost predicate Undisturbed(r: Run, i: nat, j: nat)
    requires i <= j <= |r.actions| == |r.times| && |r.states| == |r.actions| + 1
  {
    forall k :: i <= k < j ==> !Installs(r.states[k], r.actions[k])
  }

  lemma {:induction false} SlotSince(r: Run, i: nat, j: nat, epoch: nat)
    requires IsRun(r) && i <= j < |r.states| && Used(r.states[i], epoch)
    requires r.states[i].slot.Some? && r.states[i].slot.value.epoch == epoch
    ensures Used(r.states[j], epoch)
    ensures Undisturbed(r, i, j) ==> r.states[j].slot.None? || r.states[j].slot.value.epoch == epoch
    ensures !Undisturbed(r, i, j) ==> r.states[j].slot.None? || r.states[j].slot.value.epoch != epoch
  {
    if i < j {
      SlotSince(r, i, j - 1, epoch);
      assert StepAt(r, j - 1);
      assert Undisturbed(r, i, j) <==> Undisturbed(r, i, j - 1) && !Installs(r.states[j - 1], r.actions[j - 1]);
    }
  }

  /**
   A record is committed to whichever reservation is in the slot. It is the reservation that admitted
   the connection if and only if none was installed since.
   */
  lemma CommitsToItsOwnReservation(r: Run, t: Token, i: nat, j: nat)
    requires IsRun(r) && i < j < |r.states| && r.states[j].slot.Some?
    requires Issued(r.states[i], r.actions[i], r.times[i]) == Some(t)
    ensures r.states[j].slot.value.epoch == t.epoch <==> Undisturbed(r, i + 1, j)
  {
    ReachableIsOrderly(r, i);
    assert StepAt(r, i);
    IssuedIsSpent(r.states[i], r.actions[i], r.times[i], t);
    SlotSince(r, i + 1, j, t.epoch);
  }

  // ---------------------------------------------------------------- a run with a stale commit

  /** The run with one more action. */
  function Extended(r: Run, a: Action): Run
    requires |r.actions| == |r.times| && |r.states| == |r.actions| + 1
  {
    Run.Run(r.states + [Apply(r.states[|r.actions|], a, 0)], r.actions + [a], r.times + [0])
  }

  /** A run whose clock stands still, and its last state. */
  ghost predicate Ends(r: Run, s: Server) {
    IsRun(r) && r.states[|r.actions|] == s && forall i :: 0 <= i < |r.times| ==> r.times[i] == 0
  }

  lemma ExtendedIsRun(r: Run, s: Server, a: Action)
    requires Ends(r, s)
    ensures Ends(Extended(r, a), Apply(s, a, 0))
  {
    var next := Extended(r, a);
    forall i | 0 <= i < |next.actions| ensures StepAt(next, i) {
      if i < |r.actions| { assert StepAt(r, i); }
    }
  }

  const FORMAT: PcmFormat := PcmFormat(16000, 1, Signed16)
  const FIRST: FrameProvenance := FrameProvenance(1, 1, 0, 10, 0, 10, 16000, 1, UnknownClock, None)
  const SECOND_FRAME: FrameProvenance := FrameProvenance(1, 2, 10, 10, 10, 20, 16000, 1, UnknownClock, None)
  const EPOCH: CaptureEpoch := CaptureEpoch([98], [99], 1)

  /** A slot's watermarks would take the frame. */
  predicate Takes(s: Server, p: FrameProvenance) {
    s.slot.Some? && s.slot.value.timed.Some? && FrameAdmissible(s.slot.value.timed.value, p, FORMAT, 20, Some(FORMAT))
  }

  /** The slot of a reservation that a bridge has connected to and opened a capture epoch in. */
  function Opened(epoch: nat): Lease {
    var l := NewLease(Timed, epoch, [97], Some([98]), 0, 1, 1);
    l.(active := true, connection := Some(1), nextConnection := 2,
       timed := Some(l.timed.value.(epoch := Some(EPOCH), domain := Some([99]), domains := {[99]})))
  }

  function Reserved(epoch: nat): Lease {
    NewLease(Timed, epoch, [97], Some([98]), 0, 1, 1)
  }

  function Joined(epoch: nat): Lease {
    Reserved(epoch).(active := true, connection := Some(1), nextConnection := 2)
  }

  /** The longer run continues the shorter one. */
  ghost predicate Continues(r: Run, longer: Run) {
    r.actions <= longer.actions && r.states <= longer.states && r.times <= longer.times
  }

  /** A reservation is drawn and installed in the empty slot. */
  lemma Reserves(r: Run, n: nat) returns (longer: Run)
    requires Ends(r, Server(n, {}, None)) && n < U64_MAX
    ensures Ends(longer, Server(n + 1, {}, Some(Reserved(n)))) && |longer.actions| == |r.actions| + 2
    ensures Continues(r, longer)
  {
    var install := Install(n, Timed, [97], Some([98]), 1, 1);
    ExtendedIsRun(r, Server(n, {}, None), Draw);
    longer := Extended(r, Draw);
    assert {} + {n} == {n} && {n} - {n} == {};
    ExtendedIsRun(longer, Server(n + 1, {n}, None), install);
    longer := Extended(longer, install);
  }

  /** Its bridge connects. */
  lemma Joins(r: Run, n: nat) returns (longer: Run)
    requires Ends(r, Server(n + 1, {}, Some(Reserved(n))))
    ensures Ends(longer, Server(n + 1, {}, Some(Joined(n)))) && |longer.actions| == |r.actions| + 1
    ensures Continues(r, longer)
    ensures Issued(longer.states[|r.actions|], longer.actions[|r.actions|], 0) == Some(Token(n, 1))
  {
    var admission := Admission([97], Some([98]), Timed);
    ExtendedIsRun(r, Server(n + 1, {}, Some(Reserved(n))), admission);
    longer := Extended(r, admission);
  }

  /** The step opened the first capture epoch of the reservation in the slot. */
  predicate OpensEpoch(s: Server, a: Action) {
    && a.Records? && s.slot.Some? && s.slot.value.timed.Some? && a.frames == s.slot.value.frames
    && a.timed == AdmitEpoch(s.slot.value.timed.value, EPOCH, true)
  }

  lemma Starts(r: Run, n: nat) returns (longer: Run)
    requires Ends(r, Server(n + 1, {}, Some(Joined(n))))
    ensures Ends(longer, Server(n + 1, {}, Some(Opened(n)))) && |longer.actions| == |r.actions| + 1
    ensures Continues(r, longer) && OpensEpoch(longer.states[|r.actions|], longer.actions[|r.actions|])
  {
    PlainIdentifiers();
    var records := Records(Joined(n).frames, AdmitEpoch(Joined(n).timed.value, EPOCH, true));
    assert {} + {EPOCH.domain} == {[99]};
    ExtendedIsRun(r, Server(n + 1, {}, Some(Joined(n))), records);
    longer := Extended(r, records);
  }

  /** The steps of a reservation from its drawing to its first capture epoch. */
  lemma Opens(r: Run, n: nat) returns (longer: Run)
    requires Ends(r, Server(n, {}, None)) && n < U64_MAX
    ensures Ends(longer, Server(n + 1, {}, Some(Opened(n)))) && |longer.actions| == |r.actions| + 4
    ensures Continues(r, longer)
    ensures Issued(longer.states[|r.actions| + 2], longer.actions[|r.actions| + 2], 0) == Some(Token(n, 1))
    ensures OpensEpoch(longer.states[|r.actions| + 3], longer.actions[|r.actions| + 3])
  {
    longer := Reserves(r, n);
    longer := Joins(longer, n);
    longer := Starts(longer, n);
  }

  lemma PlainIdentifiers()
    ensures ValidEpoch(EPOCH)
  {
    assert PlainText([]);
    assert [98][1..] == [] && [99][1..] == [];
  }

  /** Reservation 1 is opened and revoked, and reservation 2 is opened. */
  lemma OpensTwice() returns (r: Run)
    ensures Ends(r, Server(3, {}, Some(Opened(2)))) && |r.actions| == 9
    ensures Issued(r.states[2], r.actions[2], r.times[2]) == Some(Token(1, 1))
    ensures r.states[4] == Server(2, {}, Some(Opened(1))) && r.actions[4] == Revoke
    ensures Issued(r.states[7], r.actions[7], r.times[7]) == Some(Token(2, 1))
    ensures OpensEpoch(r.states[3], r.actions[3]) && OpensEpoch(r.states[8], r.actions[8])
  {
    r := Run.Run([Server(1, {}, None)], [], []);
    r := Opens(r, 1);
    assert r.states[4] == Server(2, {}, Some(Opened(1)));
    ExtendedIsRun(r, Server(2, {}, Some(Opened(1))), Revoke);
    r := Extended(r, Revoke);
    r := Opens(r, 2);
  }

  /** Reservation 2 in the slot, with these frames committed to it in turn. */
  function After(frames: seq<FrameProvenance>): Server {
    if frames == [] then Server(3, {}, Some(Opened(2)))
    else
      var s := After(frames[..|frames| - 1]);
      if s.slot.Some? && s.slot.value.timed.Some? then
        s.(slot := Some(s.slot.value.(timed := Some(CommitFrame(s.slot.value.timed.value, frames[|frames| - 1])))))
      else s
  }

  /** A commit of one frame into an opened reservation. */
  lemma Commits(r: Run, frames: seq<FrameProvenance>, t: Token, p: FrameProvenance) returns (more: Run)
    requires Ends(r, After(frames)) && After(frames).slot.Some? && After(frames).slot.value.timed.Some?
    ensures Ends(more, After(frames + [p])) && Continues(r, more)
    ensures |more.actions| == |r.actions| + 1 && more.actions[|r.actions|] == CommitBy(t, p)
  {
    assert (frames + [p])[..|frames|] == frames;
    ExtendedIsRun(r, After(frames), CommitBy(t, p));
    more := Extended(r, CommitBy(t, p));
  }

  /** The second frame is refused as a replay once committed, and admissible again after the first is repeated. */
  lemma RepeatReopens()
    ensures Takes(After([]), FIRST) && Takes(After([FIRST]), SECOND_FRAME)
    ensures After([FIRST, SECOND_FRAME]).slot.Some? && After([FIRST, SECOND_FRAME]).slot.value.timed.Some?
    ensures !Takes(After([FIRST, SECOND_FRAME]), SECOND_FRAME)
    ensures Takes(After([FIRST, SECOND_FRAME, FIRST]), SECOND_FRAME)
  {
    FramesArePcm();
    assert [FIRST][..0] == [] && [FIRST, SECOND_FRAME][..1] == [FIRST];
    assert [FIRST, SECOND_FRAME, FIRST][..2] == [FIRST, SECOND_FRAME];
  }

  /**
   A run in which a record of a stale connection undoes the replay check of its successor. The bridge of
   reservation 1 has frame 1 admitted; the reservation is revoked and 2 installed; its own bridge commits
   frames 1 and 2; then the first bridge's commit of frame 1 arrives, and frame 2, refused as a replay
   before, is admissible again.
   */
  lemma StaleCommitReopensAFrame() returns (r: Run)
    ensures IsRun(r) && |r.actions| == 12
    ensures Issued(r.states[2], r.actions[2], r.times[2]) == Some(Token(1, 1)) && Takes(r.states[4], FIRST)
    ensures r.actions[4] == Revoke
    ensures Issued(r.states[7], r.actions[7], r.times[7]) == Some(Token(2, 1))
    ensures OpensEpoch(r.states[3], r.actions[3]) && OpensEpoch(r.states[8], r.actions[8])
    ensures Takes(r.states[9], FIRST) && r.actions[9] == CommitBy(Token(2, 1), FIRST)
    ensures Takes(r.states[10], SECOND_FRAME) && r.actions[10] == CommitBy(Token(2, 1), SECOND_FRAME)
    ensures r.actions[11] == CommitBy(Token(1, 1), FIRST)
    ensures !Takes(r.states[11], SECOND_FRAME) && Takes(r.states[12], SECOND_FRAME)
  {
    var opening := OpensTwice();
    RepeatReopens();
    assert Takes(opening.states[4], FIRST) by { FramesArePcm(); }
    var one := Commits(opening, [], Token(2, 1), FIRST);
    var two := Commits(one, [FIRST], Token(2, 1), SECOND_FRAME);
    r := Commits(two, [FIRST, SECOND_FRAME], Token(1, 1), FIRST);
  }

  lemma FramesArePcm()
    ensures ValidPcm(FIRST, FORMAT, 20) && ValidPcm(SECOND_FRAME, FORMAT, 20)
  {
  }
}
