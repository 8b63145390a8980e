/**
 The recognition side of one voice session: fresh provider epochs are scheduled with a capped doubling
 backoff and a rolling-window limit, and provider segment numbers are shifted past those of earlier epochs.
 Times are milliseconds of the monotonic clock.
 */
module RecognitionRestarts {
  import opened Wrappers

  const RESTARTS_PER_WINDOW: nat := 6
  const RESTART_WINDOW: nat := 300_000

  function RestartDelay(failures: nat): nat {
    if failures == 0 then 250
    else if failures == 1 then 500
    else if failures == 2 then 1000
    else if failures == 3 then 2000
    else if failures == 4 then 4000
    else 8000
  }

  /** The delay starts at a quarter second, doubles with each failure, and stays at eight seconds. */
  lemma DelayDoublesToTheCap(failures: nat)
    ensures RestartDelay(0) == 250 && RestartDelay(failures) <= 8000
    ensures RestartDelay(failures + 1) == if RestartDelay(failures) < 8000 then 2 * RestartDelay(failures) else 8000
  {
  }

  datatype Epochs = Epochs(
    open: bool,
    starting: bool,
    transcribed: bool,
    reported: bool,
    segmentOffset: nat,
    lastSegment: nat,
    failures: nat,
    recent: seq<nat>,
    restartAt: Option<nat>)

  const FIRST: Epochs := Epochs(true, false, false, false, 0, 0, 0, [], None)

  /** What is left after dropping from the front every restart that has left the window. */
  function Pruned(recent: seq<nat>, now: nat): seq<nat> {
    if recent != [] && recent[0] + RESTART_WINDOW <= now then Pruned(recent[1..], now) else recent
  }

  function RestartTime(recent: seq<nat>, failures: nat, now: nat): nat {
    var at := now + RestartDelay(failures);
    if |recent| >= RESTARTS_PER_WINDOW && at < recent[0] + RESTART_WINDOW then recent[0] + RESTART_WINDOW else at
  }

  function Schedule(e: Epochs, now: nat): Epochs {
    var recent := Pruned(e.recent, now);
    e.(recent := recent, restartAt := Some(RestartTime(recent, e.failures, now)))
  }

  /** The stream closed; a restartable one is scheduled to begin again. */
  function End(e: Epochs, restartable: bool, now: nat): Epochs {
    var closed := e.(open := false);
    if !restartable then closed
    else Schedule(if closed.transcribed then closed.(failures := 0) else closed, now).(reported := false)
  }

  function Begin(e: Epochs, now: nat): Epochs {
    e.(restartAt := None, recent := e.recent + [now], failures := e.failures + 1, transcribed := false,
       reported := false, starting := true)
  }

  function Started(e: Epochs, ok: bool, now: nat): Epochs {
    var settled := e.(starting := false);
    if ok then settled.(open := true, segmentOffset := e.lastSegment) else Schedule(settled, now)
  }

  datatype Wording = Final | Hypothesis

  function SaturatingAdd(a: nat, b: nat): nat {
    if a + b > U64_MAX then U64_MAX else a + b
  }

  /** The session's number for a provider segment of the current epoch. */
  function Renumbered(e: Epochs, segment: nat): nat {
    if e.segmentOffset > 0 then SaturatingAdd(segment, e.segmentOffset) else segment
  }

  function Renumber(e: Epochs, wording: Wording, segment: nat): Epochs {
    var id := Renumbered(e, segment);
    e.(transcribed := e.transcribed || wording.Final?, lastSegment := if id > e.lastSegment then id else e.lastSegment)
  }

  // ---------------------------------------------------------------- runs

  /** One forwarded wording: its epoch, the provider's number, the shift of that epoch, and the number it got. */
  datatype Emitted = Emitted(epoch: nat, segment: nat, offset: nat, id: nat)

  /** The relay's state with what it has done so far: restart times and forwarded numbers. */
  datatype Relay = Relay(e: Epochs, epoch: nat, begins: seq<nat>, emitted: seq<Emitted>)

  datatype Action =
    | Forward(wording: Wording, segment: nat)
    | Fail
    | Close(restartable: bool)
    | Restart
    | StartDone(ok: bool)

  function Apply(r: Relay, a: Action, now: nat): Relay {
    match a
    case Forward(wording, segment) =>
      if !r.e.open || segment > U64_MAX || (wording.Final? && segment == 0) then r
      else r.(e := Renumber(r.e, wording, segment),
              emitted := r.emitted + [Emitted(r.epoch, segment, r.e.segmentOffset, Renumbered(r.e, segment))])
    case Fail => if r.e.open then r.(e := r.e.(reported := true)) else r
    case Close(restartable) => if r.e.open then r.(e := End(r.e, restartable, now)) else r
    case Restart =>
      if r.e.restartAt.None? || now < r.e.restartAt.value then r
      else r.(e := Begin(r.e, now), begins := r.begins + [now])
    case StartDone(ok) =>
      if !r.e.starting then r
      else r.(e := Started(r.e, ok, now), epoch := if ok then r.epoch + 1 else r.epoch)
  }

  datatype Run = Run(states: seq<Relay>, actions: seq<Action>, times: seq<nat>)

  ghost predicate StepAt(r: Run, i: nat)
    requires i < |r.actions| == |r.times| && |r.states| == |r.actions| + 1
  {
    r.states[i + 1] == Apply(r.states[i], r.actions[i], r.times[i])
  }

  ghost predicate IsRun(r: Run) {
    && |r.actions| == |r.times| && |r.states| == |r.actions| + 1
    && r.states[0] == Relay(FIRST, 0, [], [])
    && (forall i, j :: 0 <= i < j < |r.times| ==> r.times[i] <= r.times[j])
    && (forall i {:trigger StepAt(r, i)} :: 0 <= i < |r.actions| ==> StepAt(r, i))
  }

  // ---------------------------------------------------------------- the restart limit

  ghost predicate Sorted(s: seq<nat>) {
    forall i, j :: 0 <= i < j < |s| ==> s[i] <= s[j]
  }

  /** Every restart comes at least one window after the sixth before it. */
  ghost predicate Spaced(begins: seq<nat>) {
    forall i :: RESTARTS_PER_WINDOW <= i < |begins| ==> SpacedAt(begins, i)
  }

  ghost predicate SpacedAt(begins: seq<nat>, i: nat)
    requires RESTARTS_PER_WINDOW <= i < |begins|
  {
    begins[i - RESTARTS_PER_WINDOW] + RESTART_WINDOW <= begins[i]
  }

  /** The deque holds the latest restarts, and every restart it dropped has left the window. */
  ghost predicate Remembers(recent: seq<nat>, begins: seq<nat>, now: nat) {
    && |recent| <= |begins|
    && recent == begins[|begins| - |recent|..]
    && forall i :: 0 <= i < |begins| - |recent| ==> begins[i] + RESTART_WINDOW <= now
  }

  ghost predicate Due(restartAt: Option<nat>, begins: seq<nat>) {
    restartAt.Some? && |begins| >= RESTARTS_PER_WINDOW ==>
      begins[|begins| - RESTARTS_PER_WINDOW] + RESTART_WINDOW <= restartAt.value
  }

  ghost predicate Past(begins: seq<nat>, now: nat) {
    Sorted(begins) && Spaced(begins) && forall i :: 0 <= i < |begins| ==> begins[i] <= now
  }

  ghost predicate Limited(r: Relay, now: nat) {
    Past(r.begins, now) && Remembers(r.e.recent, r.begins, now) && Due(r.e.restartAt, r.begins)
  }

  lemma {:induction false} PrunedRemembers(recent: seq<nat>, begins: seq<nat>, now: nat)
    requires Remembers(recent, begins, now)
    ensures Remembers(Pruned(recent, now), begins, now)
    ensures Pruned(recent, now) == [] || now < Pruned(recent, now)[0] + RESTART_WINDOW
    decreases |recent|
  {
    if recent != [] && recent[0] + RESTART_WINDOW <= now {
      PrunedRemembers(recent[1..], begins, now);
    }
  }

  /**
   After pruning at most six restarts are remembered, and the time chosen respects both the backoff and the
   window.
   */
  lemma ScheduleLimited(e: Epochs, begins: seq<nat>, now: nat)
    requires Past(begins, now) && Remembers(e.recent, begins, now)
    ensures
      var s := Schedule(e, now);
      && Remembers(s.recent, begins, now) && |s.recent| <= RESTARTS_PER_WINDOW
      && now + RestartDelay(e.failures) <= s.restartAt.value <= now + RESTART_WINDOW
      && Due(s.restartAt, begins)
  {
    PrunedRemembers(e.recent, begins, now);
    var kept := Pruned(e.recent, now);
    var first := |begins| - |kept|;
    assert |kept| > 0 ==> kept[0] == begins[first];
    assert first + RESTARTS_PER_WINDOW < |begins| ==> SpacedAt(begins, first + RESTARTS_PER_WINDOW);
  }

  lemma LaterRemembers(recent: seq<nat>, begins: seq<nat>, before: nat, now: nat)
    requires Remembers(recent, begins, before) && before <= now
    ensures Remembers(recent, begins, now)
  {
  }

  lemma BeginPast(begins: seq<nat>, now: nat)
    requires Past(begins, now) && Due(Some(now), begins)
    ensures Past(begins + [now], now)
  {
    var grown := begins + [now];
    forall i | RESTARTS_PER_WINDOW <= i < |grown| ensures SpacedAt(grown, i) {
      if i < |begins| {
        assert SpacedAt(begins, i);
      }
    }
  }

  lemma BeginRemembers(recent: seq<nat>, begins: seq<nat>, now: nat)
    requires Remembers(recent, begins, now)
    ensures Remembers(recent + [now], begins + [now], now)
  {
    assert (begins + [now])[|begins| - |recent|..] == recent + [now];
  }

  lemma RestartLimited(r: Relay, now: nat)
    requires Limited(r, now)
    ensures Limited(Apply(r, Restart, now), now)
  {
    if r.e.restartAt.Some? && r.e.restartAt.value <= now {
      BeginPast(r.begins, now);
      BeginRemembers(r.e.recent, r.begins, now);
    }
  }

  lemma LaterLimited(r: Relay, before: nat, now: nat)
    requires Limited(r, before) && before <= now
    ensures Limited(r, now)
  {
    LaterRemembers(r.e.recent, r.begins, before, now);
  }

  lemma CloseLimited(r: Relay, restartable: bool, now: nat)
    requires Limited(r, now)
    ensures Limited(Apply(r, Close(restartable), now), now)
  {
    if r.e.open && restartable {
      ScheduleLimited(if r.e.transcribed then r.e.(open := false, failures := 0) else r.e.(open := false),
                      r.begins, now);
    }
  }

  lemma StartLimited(r: Relay, ok: bool, now: nat)
    requires Limited(r, now)
    ensures Limited(Apply(r, StartDone(ok), now), now)
  {
    if r.e.starting && !ok {
      ScheduleLimited(r.e.(starting := false), r.begins, now);
    }
  }

  lemma StepLimited(r: Relay, a: Action, before: nat, now: nat)
    requires Limited(r, before) && before <= now
    ensures Limited(Apply(r, a, now), now)
  {
    LaterLimited(r, before, now);
    match a
    case Close(restartable) => CloseLimited(r, restartable, now);
    case StartDone(ok) => StartLimited(r, ok, now);
    case Restart => RestartLimited(r, now);
    case _ =>
      assert Apply(r, a, now).begins == r.begins && Apply(r, a, now).e.recent == r.e.recent;
  }

  /** The time by which state `i` was reached. */
  function Clock(r: Run, i: nat): nat
    requires i <= |r.times|
  {
    if i == 0 then 0 else r.times[i - 1]
  }

  lemma {:induction false} ReachableIsLimited(r: Run, i: nat)
    requires IsRun(r) && i < |r.states|
    ensures Limited(r.states[i], Clock(r, i))
  {
    if i > 0 {
      ReachableIsLimited(r, i - 1);
      assert StepAt(r, i - 1);
      StepLimited(r.states[i - 1], r.actions[i - 1], Clock(r, i - 1), Clock(r, i));
    }
  }

  /** How many of the first `n` restarts fall in `[lo, hi)`. */
  function Within(begins: seq<nat>, n: nat, lo: nat, hi: nat): nat
    requires n <= |begins|
  {
    if n == 0 then 0 else Within(begins, n - 1, lo, hi) + if lo <= begins[n - 1] < hi then 1 else 0
  }

  lemma {:induction false} WithinSpan(begins: seq<nat>, n: nat, lo: nat, hi: nat, first: nat)
    requires n <= |begins| && first <= n && Sorted(begins)
    requires forall i :: 0 <= i < first ==> begins[i] < lo || hi <= begins[i]
    ensures Within(begins, n, lo, hi) <= n - first
  {
    if n > first {
      WithinSpan(begins, n - 1, lo, hi, first);
    } else if n > 0 {
      WithinSpan(begins, n - 1, lo, hi, n - 1);
    }
  }

  /** In any run, any window of five minutes, wherever it starts, holds at most six restarts. */
  lemma {:induction false} AtMostSixPerWindow(begins: seq<nat>, n: nat, lo: nat)
    requires n <= |begins| && Sorted(begins) && Spaced(begins)
    ensures Within(begins, n, lo, lo + RESTART_WINDOW) <= RESTARTS_PER_WINDOW
  {
    if n > 0 {
      if lo <= begins[n - 1] < lo + RESTART_WINDOW {
        var first := if n <= RESTARTS_PER_WINDOW then 0 else n - RESTARTS_PER_WINDOW;
        forall i | 0 <= i < first ensures begins[i] < lo {
          assert SpacedAt(begins, n - 1);
          assert i < n - 1 - RESTARTS_PER_WINDOW ==> begins[i] <= begins[n - 1 - RESTARTS_PER_WINDOW];
        }
        WithinSpan(begins, n, lo, lo + RESTART_WINDOW, first);
      } else {
        AtMostSixPerWindow(begins, n - 1, lo);
      }
    }
  }

  lemma RestartsAreLimited(r: Run, i: nat, lo: nat)
    requires IsRun(r) && i < |r.states|
    ensures Within(r.states[i].begins, |r.states[i].begins|, lo, lo + RESTART_WINDOW) <= RESTARTS_PER_WINDOW
    ensures Due(r.states[i].e.restartAt, r.states[i].begins)
  {
    ReachableIsLimited(r, i);
    AtMostSixPerWindow(r.states[i].begins, |r.states[i].begins|, lo);
  }

  predicate Ahead(e: Epochs, now: nat) {
    && e.restartAt.Some? && now + 250 <= e.restartAt.value <= now + RESTART_WINDOW
    && |e.recent| <= RESTARTS_PER_WINDOW
  }

  lemma ScheduleIsAhead(e: Epochs, begins: seq<nat>, now: nat)
    requires Past(begins, now) && Remembers(e.recent, begins, now)
    ensures Ahead(Schedule(e, now), now)
  {
    ScheduleLimited(e, begins, now);
  }

  lemma StepAhead(r: Relay, a: Action, now: nat)
    requires forall e: Epochs {:trigger Schedule(e, now)} :: e.recent == r.e.recent ==> Ahead(Schedule(e, now), now)
    requires r.e.restartAt.None? && Apply(r, a, now).e.restartAt.Some?
    ensures Ahead(Apply(r, a, now).e, now)
  {
  }

  /** Whenever a restart is scheduled, it is 250 ms to five minutes ahead and at most six restarts are remembered. */
  lemma ScheduledWithinBounds(r: Run, i: nat)
    requires IsRun(r) && i < |r.actions|
    requires r.states[i].e.restartAt.None? && r.states[i + 1].e.restartAt.Some?
    ensures Ahead(r.states[i + 1].e, r.times[i])
  {
    var s, now := r.states[i], r.times[i];
    ReachableIsLimited(r, i);
    LaterRemembers(s.e.recent, s.begins, Clock(r, i), now);
    forall e: Epochs {:trigger Schedule(e, now)} | e.recent == s.e.recent ensures Ahead(Schedule(e, now), now) {
      ScheduleIsAhead(e, s.begins, now);
    }
    assert StepAt(r, i);
    StepAhead(s, r.actions[i], now);
  }

  // ---------------------------------------------------------------- backoff

  /** At most one of: receiving, waiting for a scheduled restart, starting. */
  ghost predicate OnePhase(e: Epochs) {
    && !(e.open && e.restartAt.Some?)
    && !(e.open && e.starting)
    && !(e.starting && e.restartAt.Some?)
  }

  ghost predicate BackedOff(r: Relay) {
    OnePhase(r.e) && (r.begins != [] && r.e.restartAt.Some? ==>
      r.begins[|r.begins| - 1] + RestartDelay(r.e.failures) <= r.e.restartAt.value)
  }

  lemma BackedOffStep(r: Relay, a: Action, now: nat)
    requires BackedOff(r) && (r.begins != [] ==> r.begins[|r.begins| - 1] <= now)
    ensures BackedOff(Apply(r, a, now))
  {
  }

  lemma {:induction false} ReachableIsBackedOff(r: Run, i: nat)
    requires IsRun(r) && i < |r.states|
    ensures BackedOff(r.states[i])
  {
    if i > 0 {
      ReachableIsBackedOff(r, i - 1);
      ReachableIsLimited(r, i - 1);
      assert StepAt(r, i - 1);
      BackedOffStep(r.states[i - 1], r.actions[i - 1], r.times[i - 1]);
    }
  }

  /** A session whose epochs are restartable is always receiving, scheduled or starting: it never gives up. */
  lemma {:induction false} NeverGivesUp(r: Run, i: nat)
    requires IsRun(r) && i < |r.states|
    requires forall k :: 0 <= k < |r.actions| ==> r.actions[k] != Close(false)
    ensures r.states[i].e.open || r.states[i].e.restartAt.Some? || r.states[i].e.starting
  {
    if i > 0 {
      NeverGivesUp(r, i - 1);
      ReachableIsBackedOff(r, i - 1);
      assert StepAt(r, i - 1);
      assert r.actions[i - 1] != Close(false);
    }
  }

  /** No transcript was delivered by steps `i .. j`. */
  ghost predicate Silent(r: Run, i: nat, j: nat)
    requires i <= j <= |r.actions|
  {
    forall k :: i <= k < j ==> !(r.actions[k].Forward? && r.actions[k].wording.Final?)
  }

  /** The sum of `count` successive backoff delays from the given number of failures. */
  function Delays(failures: nat, count: nat): nat {
    if count == 0 then 0 else Delays(failures, count - 1) + RestartDelay(failures + count - 1)
  }

  /**
   While no transcript is delivered the failures count the restarts, and the restarts are at least the
   whole sum of the doubling, capped delays apart.
   */
  lemma {:induction false} SilenceBacksOff(r: Run, i: nat, j: nat)
    requires IsRun(r) && i <= j < |r.states| && Silent(r, i, j)
    requires !r.states[i].e.transcribed && r.states[i].begins != []
    ensures !r.states[j].e.transcribed
    ensures |r.states[i].begins| <= |r.states[j].begins|
    ensures r.states[j].e.failures == r.states[i].e.failures + |r.states[j].begins| - |r.states[i].begins|
    ensures r.states[j].begins[|r.states[j].begins| - 1] >=
            r.states[i].begins[|r.states[i].begins| - 1]
            + Delays(r.states[i].e.failures, |r.states[j].begins| - |r.states[i].begins|)
  {
    if i < j {
      SilenceBacksOff(r, i, j - 1);
      ReachableIsBackedOff(r, j - 1);
      assert StepAt(r, j - 1);
      assert !(r.actions[j - 1].Forward? && r.actions[j - 1].wording.Final?);
    }
  }

  // ---------------------------------------------------------------- segment numbers

  ghost predicate Numbered(x: Emitted) {
    x.id == SaturatingAdd(x.segment, x.offset) && x.segment <= U64_MAX
  }

  /** Earlier and later wordings: epochs never go back, and a later epoch is shifted past every earlier number. */
  ghost predicate Shifted(x: Emitted, y: Emitted) {
    && x.epoch <= y.epoch
    && (x.epoch == y.epoch ==> x.offset == y.offset)
    && (x.epoch < y.epoch ==> x.id <= y.offset)
  }

  /** The shift is not larger than needed: it is itself an earlier number. */
  ghost predicate Tight(emitted: seq<Emitted>, epoch: nat, offset: nat) {
    offset == 0 || exists k :: 0 <= k < |emitted| && emitted[k].epoch < epoch && emitted[k].id == offset
  }

  ghost predicate TightAt(emitted: seq<Emitted>, k: nat)
    requires k < |emitted|
  {
    Tight(emitted, emitted[k].epoch, emitted[k].offset)
  }

  ghost predicate Reached(emitted: seq<Emitted>, last: nat) {
    last == 0 || exists k :: 0 <= k < |emitted| && emitted[k].id == last
  }

  ghost predicate Below(r: Relay, x: Emitted) {
    Numbered(x) && Shifted(x, Emitted(r.epoch, 0, r.e.segmentOffset, 0)) && x.id <= r.e.lastSegment
  }

  ghost predicate Identified(r: Relay) {
    && r.e.segmentOffset <= r.e.lastSegment <= U64_MAX
    && (forall k :: 0 <= k < |r.emitted| ==> Below(r, r.emitted[k]))
    && (forall i, j :: 0 <= i < j < |r.emitted| ==> Shifted(r.emitted[i], r.emitted[j]))
    && (forall k {:trigger TightAt(r.emitted, k)} :: 0 <= k < |r.emitted| ==> TightAt(r.emitted, k))
    && Tight(r.emitted, r.epoch, r.e.segmentOffset)
    && Reached(r.emitted, r.e.lastSegment)
  }

  lemma TightGrows(emitted: seq<Emitted>, epoch: nat, offset: nat, x: Emitted)
    requires Tight(emitted, epoch, offset)
    ensures Tight(emitted + [x], epoch, offset)
  {
    if offset != 0 {
      var k :| 0 <= k < |emitted| && emitted[k].epoch < epoch && emitted[k].id == offset;
      assert (emitted + [x])[k] == emitted[k];
    }
  }

  lemma ReachedGrows(emitted: seq<Emitted>, last: nat, x: Emitted)
    requires Reached(emitted, last)
    ensures Reached(emitted + [x], if x.id > last then x.id else last)
  {
    if x.id > last {
      assert (emitted + [x])[|emitted|] == x;
    } else if last != 0 {
      var k :| 0 <= k < |emitted| && emitted[k].id == last;
      assert (emitted + [x])[k] == emitted[k];
    }
  }

  lemma ForwardIdentified(r: Relay, wording: Wording, segment: nat, now: nat)
    requires Identified(r)
    ensures Identified(Apply(r, Forward(wording, segment), now))
  {
    var next := Apply(r, Forward(wording, segment), now);
    if next != r {
      var x := Emitted(r.epoch, segment, r.e.segmentOffset, Renumbered(r.e, segment));
      assert next.emitted == r.emitted + [x];
      forall k | 0 <= k < |next.emitted| ensures Below(next, next.emitted[k]) {
        assert k < |r.emitted| ==> Below(r, r.emitted[k]);
      }
      forall i, j | 0 <= i < j < |next.emitted| ensures Shifted(next.emitted[i], next.emitted[j]) {
        if j == |r.emitted| { assert Below(r, r.emitted[i]); } else { assert Shifted(r.emitted[i], r.emitted[j]); }
      }
      forall k | 0 <= k < |next.emitted| ensures TightAt(next.emitted, k) {
        assert k < |r.emitted| ==> TightAt(r.emitted, k);
        TightGrows(r.emitted, next.emitted[k].epoch, next.emitted[k].offset, x);
      }
      TightGrows(r.emitted, r.epoch, r.e.segmentOffset, x);
      ReachedGrows(r.emitted, r.e.lastSegment, x);
    }
  }

  lemma StartIdentified(r: Relay, now: nat)
    requires Identified(r)
    ensures Identified(Apply(r, StartDone(true), now))
  {
    var next := Apply(r, StartDone(true), now);
    if next != r {
      forall k | 0 <= k < |r.emitted| ensures Below(next, r.emitted[k]) {
        assert Below(r, r.emitted[k]);
      }
      if r.e.lastSegment != 0 {
        var k :| 0 <= k < |r.emitted| && r.emitted[k].id == r.e.lastSegment;
        assert Below(r, r.emitted[k]);
      }
    }
  }

  lemma OtherIdentified(r: Relay, a: Action, now: nat)
    requires Identified(r) && !a.Forward? && a != StartDone(true)
    ensures Identified(Apply(r, a, now))
  {
    var next := Apply(r, a, now);
    assert next.emitted == r.emitted && next.epoch == r.epoch;
    assert next.e.segmentOffset == r.e.segmentOffset && next.e.lastSegment == r.e.lastSegment;
    forall k | 0 <= k < |r.emitted| ensures Below(next, r.emitted[k]) {
      assert Below(r, r.emitted[k]);
    }
  }

  lemma {:induction false} ReachableIsIdentified(r: Run, i: nat)
    requires IsRun(r) && i < |r.states|
    ensures Identified(r.states[i])
  {
    if i > 0 {
      ReachableIsIdentified(r, i - 1);
      assert StepAt(r, i - 1);
      var a := r.actions[i - 1];
      if a.Forward? {
        ForwardIdentified(r.states[i - 1], a.wording, a.segment, r.times[i - 1]);
      } else if a == StartDone(true) {
        StartIdentified(r.states[i - 1], r.times[i - 1]);
      } else {
        OtherIdentified(r.states[i - 1], a, r.times[i - 1]);
      }
    }
  }

  ghost predicate PastEarlierEpochs(emitted: seq<Emitted>, j: nat)
    requires j < |emitted|
  {
    forall i :: 0 <= i < |emitted| && emitted[i].epoch < emitted[j].epoch ==> emitted[i].id < emitted[j].id
  }

  ghost predicate FirstEpoch(emitted: seq<Emitted>, j: nat)
    requires j < |emitted|
  {
    forall i :: 0 <= i < |emitted| ==> emitted[j].epoch <= emitted[i].epoch
  }

  lemma HigherIffShifted(s: Relay, j: nat)
    requires Identified(s) && j < |s.emitted|
    ensures PastEarlierEpochs(s.emitted, j) <==>
              FirstEpoch(s.emitted, j) || (s.emitted[j].segment >= 1 && s.emitted[j].offset < U64_MAX)
  {
    var emitted, y := s.emitted, s.emitted[j];
    assert Below(s, y);
    forall i | 0 <= i < |emitted| && emitted[i].epoch < y.epoch ensures emitted[i].id <= y.offset {
      assert i < j || Shifted(emitted[j], emitted[i]);
      assert Shifted(emitted[i], y);
    }
    assert TightAt(emitted, j);
  }

  /**
   A number is greater than every number of earlier epochs if and only if there are none, or the
   provider numbered it at least one and the shift has not reached the 64-bit limit.
   */
  lemma LaterEpochsNumberHigher(r: Run, n: nat, j: nat)
    requires IsRun(r) && n < |r.states| && j < |r.states[n].emitted|
    ensures
      var emitted := r.states[n].emitted;
      PastEarlierEpochs(emitted, j) <==>
        FirstEpoch(emitted, j) || (emitted[j].segment >= 1 && emitted[j].offset < U64_MAX)
  {
    ReachableIsIdentified(r, n);
    HigherIffShifted(r.states[n], j);
  }

  /** The run with one more action. */
  function Extended(r: Run, a: Action, now: nat): Run
    requires |r.actions| == |r.times| && |r.states| == |r.actions| + 1
  {
    Run(r.states + [Apply(r.states[|r.actions|], a, now)], r.actions + [a], r.times + [now])
  }

  /** A run up to a state, with no step after `now`. */
  ghost predicate Ends(r: Run, s: Relay, now: nat) {
    IsRun(r) && r.states[|r.actions|] == s && forall i :: 0 <= i < |r.times| ==> r.times[i] <= now
  }

  lemma ExtendedIsRun(r: Run, s: Relay, before: nat, a: Action, now: nat)
    requires Ends(r, s, before) && before <= now
    ensures Ends(Extended(r, a, now), Apply(s, a, now), now)
  {
    var next := Extended(r, a, now);
    forall i | 0 <= i < |next.actions| ensures StepAt(next, i) {
      if i < |r.actions| { assert StepAt(r, i); }
    }
  }

  /** One wording, then a restart: the next epoch is shifted by the number of that wording. */
  lemma OneWordingThenRestart(segment: nat) returns (r: Run, s: Relay)
    requires 1 <= segment <= U64_MAX
    ensures Ends(r, s, 250) && s.e.open && s.e.segmentOffset == segment && s.epoch == 1
    ensures s.emitted == [Emitted(0, segment, 0, segment)]
  {
    r := Run([Relay(FIRST, 0, [], [])], [], []);
    s := Relay(FIRST, 0, [], []);
    ExtendedIsRun(r, s, 0, Forward(Final, segment), 0);
    r, s := Extended(r, Forward(Final, segment), 0), Apply(s, Forward(Final, segment), 0);
    ExtendedIsRun(r, s, 0, Close(true), 0);
    r, s := Extended(r, Close(true), 0), Apply(s, Close(true), 0);
    ExtendedIsRun(r, s, 0, Restart, 250);
    r, s := Extended(r, Restart, 250), Apply(s, Restart, 250);
    ExtendedIsRun(r, s, 250, StartDone(true), 250);
    r, s := Extended(r, StartDone(true), 250), Apply(s, StartDone(true), 250);
  }

  lemma AnotherWording(r: Run, s: Relay, wording: Wording, segment: nat) returns (more: Run)
    requires Ends(r, s, 250) && s.e.open && segment <= U64_MAX && (wording.Final? ==> segment >= 1)
    ensures IsRun(more) && |more.states| > 0
    ensures more.states[|more.states| - 1].emitted ==
            s.emitted + [Emitted(s.epoch, segment, s.e.segmentOffset, Renumbered(s.e, segment))]
  {
    ExtendedIsRun(r, s, 250, Forward(wording, segment), 250);
    more := Extended(r, Forward(wording, segment), 250);
  }

  /** A provider that numbers a hypothesis zero: a later epoch repeats the number of an earlier one. */
  lemma NumberZeroRepeats() returns (r: Run)
    ensures IsRun(r) && |r.states| > 0
    ensures r.states[|r.states| - 1].emitted == [Emitted(0, 1, 0, 1), Emitted(1, 0, 1, 1)]
  {
    var front, s := OneWordingThenRestart(1);
    r := AnotherWording(front, s, Hypothesis, 0);
  }

  /** A shift at the 64-bit limit: every number of the later epoch is the limit again. */
  lemma SaturatedShiftRepeats(segment: nat) returns (r: Run)
    requires 1 <= segment <= U64_MAX
    ensures IsRun(r) && |r.states| > 0
    ensures r.states[|r.states| - 1].emitted == [Emitted(0, U64_MAX, 0, U64_MAX), Emitted(1, segment, U64_MAX, U64_MAX)]
  {
    var front, s := OneWordingThenRestart(U64_MAX);
    r := AnotherWording(front, s, Final, segment);
  }

  /** Two wordings of one epoch were shifted alike. */
  lemma SameShift(s: Relay, i: nat, j: nat)
    requires Identified(s) && i < |s.emitted| && j < |s.emitted| && s.emitted[i].epoch == s.emitted[j].epoch
    ensures s.emitted[i].offset == s.emitted[j].offset
    ensures Numbered(s.emitted[i]) && Numbered(s.emitted[j])
  {
    assert Below(s, s.emitted[i]) && Below(s, s.emitted[j]);
    if i < j {
      assert Shifted(s.emitted[i], s.emitted[j]);
    } else if j < i {
      assert Shifted(s.emitted[j], s.emitted[i]);
    }
  }

  /** Within one epoch the provider's order is kept, strictly as long as the lower number does not saturate. */
  lemma EpochKeepsOrder(r: Run, n: nat, i: nat, j: nat)
    requires IsRun(r) && n < |r.states| && i < |r.states[n].emitted| && j < |r.states[n].emitted|
    requires r.states[n].emitted[i].epoch == r.states[n].emitted[j].epoch
    requires r.states[n].emitted[i].segment < r.states[n].emitted[j].segment
    ensures
      var x, y := r.states[n].emitted[i], r.states[n].emitted[j];
      && x.id <= y.id
      && (x.id < y.id <==> x.segment + x.offset < U64_MAX)
  {
    ReachableIsIdentified(r, n);
    SameShift(r.states[n], i, j);
  }

  // ---------------------------------------------------------------- the scheduler

  /** The scheduler's own record, updated in place. */
  class RecognitionEpochs {
    var open: bool
    var starting: bool
    var transcribed: bool
    var reported: bool
    var segmentOffset: nat
    var lastSegment: nat
    var consecutiveFailures: nat
    var recentRestarts: seq<nat>
    var restartAt: Option<nat>
    /** Everything that has happened so far, and the time of the last of it. */
    ghost var run: Run
    ghost var clock: nat

    ghost function Value(): Epochs
      reads this
    {
      Epochs(open, starting, transcribed, reported, segmentOffset, lastSegment, consecutiveFailures, recentRestarts,
             restartAt)
    }

    /** The scheduler is where its history has led it: what holds over every run holds of this object. */
    ghost predicate Valid()
      reads this
    {
      && |run.states| == |run.actions| + 1
      && Ends(run, run.states[|run.actions|], clock) && run.states[|run.actions|].e == Value()
    }

    /** Notes the step that is about to be performed. */
    ghost method Note(a: Action, now: nat)
      requires Valid() && clock <= now
      modifies this`run, this`clock
      ensures run == Extended(old(run), a, now) && clock == now
      ensures Ends(run, Apply(old(run).states[|old(run).actions|], a, now), now)
    {
      ExtendedIsRun(run, run.states[|run.actions|], clock, a, now);
      run, clock := Extended(run, a, now), now;
    }

    constructor ()
      ensures Valid() && Value() == FIRST && clock == 0
    {
      open, starting, transcribed, reported := true, false, false, false;
      segmentOffset, lastSegment, consecutiveFailures := 0, 0, 0;
      recentRestarts, restartAt := [], None;
      run, clock := Run([Relay(FIRST, 0, [], [])], [], []), 0;
    }

    method ScheduleNext(now: nat)
      modifies this`recentRestarts, this`restartAt
      ensures Value() == Schedule(old(Value()), now)
    {
      while |recentRestarts| > 0 && recentRestarts[0] + RESTART_WINDOW <= now
        invariant Pruned(recentRestarts, now) == Pruned(old(recentRestarts), now)
        decreases |recentRestarts|
      {
        recentRestarts := recentRestarts[1..];
      }
      var at := now + RestartDelay(consecutiveFailures);
      if |recentRestarts| >= RESTARTS_PER_WINDOW && at < recentRestarts[0] + RESTART_WINDOW {
        at := recentRestarts[0] + RESTART_WINDOW;
      }
      restartAt := Some(at);
    }

    /** The current epoch's stream has closed. */
    method Ended(restartable: bool, now: nat) returns (report: bool)
      requires Valid() && open && clock <= now
      modifies this
      ensures Valid() && run == Extended(old(run), Close(restartable), now)
      ensures report == (restartable && !old(reported))
    {
      Note(Close(restartable), now);
      open := false;
      if !restartable { return false; }
      if transcribed { consecutiveFailures := 0; }
      ScheduleNext(now);
      report := !reported;
      reported := false;
    }

    /** The current epoch's stream carried a failure: its end will not be reported again. */
    method ReportFailure(now: nat)
      requires Valid() && open && clock <= now
      modifies this`reported, this`run, this`clock
      ensures Valid() && run == Extended(old(run), Fail, now) && reported
    {
      Note(Fail, now);
      reported := true;
    }

    /** The scheduled time has come. */
    method BeginRestart(now: nat)
      requires Valid() && restartAt.Some? && restartAt.value <= now && clock <= now
      modifies this
      ensures Valid() && run == Extended(old(run), Restart, now)
      ensures
        var begins := run.states[|run.actions|].begins;
        |begins| > 0 && begins[|begins| - 1] == now && Spaced(begins)
    {
      Note(Restart, now);
      restartAt := None;
      recentRestarts := recentRestarts + [now];
      consecutiveFailures := consecutiveFailures + 1;
      transcribed, reported, starting := false, false, true;
      ReachableIsLimited(run, |run.actions|);
    }

    /** The provider connection was made, or not. */
    method StartFinished(ok: bool, now: nat)
      requires Valid() && starting && clock <= now
      modifies this
      ensures Valid() && run == Extended(old(run), StartDone(ok), now)
    {
      Note(StartDone(ok), now);
      starting := false;
      if ok {
        open := true;
        segmentOffset := lastSegment;
      } else {
        ScheduleNext(now);
      }
    }

    method RenumberSegment(wording: Wording, segment: nat, now: nat) returns (id: nat)
      requires Valid() && open && segment <= U64_MAX && (wording.Final? ==> segment >= 1) && clock <= now
      modifies this`transcribed, this`lastSegment, this`run, this`clock
      ensures Valid() && run == Extended(old(run), Forward(wording, segment), now)
      ensures
        var emitted := run.states[|run.actions|].emitted;
        |emitted| > 0 && emitted[|emitted| - 1].segment == segment && emitted[|emitted| - 1].id == id
    {
      Note(Forward(wording, segment), now);
      id := segment;
      if segmentOffset > 0 {
        id := SaturatingAdd(segment, segmentOffset);
      }
      if wording.Final? { transcribed := true; }
      if id > lastSegment { lastSegment := id; }
    }
  }
}
