/**
 What the restart scheduler is at any time, told by its history alone: in which phase it is, how far it has
 backed off, for when the next restart is scheduled, and which numbers the wordings get.
 */
module RestartHistories {
  import opened Wrappers
  import opened Histories
  import opened RecognitionRestarts

  // ---------------------------------------------------------------- the steps

  predicate Closes(s: Relay, a: Action) {
    a.Close? && s.e.open
  }

  /** The stream of an epoch ends and another is wanted. */
  predicate EndsRestartable(s: Relay, a: Action) {
    Closes(s, a) && a.restartable
  }

  /** The scheduled time has come. */
  predicate Begins(s: Relay, a: Action, now: nat) {
    a.Restart? && s.e.restartAt.Some? && s.e.restartAt.value <= now
  }

  predicate StartEnds(s: Relay, a: Action) {
    a.StartDone? && s.e.starting
  }

  predicate Opens(s: Relay, a: Action) {
    StartEnds(s, a) && a.ok
  }

  /** A wording the session forwards: a final one is numbered from one. */
  predicate Forwards(s: Relay, a: Action) {
    a.Forward? && s.e.open && a.segment <= 0xFFFF_FFFF_FFFF_FFFF && (a.wording == Final ==> 1 <= a.segment)
  }

  predicate Transcribes(s: Relay, a: Action) {
    Forwards(s, a) && a.wording == Final
  }

  predicate Fails(s: Relay, a: Action) {
    a.Fail? && s.e.open
  }

  /** A restart is scheduled: after the end of an epoch, or after a start that failed. */
  predicate Schedules(s: Relay, a: Action) {
    EndsRestartable(s, a) || (StartEnds(s, a) && !a.ok)
  }

  /** The end of an epoch that delivered a transcript. */
  predicate Recovers(s: Relay, a: Action) {
    EndsRestartable(s, a) && s.e.transcribed
  }

  // ---------------------------------------------------------------- phases

  ghost predicate PhaseMoves(s: Relay, a: Action, now: nat, next: Relay) {
    && next.e.open == (Opens(s, a) || (s.e.open && !Closes(s, a)))
    && next.e.starting == (Begins(s, a, now) || (s.e.starting && !StartEnds(s, a)))
    && next.e.transcribed == (Transcribes(s, a) || (s.e.transcribed && !Begins(s, a, now)))
    && next.e.reported == (Fails(s, a) || (s.e.reported && !EndsRestartable(s, a) && !Begins(s, a, now)))
    && next.begins == (if Begins(s, a, now) then s.begins + [now] else s.begins)
    && next.epoch == (if Opens(s, a) then s.epoch + 1 else s.epoch)
    && next.e.failures == (if Recovers(s, a) then 0 else if Begins(s, a, now) then s.e.failures + 1 else s.e.failures)
    && (!Schedules(s, a) ==> next.e.restartAt == if Begins(s, a, now) then None else s.e.restartAt)
  }

  lemma StepMoves(s: Relay, a: Action, now: nat)
    requires OnePhase(s.e)
    ensures PhaseMoves(s, a, now, Apply(s, a, now))
  {
  }

  lemma RunMoves(r: Run, i: nat)
    requires IsRun(r) && i < |r.actions|
    ensures PhaseMoves(r.states[i], r.actions[i], r.times[i], r.states[i + 1])
  {
    ReachableIsBackedOff(r, i);
    assert StepAt(r, i);
    StepMoves(r.states[i], r.actions[i], r.times[i]);
  }

  ghost function When(r: Run, does: (Relay, Action, nat) -> bool): nat -> bool {
    (i: nat) => i < |r.actions| && i < |r.times| && i < |r.states| && does(r.states[i], r.actions[i], r.times[i])
  }

  ghost function Where(r: Run, holds: Relay -> bool): nat -> bool {
    (i: nat) => i < |r.states| && holds(r.states[i])
  }

  ghost predicate MovesAt(r: Run, i: nat, holds: Relay -> bool, starts: (Relay, Action, nat) -> bool,
                          stops: (Relay, Action, nat) -> bool)
    requires i < |r.actions| == |r.times| && |r.states| == |r.actions| + 1
  {
    var s, a, now := r.states[i], r.actions[i], r.times[i];
    holds(r.states[i + 1]) <==> starts(s, a, now) || (holds(s) && !stops(s, a, now))
  }

  lemma HoldsSince(r: Run, n: nat, holds: Relay -> bool, starts: (Relay, Action, nat) -> bool,
                   stops: (Relay, Action, nat) -> bool)
    requires IsRun(r) && n < |r.states| && !holds(r.states[0])
    requires forall i :: 0 <= i < |r.actions| ==> MovesAt(r, i, holds, starts, stops)
    ensures holds(r.states[n]) <==> Since(When(r, starts), When(r, stops), n)
  {
    forall i: nat | i < n ensures LatchedAt(Where(r, holds), When(r, starts), When(r, stops), i) {
      assert MovesAt(r, i, holds, starts, stops);
    }
    Latched(Where(r, holds), When(r, starts), When(r, stops), n);
  }

  function IsClosed(): Relay -> bool { (s: Relay) => !s.e.open }

  function IsStarting(): Relay -> bool { (s: Relay) => s.e.starting }

  function HasTranscript(): Relay -> bool { (s: Relay) => s.e.transcribed }

  function HasReported(): Relay -> bool { (s: Relay) => s.e.reported }

  function Closing(): (Relay, Action, nat) -> bool { (s: Relay, a: Action, now: nat) => Closes(s, a) }

  function Opening(): (Relay, Action, nat) -> bool { (s: Relay, a: Action, now: nat) => Opens(s, a) }

  function Beginning(): (Relay, Action, nat) -> bool { (s: Relay, a: Action, now: nat) => Begins(s, a, now) }

  function EndingStart(): (Relay, Action, nat) -> bool { (s: Relay, a: Action, now: nat) => StartEnds(s, a) }

  function Transcribing(): (Relay, Action, nat) -> bool { (s: Relay, a: Action, now: nat) => Transcribes(s, a) }

  function Failing(): (Relay, Action, nat) -> bool { (s: Relay, a: Action, now: nat) => Fails(s, a) }

  function Settling(): (Relay, Action, nat) -> bool {
    (s: Relay, a: Action, now: nat) => EndsRestartable(s, a) || Begins(s, a, now)
  }

  /**
   The session receives but from the close of an epoch to the next start that succeeds; it is starting from the
   beginning of a restart to the end of that start; it has a transcript from the first final wording to the
   next restart; and a failure counts as reported until its epoch ends.
   */
  lemma PhasesAreHistory(r: Run, n: nat)
    requires IsRun(r) && n < |r.states|
    ensures !r.states[n].e.open <==> Since(When(r, Closing()), When(r, Opening()), n)
    ensures r.states[n].e.starting <==> Since(When(r, Beginning()), When(r, EndingStart()), n)
    ensures r.states[n].e.transcribed <==> Since(When(r, Transcribing()), When(r, Beginning()), n)
    ensures r.states[n].e.reported <==> Since(When(r, Failing()), When(r, Settling()), n)
  {
    forall i | 0 <= i < |r.actions|
      ensures MovesAt(r, i, IsClosed(), Closing(), Opening())
      ensures MovesAt(r, i, IsStarting(), Beginning(), EndingStart())
      ensures MovesAt(r, i, HasTranscript(), Transcribing(), Beginning())
      ensures MovesAt(r, i, HasReported(), Failing(), Settling())
    {
      ReachableIsBackedOff(r, i);
      RunMoves(r, i);
    }
    HoldsSince(r, n, IsClosed(), Closing(), Opening());
    HoldsSince(r, n, IsStarting(), Beginning(), EndingStart());
    HoldsSince(r, n, HasTranscript(), Transcribing(), Beginning());
    HoldsSince(r, n, HasReported(), Failing(), Settling());
  }

  // ---------------------------------------------------------------- the backoff

  /** The last step before `n` at which an epoch with a transcript ended, and zero before any. */
  ghost function LastRecovery(r: Run, n: nat): (m: nat)
    requires |r.states| == |r.actions| + 1 && n < |r.states|
    ensures m <= n
  {
    if n == 0 then 0
    else if Recovers(r.states[n - 1], r.actions[n - 1]) then n else LastRecovery(r, n - 1)
  }

  /** The restarts begun since the last epoch with a transcript ended. */
  ghost function Attempts(r: Run, n: nat): int
    requires |r.states| == |r.actions| + 1 && n < |r.states|
  {
    |r.states[n].begins| - |r.states[LastRecovery(r, n)].begins|
  }

  /** The backoff counts exactly these restarts: a transcript resets it, and nothing else does. */
  lemma {:induction false} BackoffIsHistory(r: Run, n: nat)
    requires IsRun(r) && n < |r.states|
    ensures r.states[n].e.failures == Attempts(r, n)
  {
    if n > 0 {
      BackoffIsHistory(r, n - 1);
      RunMoves(r, n - 1);
    }
  }

  /** A quarter second, doubled so many times, and eight seconds at most. */
  function Doubled(times: nat): nat {
    if times == 0 then 250
    else if 2 * Doubled(times - 1) > 8000 then 8000 else 2 * Doubled(times - 1)
  }

  lemma {:induction false} DelayIsDoubled(failures: nat)
    ensures RestartDelay(failures) == Doubled(failures)
  {
    if failures > 0 { DelayIsDoubled(failures - 1); }
  }

  function Later(a: nat, b: nat): nat {
    if a < b then b else a
  }

  /** When the sixth restart from the end leaves its five minutes. */
  function Allowed(begins: seq<nat>): nat {
    if |begins| < 6 then 0 else begins[|begins| - 6] + 300_000
  }

  lemma ScheduledAt(e: Epochs, begins: seq<nat>, now: nat)
    requires RecognitionRestarts.Past(begins, now) && Remembers(e.recent, begins, now)
    ensures Schedule(e, now).restartAt == Some(Later(now + RestartDelay(e.failures), Allowed(begins)))
  {
    PrunedRemembers(e.recent, begins, now);
    var kept := Pruned(e.recent, now);
    var first := |begins| - |kept|;
    if |kept| > 0 {
      assert kept[0] == begins[first];
      assert first + 6 < |begins| ==> SpacedAt(begins, first + 6);
    }
  }

  /**
   A restart is scheduled exactly when an epoch ends or a start fails, for the later of the backoff, doubled
   with every attempt since the last transcript, and the time at which five minutes hold fewer than six; it
   stays scheduled until it begins, and begins exactly when it is asked for at that time or later.
   */
  lemma ScheduledExactly(r: Run, i: nat)
    requires IsRun(r) && i < |r.actions|
    ensures
      var s, a, now, next := r.states[i], r.actions[i], r.times[i], r.states[i + 1];
      && 0 <= Attempts(r, i + 1)
      && next.e.restartAt ==
         (if Schedules(s, a) then Some(Later(now + Doubled(Attempts(r, i + 1)), Allowed(s.begins)))
          else if Begins(s, a, now) then None else s.e.restartAt)
      && next.begins == (if Begins(s, a, now) then s.begins + [now] else s.begins)
  {
    var s, a, now := r.states[i], r.actions[i], r.times[i];
    RunMoves(r, i);
    BackoffIsHistory(r, i + 1);
    assert StepAt(r, i);
    if Schedules(s, a) {
      ReachableIsLimited(r, i);
      LaterLimited(s, Clock(r, i), now);
      var e := if a.StartDone? then s.e.(starting := false)
               else if s.e.transcribed then s.e.(open := false, failures := 0) else s.e.(open := false);
      ScheduledAt(e, s.begins, now);
      DelayIsDoubled(e.failures);
    }
  }

  // ---------------------------------------------------------------- the numbers

  /** The highest number given in epochs before this one, or zero. */
  ghost predicate HighestBefore(emitted: seq<Emitted>, epoch: nat, highest: nat) {
    && (forall k :: 0 <= k < |emitted| && emitted[k].epoch < epoch ==> emitted[k].id <= highest)
    && (highest == 0 || exists k :: 0 <= k < |emitted| && emitted[k].epoch < epoch && emitted[k].id == highest)
  }

  /**
   Each wording forwarded gets the provider's number plus the highest one given in earlier epochs, up to the
   64-bit limit, under the number of its epoch; nothing else is forwarded.
   */
  lemma NumberedExactly(r: Run, i: nat)
    requires IsRun(r) && i < |r.actions|
    ensures
      var s, a, next := r.states[i], r.actions[i], r.states[i + 1];
      if Forwards(s, a) then
        && |next.emitted| == |s.emitted| + 1 && next.emitted[..|s.emitted|] == s.emitted
        && var x := next.emitted[|s.emitted|];
           && x.epoch == s.epoch && x.segment == a.segment && HighestBefore(s.emitted, s.epoch, x.offset)
           && x.id == if a.segment + x.offset > 0xFFFF_FFFF_FFFF_FFFF then 0xFFFF_FFFF_FFFF_FFFF
                      else a.segment + x.offset
      else next.emitted == s.emitted
  {
    var s, a := r.states[i], r.actions[i];
    assert StepAt(r, i);
    ReachableIsIdentified(r, i);
    if Forwards(s, a) {
      ShiftIsHighest(s);
    }
  }

  lemma ShiftIsHighest(s: Relay)
    requires Identified(s)
    ensures HighestBefore(s.emitted, s.epoch, s.e.segmentOffset)
  {
    forall k | 0 <= k < |s.emitted| && s.emitted[k].epoch < s.epoch ensures s.emitted[k].id <= s.e.segmentOffset {
      assert Below(s, s.emitted[k]);
    }
  }
}
