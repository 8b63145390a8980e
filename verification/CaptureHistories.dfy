/**
 Exactly which records of a timed capture are taken, in any run of one reservation, and what its watermarks
 are at any time, told by the records taken before.
 */
module CaptureHistories {
  import opened Wrappers
  import opened Histories
  import opened CaptureTiming
  import opened MediaLeases
  import opened CaptureRuns

  // ---------------------------------------------------------------- the records

  /** The connection has a metadata record, or a frame, admitted to its budget and looks at it. */
  predicate Reads(c: Capture, metadata: bool) {
    Receiving(c, Admitted(metadata)) && c.lease.timed.Some?
  }

  /**
   The capture epoch is taken: it is proper and of this bridge, its clock domain is the current one or was
   never used among fewer than 256, and within its domain its number rises, or is repeated by the first record
   of a connection.
   */
  predicate TakesEpoch(c: Capture, a: Action) {
    && a.Epoch? && Reads(c, true) && ValidEpoch(a.epoch)
    && var w, e := c.lease.timed.value, a.epoch;
       && e.bridge == w.bridge
       && (w.domain == Some(e.domain) || (e.domain !in w.domains && |w.domains| < 256))
       && (w.epoch.Some? && w.epoch.value.domain == e.domain ==>
             w.epoch.value.epoch < e.epoch || (w.epoch.value.epoch == e.epoch && !c.task.started))
  }

  /** The clock pair is taken: it is of the current domain, and later than the last one in every respect. */
  predicate TakesPair(c: Capture, a: Action) {
    && a.Pair? && Reads(c, true) && c.task.started && ValidPair(a.pair)
    && var w, p := c.lease.timed.value, a.pair;
       && w.epoch.Some? && w.epoch.value.domain == p.domain && (w.pair.Some? ==> Rises(w.pair.value, p))
  }

  predicate Rises(p: ClockPair, q: ClockPair) {
    && p.sequence < q.sequence && p.wallEpoch <= q.wallEpoch
    && p.hostBefore + p.hostAfter < q.hostBefore + q.hostAfter
  }

  predicate TakesGap(c: Capture, a: Action) {
    && a.Gap? && Reads(c, true) && c.task.started && !a.alignmentLimit
    && c.lease.timed.value.epoch.Some? && c.lease.timed.value.epoch.value.epoch == a.gapEpoch
  }

  /** The frame follows everything committed in the current epoch, and is the configured PCM. */
  ghost predicate TakesFrame(c: Capture, a: Action, config: Config) {
    && a.Frame? && Reads(c, false) && c.task.started && ValidPcm(a.frame, a.format, a.length)
    && config.format == Some(a.format)
    && var w, p := c.lease.timed.value, a.frame;
       && w.epoch.Some? && p.epoch == w.epoch.value.epoch
       && (match LastFrame(c.log, w.epoch.value)
           case None => 0 < p.sequence
           case Some((sequence, end)) => sequence < p.sequence && end <= p.outputStart)
  }

  /** The frame does not join on to the last one committed in the current epoch. */
  ghost predicate Gaps(c: Capture, a: Action)
    requires a.Frame? && c.lease.timed.Some? && c.lease.timed.value.epoch.Some?
  {
    match LastFrame(c.log, c.lease.timed.value.epoch.value)
    case None => false
    case Some((sequence, end)) => a.frame.sequence != sequence + 1 || a.frame.outputStart != end
  }

  // ---------------------------------------------------------------- exactly which records are taken

  /** The connection goes on, in the phase and with the start given, or has ended. */
  predicate GoesOn(c: Capture, next: Capture, taken: bool, started: bool, phase: Phase)
    requires c.task.Online?
  {
    next.task == Online(c.task.token, if taken then started else c.task.started, if taken then phase else Ended)
  }

  /** A capture epoch goes on to the next record if and only if it is taken, and ends the connection otherwise. */
  lemma EpochExactly(r: Run, config: Config, i: nat)
    requires IsRun(r, config) && i < |r.actions| && r.actions[i].Epoch? && Receiving(r.states[i], Admitted(true))
    ensures GoesOn(r.states[i], r.states[i + 1], TakesEpoch(r.states[i], r.actions[i]), true, Idle)
  {
    assert StepAt(r, config, i);
    ReachableIsSound(r, config, i);
  }

  /** The same of a clock pair and of a discontinuity. */
  lemma PairExactly(r: Run, config: Config, i: nat)
    requires IsRun(r, config) && i < |r.actions| && Receiving(r.states[i], Admitted(true))
    ensures r.actions[i].Pair? ==>
              GoesOn(r.states[i], r.states[i + 1], TakesPair(r.states[i], r.actions[i]), true, Idle)
    ensures r.actions[i].Gap? ==>
              GoesOn(r.states[i], r.states[i + 1], TakesGap(r.states[i], r.actions[i]), true, Idle)
  {
    assert StepAt(r, config, i);
  }

  /** A frame is held, with the verdict whether it leaves a hole, if and only if it is taken. */
  lemma FrameExactly(r: Run, config: Config, i: nat)
    requires IsRun(r, config) && i < |r.actions| && r.actions[i].Frame? && Receiving(r.states[i], Admitted(false))
    ensures
      var c, a, taken := r.states[i], r.actions[i], TakesFrame(r.states[i], r.actions[i], config);
      GoesOn(c, r.states[i + 1], taken, true, Validated(a.frame, taken && Gaps(c, a)))
  {
    var c, a := r.states[i], r.actions[i];
    assert StepAt(r, config, i);
    ReachableIsSound(r, config, i);
    if c.lease.timed.Some? && c.lease.timed.value.epoch.Some? {
      LastFrameIsWatermark(c.lease.timed.value, c.log);
    }
  }

  /** What a frame leaves in the books. */
  predicate Books(c: Commit, w: Watermarks, p: FrameProvenance, hole: bool) {
    && w.epoch.Some? && c.domain == w.epoch.value.domain && c.epoch == w.epoch.value.epoch
    && c.sequence == p.sequence && c.start == p.outputStart && c.end == p.outputStart + p.sampleCount && c.hole == hole
  }

  predicate OneMore(before: seq<Commit>, after: seq<Commit>) {
    |after| == |before| + 1 && after[..|before|] == before
  }

  /** A frame is recorded exactly when the checked one is delivered. */
  lemma RecordedExactly(r: Run, config: Config, i: nat)
    requires IsRun(r, config) && i < |r.actions|
    ensures
      var c, a, next := r.states[i], r.actions[i], r.states[i + 1];
      if a == Deliver(true) && c.task.Online? && c.task.phase.Validated? then
        && c.lease.timed.Some? && OneMore(c.recorded, next.recorded)
        && Books(next.recorded[|c.recorded|], c.lease.timed.value, c.task.phase.frame, c.task.phase.hole)
        && next.task == Online(c.task.token, c.task.started, Delivered(c.task.phase.frame, c.task.phase.hole))
      else next.recorded == c.recorded
  {
    assert StepAt(r, config, i);
    ReachableIsSound(r, config, i);
  }

  /** And committed exactly when the delivered one is; the connection then waits for its next record. */
  lemma CommittedExactly(r: Run, config: Config, i: nat)
    requires IsRun(r, config) && i < |r.actions|
    ensures
      var c, a, next := r.states[i], r.actions[i], r.states[i + 1];
      if a == CommitLast && c.task.Online? && c.task.phase.Delivered? then
        && c.lease.timed.Some? && OneMore(c.log, next.log)
        && Books(next.log[|c.log|], c.lease.timed.value, c.task.phase.frame, c.task.phase.hole)
        && next.task == Online(c.task.token, c.task.started, Idle)
      else next.log == c.log
  {
    assert StepAt(r, config, i);
    ReachableIsSound(r, config, i);
  }

  // ---------------------------------------------------------------- the connection

  /** A connection is admitted while there is none. */
  predicate Joins(c: Capture, a: Action, now: nat) {
    && a.Connect? && a.credential == c.lease.credential && a.version == c.lease.version
    && a.bridge == (if c.lease.timed.Some? then Some(c.lease.timed.value.bridge) else None)
    && now <= c.lease.expiresAt && now <= c.lease.reconnectDeadline
    && c.task.Offline? && !c.lease.finished && c.lease.nextConnection < 0xFFFF_FFFF_FFFF_FFFF
  }

  /** The finish is taken: the connection has started, and the boundary is where the books end. */
  ghost predicate TakesFinish(c: Capture, a: Action) {
    && a.Finish? && Receiving(c, Idle) && c.task.started
    && c.lease.version.DrainableTimed? && !c.lease.finished && c.lease.timed.Some?
    && var w, b := c.lease.timed.value, a.boundary;
       && w.epoch.Some? && b.epoch == w.epoch.value.epoch && w.pair.Some? && b.pair == w.pair.value.sequence
       && b.frame == LastFrame(c.log, w.epoch.value)
  }

  /** The connection is gone, its task with it. */
  predicate Parts(c: Capture, a: Action) {
    && c.task.Online?
    && ((a.Close? && !c.task.phase.Delivered?) || (a.ClosePlanned? && c.task.phase.Closing?) || a.Abort?)
  }

  predicate RecordStep(a: Action) {
    a.Epoch? || a.Pair? || a.Gap? || a.Frame? || a.Deliver? || a.CommitLast?
  }

  /** A finish goes on to the planned close if and only if it is taken, and ends the connection otherwise. */
  lemma FinishExactly(r: Run, config: Config, i: nat)
    requires IsRun(r, config) && i < |r.actions| && r.actions[i].Finish? && Receiving(r.states[i], Idle)
    ensures GoesOn(r.states[i], r.states[i + 1], TakesFinish(r.states[i], r.actions[i]), true, Closing)
    ensures r.states[i + 1].lease.finished <==> r.states[i].lease.finished || TakesFinish(r.states[i], r.actions[i])
  {
    var c := r.states[i];
    assert StepAt(r, config, i);
    ReachableIsSound(r, config, i);
    if c.lease.timed.Some? && c.lease.timed.value.epoch.Some? {
      LastFrameIsWatermark(c.lease.timed.value, c.log);
    }
  }

  /** A record asks for its place: it goes on with it or ends the connection, which it does when it can have none. */
  lemma RateExactly(r: Run, config: Config, i: nat)
    requires IsRun(r, config) && i < |r.actions| && r.actions[i].Rate? && Receiving(r.states[i], Idle)
    ensures
      var c, next, metadata := r.states[i], r.states[i + 1], r.actions[i].metadata;
      && GoesOn(c, next, Receiving(next, Admitted(metadata)), c.task.started, Admitted(metadata))
      && (c.lease.finished || (metadata && c.lease.timed.None?) ==> !Receiving(next, Admitted(metadata)))
  {
    assert StepAt(r, config, i);
  }

  /** Apart from its records, a task moves exactly when a connection is admitted, closes or is aborted. */
  lemma ConnectionExactly(r: Run, config: Config, i: nat)
    requires IsRun(r, config) && i < |r.actions| && !RecordStep(r.actions[i])
    requires (r.actions[i].Rate? || r.actions[i].Finish?) ==> !Receiving(r.states[i], Idle)
    ensures
      var c, a, next := r.states[i], r.actions[i], r.states[i + 1];
      next.task == if Joins(c, a, r.times[i]) then Online(Token(c.lease.epoch, c.lease.nextConnection), false, Idle)
                   else if Parts(c, a) then (if a.Abort? then Aborted else Offline)
                   else c.task
  {
    assert StepAt(r, config, i);
    ReachableIsSound(r, config, i);
  }

  function HasStarted(): Capture -> bool { (c: Capture) => c.task.Online? && c.task.started }

  function Parting(): (Capture, Action) -> bool { (c: Capture, a: Action) => Parts(c, a) }

  ghost predicate StartMoves(c: Capture, a: Action, next: Capture) {
    next.task.Online? && next.task.started <==> TakesEpoch(c, a) || (c.task.Online? && c.task.started && !Parts(c, a))
  }

  lemma RecordKeepsStart(c: Capture, a: Action, now: nat, config: Config)
    requires Sound(c) && RecordStep(a)
    ensures StartMoves(c, a, Apply(c, a, now, config))
  {
  }

  lemma LinkKeepsStart(c: Capture, a: Action, now: nat, config: Config)
    requires Sound(c) && !RecordStep(a)
    ensures StartMoves(c, a, Apply(c, a, now, config))
  {
  }

  /** A connection has started exactly from the first capture epoch that it takes until it is gone. */
  lemma StartedIsHistory(r: Run, config: Config, n: nat)
    requires IsRun(r, config) && n < |r.states|
    ensures r.states[n].task.Online? && r.states[n].task.started <==>
              Since(When(r, TakingAnyEpoch()), When(r, Parting()), n)
  {
    forall i | 0 <= i < |r.actions| ensures MovesAt(r, i, HasStarted(), TakingAnyEpoch(), Parting()) {
      ReachableIsSound(r, config, i);
      assert StepAt(r, config, i);
      if RecordStep(r.actions[i]) {
        RecordKeepsStart(r.states[i], r.actions[i], r.times[i], config);
      } else {
        LinkKeepsStart(r.states[i], r.actions[i], r.times[i], config);
      }
    }
    HasSince(r, config, n, HasStarted(), TakingAnyEpoch(), Parting());
  }

  // ---------------------------------------------------------------- what the watermarks are

  ghost predicate MarksMove(c: Capture, a: Action, next: Capture) {
    && (next.lease.timed.Some? <==> c.lease.timed.Some?)
    && (c.lease.timed.Some? && next.lease.timed.Some? ==>
          var w, v := c.lease.timed.value, next.lease.timed.value;
          && v.bridge == w.bridge
          && v.epoch == (if TakesEpoch(c, a) then Some(a.epoch) else w.epoch)
          && v.domains == (if TakesEpoch(c, a) then w.domains + {a.epoch.domain} else w.domains)
          && v.pair == (if TakesPair(c, a) then Some(a.pair) else if LeavesDomain(c, a) then None else w.pair))
  }

  /** The capture epoch moves on to another clock domain. */
  predicate LeavesDomain(c: Capture, a: Action) {
    TakesEpoch(c, a) && c.lease.timed.value.epoch.Some? && c.lease.timed.value.epoch.value.domain != a.epoch.domain
  }

  lemma EpochMoves(c: Capture, a: Action, now: nat, config: Config)
    requires Sound(c) && a.Epoch?
    ensures MarksMove(c, a, Apply(c, a, now, config))
  {
    if c.lease.timed.Some? {
      KnownDomain(c.lease.timed.value, a.epoch.domain);
    }
  }

  lemma RecordMoves(c: Capture, a: Action, now: nat, config: Config)
    requires Sound(c) && (a.Pair? || a.Gap? || a.Frame? || a.Rate?)
    ensures MarksMove(c, a, Apply(c, a, now, config))
  {
  }

  lemma KnownDomain(w: Watermarks, domain: bytes)
    requires Consistent(w)
    ensures w.domain == Some(domain) ==> w.domains + {domain} == w.domains
  {
  }

  lemma OtherMoves(c: Capture, a: Action, now: nat, config: Config)
    requires Sound(c) && !(a.Epoch? || a.Pair? || a.Gap? || a.Frame? || a.Rate?)
    ensures MarksMove(c, a, Apply(c, a, now, config))
  {
  }

  lemma RunMoves(r: Run, config: Config, i: nat)
    requires IsRun(r, config) && i < |r.actions|
    ensures MarksMove(r.states[i], r.actions[i], r.states[i + 1])
  {
    var c, a := r.states[i], r.actions[i];
    ReachableIsSound(r, config, i);
    assert StepAt(r, config, i);
    if a.Epoch? {
      EpochMoves(c, a, r.times[i], config);
    } else if a.Pair? || a.Gap? || a.Frame? || a.Rate? {
      RecordMoves(c, a, r.times[i], config);
    } else {
      OtherMoves(c, a, r.times[i], config);
    }
  }

  ghost function When(r: Run, does: (Capture, Action) -> bool): nat -> bool {
    (i: nat) => i < |r.actions| && i < |r.states| && does(r.states[i], r.actions[i])
  }

  ghost function Where(r: Run, has: Capture -> bool): nat -> bool {
    (i: nat) => i < |r.states| && has(r.states[i])
  }

  ghost predicate MovesAt(r: Run, i: nat, has: Capture -> bool, starts: (Capture, Action) -> bool,
                          stops: (Capture, Action) -> bool)
    requires i < |r.actions| && |r.states| == |r.actions| + 1
  {
    has(r.states[i + 1]) <==>
    starts(r.states[i], r.actions[i]) || (has(r.states[i]) && !stops(r.states[i], r.actions[i]))
  }

  lemma HasSince(r: Run, config: Config, n: nat, has: Capture -> bool, starts: (Capture, Action) -> bool,
                 stops: (Capture, Action) -> bool)
    requires IsRun(r, config) && n < |r.states| && !has(r.states[0])
    requires forall i :: 0 <= i < |r.actions| ==> MovesAt(r, i, has, starts, stops)
    ensures has(r.states[n]) <==> Since(When(r, starts), When(r, stops), n)
  {
    forall i: nat | i < n ensures LatchedAt(Where(r, has), When(r, starts), When(r, stops), i) {
      assert MovesAt(r, i, has, starts, stops);
    }
    Latched(Where(r, has), When(r, starts), When(r, stops), n);
  }

  function InEpoch(e: CaptureEpoch): Capture -> bool {
    (c: Capture) => c.lease.timed.Some? && c.lease.timed.value.epoch == Some(e)
  }

  function TakingEpoch(e: CaptureEpoch): (Capture, Action) -> bool {
    (c: Capture, a: Action) => TakesEpoch(c, a) && a.epoch == e
  }

  function TakingAnyEpoch(): (Capture, Action) -> bool { (c: Capture, a: Action) => TakesEpoch(c, a) }

  function Knows(domain: bytes): Capture -> bool {
    (c: Capture) => c.lease.timed.Some? && domain in c.lease.timed.value.domains
  }

  function TakingDomain(domain: bytes): (Capture, Action) -> bool {
    (c: Capture, a: Action) => TakesEpoch(c, a) && a.epoch.domain == domain
  }

  function Nothing(): (Capture, Action) -> bool { (c: Capture, a: Action) => false }

  function Paired(p: ClockPair): Capture -> bool {
    (c: Capture) => c.lease.timed.Some? && c.lease.timed.value.pair == Some(p)
  }

  function TakingPair(p: ClockPair): (Capture, Action) -> bool {
    (c: Capture, a: Action) => TakesPair(c, a) && a.pair == p
  }

  function Superseding(): (Capture, Action) -> bool {
    (c: Capture, a: Action) => TakesPair(c, a) || LeavesDomain(c, a)
  }

  lemma FreshMarks(r: Run, config: Config)
    requires IsRun(r, config)
    ensures r.states[0].lease.timed.Some? ==>
              var w := r.states[0].lease.timed.value; w.epoch.None? && w.domains == {} && w.pair.None?
  {
  }

  /**
   The current capture epoch is the last one taken, the domains in use are those of all that were taken, and
   the current clock pair is the last one taken since the last change of domain.
   */
  lemma MarksAreHistory(r: Run, config: Config, n: nat, e: CaptureEpoch, domain: bytes, p: ClockPair)
    requires IsRun(r, config) && n < |r.states|
    ensures r.states[n].lease.timed.Some? && r.states[n].lease.timed.value.epoch == Some(e) <==>
              Since(When(r, TakingEpoch(e)), When(r, TakingAnyEpoch()), n)
    ensures r.states[n].lease.timed.Some? && domain in r.states[n].lease.timed.value.domains <==>
              Since(When(r, TakingDomain(domain)), When(r, Nothing()), n)
    ensures r.states[n].lease.timed.Some? && r.states[n].lease.timed.value.pair == Some(p) <==>
              Since(When(r, TakingPair(p)), When(r, Superseding()), n)
  {
    FreshMarks(r, config);
    forall i | 0 <= i < |r.actions|
      ensures MovesAt(r, i, InEpoch(e), TakingEpoch(e), TakingAnyEpoch())
      ensures MovesAt(r, i, Knows(domain), TakingDomain(domain), Nothing())
      ensures MovesAt(r, i, Paired(p), TakingPair(p), Superseding())
    {
      RunMoves(r, config, i);
    }
    HasSince(r, config, n, InEpoch(e), TakingEpoch(e), TakingAnyEpoch());
    HasSince(r, config, n, Knows(domain), TakingDomain(domain), Nothing());
    HasSince(r, config, n, Paired(p), TakingPair(p), Superseding());
  }

  // ---------------------------------------------------------------- clock pairs

  /** The pair is the current one, an earlier one of the current domain, or its domain is retired. */
  ghost predicate Outgrown(c: Capture, p: ClockPair) {
    && c.lease.timed.Some? && p.domain in c.lease.timed.value.domains && c.lease.timed.value.epoch.Some?
    && (c.lease.timed.value.epoch.value.domain == p.domain ==>
          c.lease.timed.value.pair.Some?
          && (c.lease.timed.value.pair.value == p || Rises(p, c.lease.timed.value.pair.value)))
  }

  lemma OutgrownStep(c: Capture, a: Action, next: Capture, p: ClockPair)
    requires Sound(c) && Outgrown(c, p) && MarksMove(c, a, next)
    ensures Outgrown(next, p)
    ensures TakesPair(c, a) && a.pair.domain == p.domain ==> Rises(p, a.pair)
  {
  }

  lemma {:induction false} StaysOutgrown(r: Run, config: Config, i: nat, j: nat, p: ClockPair)
    requires IsRun(r, config) && i <= j < |r.states| && Outgrown(r.states[i], p)
    ensures Outgrown(r.states[j], p)
  {
    if i < j {
      StaysOutgrown(r, config, i, j - 1, p);
      ReachableIsSound(r, config, j - 1);
      RunMoves(r, config, j - 1);
      OutgrownStep(r.states[j - 1], r.actions[j - 1], r.states[j], p);
    }
  }

  /**
   Over any run, through every reconnect and epoch, the clock pairs taken in one domain rise: each has a higher
   sequence and a later midpoint than those before, and a wall clock epoch that is not earlier.
   */
  lemma PairsRise(r: Run, config: Config, i: nat, j: nat)
    requires IsRun(r, config) && i < j < |r.actions|
    requires TakesPair(r.states[i], r.actions[i]) && TakesPair(r.states[j], r.actions[j])
    requires r.actions[i].pair.domain == r.actions[j].pair.domain
    ensures r.actions[i].pair.sequence < r.actions[j].pair.sequence
    ensures r.actions[i].pair.hostBefore + r.actions[i].pair.hostAfter
            < r.actions[j].pair.hostBefore + r.actions[j].pair.hostAfter
    ensures r.actions[i].pair.wallEpoch <= r.actions[j].pair.wallEpoch
  {
    var p := r.actions[i].pair;
    ReachableIsSound(r, config, i);
    RunMoves(r, config, i);
    assert Outgrown(r.states[i + 1], p);
    StaysOutgrown(r, config, i + 1, j, p);
    ReachableIsSound(r, config, j);
    RunMoves(r, config, j);
    OutgrownStep(r.states[j], r.actions[j], r.states[j + 1], p);
  }
}
