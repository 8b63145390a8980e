/**
 Every run of one timed media reservation, across reconnects, epochs and clock domains: committed
 frames are never replayed and tile the output, a finish names exactly what was committed, a
 finished capture stays finished, and both record budgets hold over any interval.
 */
module CaptureRuns {
  import opened Wrappers
  import opened CaptureTiming
  import opened MediaLeases
  import RateWindows

  /** Where the connection task stands between two lock-held sections of one record. */
  datatype Phase =
    | Idle
    | Admitted(metadata: bool)
    | Validated(frame: FrameProvenance, hole: bool)
    | Delivered(frame: FrameProvenance, hole: bool)
    | Closing
    | Ended

  /** An aborted task never reaches its cleanup: its connection stays admitted. */
  datatype Task = Offline | Online(token: Token, started: bool, phase: Phase) | Aborted

  /** One captured frame: its clock domain and capture epoch, its place, and whether a hole was reported before it. */
  datatype Commit = Commit(domain: bytes, epoch: nat, sequence: nat, start: nat, end: nat, hole: bool)

  /** The reservation, its connection task, and the frames that reached the recorder and that were committed. */
  datatype Capture = Capture(lease: Lease, task: Task, recorded: seq<Commit>, log: seq<Commit>)

  datatype Action =
    | Connect(credential: bytes, bridge: Option<bytes>, version: Version)
    | Rate(metadata: bool)
    | Epoch(epoch: CaptureEpoch)
    | Pair(pair: ClockPair)
    | Gap(gapEpoch: nat, alignmentLimit: bool)
    | Frame(frame: FrameProvenance, format: PcmFormat, length: nat)
    | Deliver(taken: bool)
    | CommitLast
    | Finish(boundary: FinishBoundary)
    | Close(deadline: nat)
    | ClosePlanned
    | Abort
    | RenewLease(lifetime: nat)

  datatype Config = Config(maxFrames: nat, format: Option<PcmFormat>)

  predicate Receiving(c: Capture, phase: Phase) {
    c.task.Online? && c.task.phase == phase
  }

  function In(c: Capture, phase: Phase): Capture
    requires c.task.Online?
  {
    c.(task := c.task.(phase := phase))
  }

  function Marked(c: Capture, w: Option<Watermarks>, started: bool): Capture
    requires c.task.Online?
  {
    if w.None? then In(c, Ended)
    else c.(lease := c.lease.(timed := w), task := c.task.(started := started, phase := Idle))
  }

  function StepConnect(c: Capture, a: Action, now: nat): Capture
    requires a.Connect?
  {
    var r := Authenticate(c.lease, a.credential, a.bridge, a.version, now);
    if r.None? then c else c.(lease := r.value.0, task := Online(r.value.1, false, Idle))
  }

  function StepRate(c: Capture, metadata: bool, now: nat, config: Config): Capture {
    if !Receiving(c, Idle) then c
    else
      var (lease, ok) := AdmitRate(c.lease, metadata, now, config.maxFrames);
      In(c.(lease := lease), if ok then Admitted(metadata) else Ended)
  }

  function StepEpoch(c: Capture, e: CaptureEpoch): Capture {
    if !Receiving(c, Admitted(true)) then c
    else if c.lease.timed.None? then In(c, Ended)
    else Marked(c, AdmitEpoch(c.lease.timed.value, e, !c.task.started), true)
  }

  function StepPair(c: Capture, p: ClockPair): Capture {
    if !Receiving(c, Admitted(true)) then c
    else if c.lease.timed.None? || !c.task.started then In(c, Ended)
    else Marked(c, AdmitPair(c.lease.timed.value, p), true)
  }

  function StepGap(c: Capture, epoch: nat, alignmentLimit: bool): Capture {
    if !Receiving(c, Admitted(true)) then c
    else if c.lease.timed.None? || !c.task.started
            || !AdmitsDiscontinuity(c.lease.timed.value, epoch, alignmentLimit) then In(c, Ended)
    else In(c, Idle)
  }

  function StepFrame(c: Capture, p: FrameProvenance, format: PcmFormat, length: nat, config: Config): Capture {
    if !Receiving(c, Admitted(false)) then c
    else if c.lease.timed.None? || !c.task.started
            || !FrameAdmissible(c.lease.timed.value, p, format, length, config.format)
    then In(c, Ended)
    else In(c, Validated(p, Hole(c.lease.timed.value, p)))
  }

  function EntryOf(e: CaptureEpoch, p: FrameProvenance, hole: bool): Commit {
    Commit(e.domain, e.epoch, p.sequence, p.outputStart, p.outputStart + p.sampleCount, hole)
  }

  /** The fan-out takes the frame for the recorder, or fails and ends the connection. */
  function StepDeliver(c: Capture, taken: bool): Capture {
    if !c.task.Online? || !c.task.phase.Validated? || c.lease.timed.None? || c.lease.timed.value.epoch.None? then c
    else if !taken then In(c, Ended)
    else
      var p, hole := c.task.phase.frame, c.task.phase.hole;
      In(c, Delivered(p, hole)).(recorded := c.recorded + [EntryOf(c.lease.timed.value.epoch.value, p, hole)])
  }

  function StepCommit(c: Capture): Capture {
    if !c.task.Online? || !c.task.phase.Delivered? || c.lease.timed.None? || c.lease.timed.value.epoch.None? then c
    else
      var w, p := c.lease.timed.value, c.task.phase.frame;
      In(c, Idle).(
        lease := c.lease.(timed := Some(CommitFrame(w, p))),
        log := c.log + [EntryOf(w.epoch.value, p, c.task.phase.hole)])
  }

  function StepFinish(c: Capture, b: FinishBoundary): Capture {
    if !Receiving(c, Idle) then c
    else if !c.task.started then In(c, Ended)
    else
      var r := AdmitFinish(c.lease, c.task.token, b);
      if r.Err? then In(c, Ended) else In(c.(lease := r.value), Closing)
  }

  /** The cleanup after an error; between delivery and commit nothing can fail while the reservation stands. */
  function StepClose(c: Capture, deadline: nat): Capture {
    if !c.task.Online? || c.task.phase.Delivered? then c
    else c.(lease := Release(c.lease, c.task.token, deadline), task := Offline)
  }

  function StepClosePlanned(c: Capture): Capture {
    if !Receiving(c, Closing) then c else c.(lease := ReleasePlanned(c.lease, c.task.token), task := Offline)
  }

  function StepAbort(c: Capture): Capture {
    if c.task.Online? then c.(task := Aborted) else c
  }

  function StepRenew(c: Capture, now: nat, lifetime: nat): Capture {
    var r := Renew(c.lease, now, lifetime);
    if r.None? then c else c.(lease := r.value)
  }

  function Apply(c: Capture, a: Action, now: nat, config: Config): Capture {
    match a
    case Connect(_, _, _) => StepConnect(c, a, now)
    case Rate(metadata) => StepRate(c, metadata, now, config)
    case Epoch(e) => StepEpoch(c, e)
    case Pair(p) => StepPair(c, p)
    case Gap(epoch, limit) => StepGap(c, epoch, limit)
    case Frame(p, format, length) => StepFrame(c, p, format, length, config)
    case Deliver(taken) => StepDeliver(c, taken)
    case CommitLast => StepCommit(c)
    case Finish(b) => StepFinish(c, b)
    case Close(deadline) => StepClose(c, deadline)
    case ClosePlanned => StepClosePlanned(c)
    case Abort => StepAbort(c)
    case RenewLease(lifetime) => StepRenew(c, now, lifetime)
  }

  datatype Run = Run(states: seq<Capture>, actions: seq<Action>, times: seq<nat>)

  ghost predicate StepAt(r: Run, config: Config, i: nat)
    requires i < |r.actions| == |r.times| && |r.states| == |r.actions| + 1
  {
    r.states[i + 1] == Apply(r.states[i], r.actions[i], r.times[i], config)
  }

  /** A fresh reservation, made at that time. */
  ghost predicate Fresh(c: Capture, now: nat) {
    exists version, epoch, credential, bridge, lifetime, reconnect ::
      c == Capture(NewLease(version, epoch, credential, bridge, now, lifetime, reconnect), Offline, [], [])
  }

  /** A run of a fresh reservation under a clock that never goes back. */
  ghost predicate IsRun(r: Run, config: Config) {
    && |r.actions| == |r.times| && |r.states| == |r.actions| + 1
    && (exists start: nat :: Fresh(r.states[0], start) && forall i :: 0 <= i < |r.times| ==> start <= r.times[i])
    && (forall i, j :: 0 <= i < j < |r.times| ==> r.times[i] <= r.times[j])
    && (forall i {:trigger StepAt(r, config, i)} :: 0 <= i < |r.actions| ==> StepAt(r, config, i))
  }

  // ---------------------------------------------------------------- the invariant

  ghost predicate Consistent(w: Watermarks) {
    && (w.sequence == 0 <==> w.outputEnd.None?)
    && w.sequence <= U64_MAX && (w.outputEnd.Some? ==> 0 < w.outputEnd.value <= U64_MAX)
    && (w.epoch.None? ==> w.domain.None? && w.sequence == 0 && w.pair.None?)
    && (w.epoch.Some? ==>
          ValidEpoch(w.epoch.value) && w.domain == Some(w.epoch.value.domain) && w.epoch.value.domain in w.domains)
    && (w.pair.Some? ==> ValidPair(w.pair.value))
  }

  predicate SameEpoch(a: Commit, b: Commit) {
    a.domain == b.domain && a.epoch == b.epoch
  }

  predicate Under(a: Commit, e: CaptureEpoch) {
    a.domain == e.domain && a.epoch == e.epoch
  }

  /** A committed frame lies in a known domain, and at or below the watermarks when its domain is still current. */
  ghost predicate Covered(w: Watermarks, a: Commit) {
    && a.domain in w.domains
    && 0 < a.sequence && a.start < a.end
    && (w.epoch.Some? && a.domain == w.epoch.value.domain ==> a.epoch <= w.epoch.value.epoch)
    && (w.epoch.Some? && Under(a, w.epoch.value) ==>
          a.sequence <= w.sequence && w.outputEnd.Some? && a.end <= w.outputEnd.value)
  }

  ghost predicate AllCovered(w: Watermarks, log: seq<Commit>) {
    forall i :: 0 <= i < |log| ==> Covered(w, log[i])
  }

  /** Later frames of the same capture epoch come strictly after: higher sequence, disjoint later range. */
  predicate After(a: Commit, b: Commit) {
    SameEpoch(a, b) ==> a.sequence < b.sequence && a.end <= b.start
  }

  ghost predicate Ordered(log: seq<Commit>) {
    forall i, j :: 0 <= i < j < |log| ==> After(log[i], log[j])
  }

  /** Neighbours of one epoch meet exactly when no hole was reported between them. */
  predicate Meets(a: Commit, b: Commit) {
    SameEpoch(a, b) ==> (!b.hole <==> a.end == b.start && a.sequence + 1 == b.sequence)
  }

  ghost predicate Joined(log: seq<Commit>) {
    forall k :: 0 < k < |log| ==> Meets(log[k - 1], log[k])
  }

  /** The watermarks describe the last committed frame of the current epoch. */
  ghost predicate Latest(w: Watermarks, log: seq<Commit>) {
    w.sequence > 0 ==>
      && w.epoch.Some? && |log| > 0
      && Under(log[|log| - 1], w.epoch.value)
      && log[|log| - 1].sequence == w.sequence
      && w.outputEnd == Some(log[|log| - 1].end)
  }

  ghost predicate Tracked(w: Watermarks, log: seq<Commit>) {
    Consistent(w) && AllCovered(w, log) && Ordered(log) && Joined(log) && Latest(w, log)
  }

  /** A frame that was checked and is not committed yet. */
  predicate InHand(task: Task) {
    task.Online? && (task.phase.Validated? || task.phase.Delivered?)
  }

  /** It is still admissible when it is committed: nothing else moves the watermarks in between. */
  ghost predicate Pending(w: Watermarks, task: Task) {
    InHand(task) ==>
      var p := task.phase.frame;
      && w.epoch.Some? && ValidFrame(p) && p.epoch == w.epoch.value.epoch
      && p.sequence > w.sequence
      && (w.outputEnd.Some? ==> w.outputEnd.value <= p.outputStart)
      && task.phase.hole == Hole(w, p)
  }

  ghost predicate Attached(lease: Lease, task: Task) {
    match task
    case Offline => !lease.active && lease.connection.None?
    case Aborted => lease.active && lease.connection.Some?
    case Online(token, _, phase) =>
      lease.active && Holds(lease, token) && (lease.finished ==> phase.Closing? || phase.Ended?)
  }

  /** The recorder has the committed frames, and at most the one frame whose commit is still to come. */
  ghost predicate Recorded(c: Capture, w: Watermarks) {
    match c.task
    case Offline => c.recorded == c.log
    case Aborted =>
      c.log <= c.recorded && |c.recorded| <= |c.log| + 1 && Ordered(c.recorded) && AllProper(c.recorded)
    case Online(_, _, phase) =>
      if phase.Delivered? then w.epoch.Some? && c.recorded == c.log + [EntryOf(w.epoch.value, phase.frame, phase.hole)]
      else c.recorded == c.log
  }

  /** Every entry names at least one sample. */
  ghost predicate AllProper(log: seq<Commit>) {
    forall i :: 0 <= i < |log| ==> log[i].start < log[i].end
  }

  ghost predicate Sound(c: Capture) {
    && Attached(c.lease, c.task)
    && (c.lease.timed.None? ==> c.log == [] && c.recorded == [] && !InHand(c.task))
    && (c.lease.timed.Some? ==>
          && Tracked(c.lease.timed.value, c.log) && Pending(c.lease.timed.value, c.task)
          && Recorded(c, c.lease.timed.value))
  }

  // ---------------------------------------------------------------- each step keeps it

  lemma EpochTracked(w: Watermarks, e: CaptureEpoch, reconnect: bool, log: seq<Commit>)
    requires Tracked(w, log) && AdmitEpoch(w, e, reconnect).Some?
    ensures Tracked(AdmitEpoch(w, e, reconnect).value, log)
  {
    var next := AdmitEpoch(w, e, reconnect).value;
    forall i | 0 <= i < |log| ensures Covered(next, log[i]) {
      assert Covered(w, log[i]);
    }
  }

  lemma PairTracked(w: Watermarks, p: ClockPair, log: seq<Commit>)
    requires Tracked(w, log) && AdmitPair(w, p).Some?
    ensures Tracked(AdmitPair(w, p).value, log)
  {
    var next := AdmitPair(w, p).value;
    forall i | 0 <= i < |log| ensures Covered(next, log[i]) {
      assert Covered(w, log[i]);
    }
  }

  lemma WindowTracked(w: Watermarks, window: RateWindows.Window, log: seq<Commit>)
    requires Tracked(w, log)
    ensures Tracked(w.(metadata := window), log)
  {
    var next := w.(metadata := window);
    forall i | 0 <= i < |log| ensures Covered(next, log[i]) {
      assert Covered(w, log[i]);
    }
  }

  lemma CommitTracked(w: Watermarks, p: FrameProvenance, hole: bool, log: seq<Commit>, task: Task)
    requires Tracked(w, log) && Pending(w, task) && InHand(task) && task.phase.frame == p && task.phase.hole == hole
    ensures w.epoch.Some? && Tracked(CommitFrame(w, p), log + [EntryOf(w.epoch.value, p, hole)])
  {
    var next, entry := CommitFrame(w, p), EntryOf(w.epoch.value, p, hole);
    var grown := log + [entry];
    forall i | 0 <= i < |grown| ensures Covered(next, grown[i]) {
      if i < |log| { assert Covered(w, log[i]); }
    }
    forall i, j | 0 <= i < j < |grown| ensures After(grown[i], grown[j]) {
      if j < |log| { assert After(log[i], log[j]); } else { assert Covered(w, log[i]); }
    }
    forall k | 0 < k < |grown| ensures Meets(grown[k - 1], grown[k]) {
      if k < |log| { assert Meets(log[k - 1], log[k]); } else { assert Covered(w, log[k - 1]); }
    }
  }

  /** The entries of tracked frames name samples. */
  lemma TrackedIsProper(w: Watermarks, log: seq<Commit>)
    requires Tracked(w, log)
    ensures AllProper(log)
  {
    forall i | 0 <= i < |log| ensures log[i].start < log[i].end {
      assert Covered(w, log[i]);
    }
  }

  lemma RateSound(c: Capture, metadata: bool, now: nat, config: Config)
    requires Sound(c)
    ensures Sound(StepRate(c, metadata, now, config))
  {
    if Receiving(c, Idle) && metadata && c.lease.timed.Some? {
      WindowTracked(c.lease.timed.value, RateWindows.Admit(c.lease.timed.value.metadata, METADATA_PER_SECOND, now),
                    c.log);
    }
  }

  lemma EpochSound(c: Capture, e: CaptureEpoch)
    requires Sound(c)
    ensures Sound(StepEpoch(c, e))
  {
    if Receiving(c, Admitted(true)) && c.lease.timed.Some?
       && AdmitEpoch(c.lease.timed.value, e, !c.task.started).Some? {
      EpochTracked(c.lease.timed.value, e, !c.task.started, c.log);
    }
  }

  lemma PairSound(c: Capture, p: ClockPair)
    requires Sound(c)
    ensures Sound(StepPair(c, p))
  {
    if Receiving(c, Admitted(true)) && c.lease.timed.Some? && AdmitPair(c.lease.timed.value, p).Some? {
      PairTracked(c.lease.timed.value, p, c.log);
    }
  }

  lemma CommitSound(c: Capture)
    requires Sound(c)
    ensures Sound(StepCommit(c))
  {
    if c.task.Online? && c.task.phase.Delivered? && c.lease.timed.Some? {
      CommitTracked(c.lease.timed.value, c.task.phase.frame, c.task.phase.hole, c.log, c.task);
    }
  }

  lemma DeliverSound(c: Capture, taken: bool)
    requires Sound(c)
    ensures Sound(StepDeliver(c, taken))
  {
  }

  /** What the recorder has is ordered, also with the one frame still to be committed. */
  lemma RecordedIsOrdered(c: Capture)
    requires Sound(c)
    ensures c.log <= c.recorded && Ordered(c.recorded) && AllProper(c.recorded)
  {
    if c.lease.timed.Some? {
      var w := c.lease.timed.value;
      TrackedIsProper(w, c.log);
      if c.task.Online? && c.task.phase.Delivered? {
        CommitTracked(w, c.task.phase.frame, c.task.phase.hole, c.log, c.task);
        TrackedIsProper(CommitFrame(w, c.task.phase.frame), c.recorded);
      }
    }
  }

  lemma AbortSound(c: Capture)
    requires Sound(c)
    ensures Sound(StepAbort(c))
  {
    RecordedIsOrdered(c);
  }

  lemma ConnectSound(c: Capture, a: Action, now: nat)
    requires Sound(c) && a.Connect?
    ensures Sound(StepConnect(c, a, now))
  {
  }

  lemma FrameSound(c: Capture, a: Action, now: nat, config: Config)
    requires Sound(c) && a.Frame?
    ensures Sound(Apply(c, a, now, config))
  {
  }

  lemma GapSound(c: Capture, a: Action, now: nat, config: Config)
    requires Sound(c) && a.Gap?
    ensures Sound(Apply(c, a, now, config))
  {
  }

  lemma FinishSound(c: Capture, a: Action, now: nat, config: Config)
    requires Sound(c) && a.Finish?
    ensures Sound(Apply(c, a, now, config))
  {
  }

  lemma EndSound(c: Capture, a: Action, now: nat, config: Config)
    requires Sound(c) && (a.Close? || a.ClosePlanned? || a.RenewLease?)
    ensures Sound(Apply(c, a, now, config))
  {
  }

  lemma StepSound(c: Capture, a: Action, now: nat, config: Config)
    requires Sound(c)
    ensures Sound(Apply(c, a, now, config))
  {
    match a
    case Rate(metadata) => RateSound(c, metadata, now, config);
    case Epoch(e) => EpochSound(c, e);
    case Pair(p) => PairSound(c, p);
    case Deliver(taken) => DeliverSound(c, taken);
    case CommitLast => CommitSound(c);
    case Abort => AbortSound(c);
    case Connect(_, _, _) => ConnectSound(c, a, now);
    case Close(_) => EndSound(c, a, now, config);
    case ClosePlanned => EndSound(c, a, now, config);
    case RenewLease(_) => EndSound(c, a, now, config);
    case Frame(_, _, _) => FrameSound(c, a, now, config);
    case Gap(_, _) => GapSound(c, a, now, config);
    case Finish(_) => FinishSound(c, a, now, config);
  }

  lemma {:induction false} ReachableIsSound(r: Run, config: Config, i: nat)
    requires IsRun(r, config) && i < |r.states|
    ensures Sound(r.states[i])
  {
    if i > 0 {
      ReachableIsSound(r, config, i - 1);
      assert StepAt(r, config, i - 1);
      StepSound(r.states[i - 1], r.actions[i - 1], r.times[i - 1], config);
    }
  }

  // ---------------------------------------------------------------- theorems over runs

  /**
   No frame is ever replayed: two frames committed anywhere in a run under the same clock domain and
   capture epoch have increasing sequences and disjoint, increasing output ranges.
   */
  lemma CommittedOnce(r: Run, config: Config, n: nat, i: nat, j: nat)
    requires IsRun(r, config) && n < |r.states| && i < j < |r.states[n].log|
    requires SameEpoch(r.states[n].log[i], r.states[n].log[j])
    ensures r.states[n].log[i].sequence < r.states[n].log[j].sequence
    ensures r.states[n].log[i].start < r.states[n].log[i].end <= r.states[n].log[j].start
  {
    ReachableIsSound(r, config, n);
    var w := r.states[n].lease.timed.value;
    assert After(r.states[n].log[i], r.states[n].log[j]) && Covered(w, r.states[n].log[i]);
  }

  /**
   No frame reaches the recorder twice in a reservation, over any run of epochs, reconnects, domain changes
   and aborted connections; and every frame it has was committed, but for the last one of a connection that
   is between delivery and commit or was aborted.
   */
  lemma RecordedOnce(r: Run, config: Config, n: nat, i: nat, j: nat)
    requires IsRun(r, config) && n < |r.states| && i < j < |r.states[n].recorded|
    requires SameEpoch(r.states[n].recorded[i], r.states[n].recorded[j])
    ensures r.states[n].recorded[i].sequence < r.states[n].recorded[j].sequence
    ensures r.states[n].recorded[i].start < r.states[n].recorded[i].end <= r.states[n].recorded[j].start
    ensures r.states[n].log <= r.states[n].recorded
    ensures r.states[n].task.Offline? ==> r.states[n].log == r.states[n].recorded
  {
    ReachableIsSound(r, config, n);
    RecordedIsOrdered(r.states[n]);
    assert After(r.states[n].recorded[i], r.states[n].recorded[j]);
  }

  /** The recorder is ahead of the committed frames by the one that an online connection has delivered, or by none. */
  lemma RecorderIsAhead(r: Run, config: Config, n: nat)
    requires IsRun(r, config) && n < |r.states|
    ensures r.states[n].log <= r.states[n].recorded && |r.states[n].recorded| <= |r.states[n].log| + 1
    ensures !r.states[n].task.Aborted? ==>
              (r.states[n].recorded != r.states[n].log <==>
               r.states[n].task.Online? && r.states[n].task.phase.Delivered?)
  {
    ReachableIsSound(r, config, n);
    RecordedIsOrdered(r.states[n]);
    DeliveredIsOneAhead(r.states[n]);
  }

  lemma DeliveredIsOneAhead(c: Capture)
    requires Sound(c)
    ensures |c.recorded| <= |c.log| + 1
    ensures !c.task.Aborted? ==> (c.recorded != c.log <==> c.task.Online? && c.task.phase.Delivered?)
  {
  }

  /**
   A connection aborted by step `i` leaves a frame with the recorder that is never committed if and only if
   it was between delivery and commit.
   */
  lemma AbortLeavesAFrame(r: Run, config: Config, i: nat, j: nat)
    requires IsRun(r, config) && i < j < |r.states| && r.actions[i].Abort? && r.states[i].task.Online?
    ensures r.states[j].recorded != r.states[j].log <==> r.states[i].task.phase.Delivered?
    ensures r.states[j].recorded == r.states[i].recorded && r.states[j].log == r.states[i].log
  {
    RecorderIsAhead(r, config, i);
    assert StepAt(r, config, i);
    AbortedForGood(r, config, i + 1, j);
  }

  /** After an abort the connection stays admitted: nothing is recorded and no connection is admitted any more. */
  lemma {:induction false} AbortedForGood(r: Run, config: Config, i: nat, j: nat)
    requires IsRun(r, config) && i <= j < |r.states| && r.states[i].task.Aborted?
    ensures r.states[j].task.Aborted? && r.states[j].recorded == r.states[i].recorded
            && r.states[j].log == r.states[i].log
  {
    if i < j {
      AbortedForGood(r, config, i, j - 1);
      ReachableIsSound(r, config, j - 1);
      assert StepAt(r, config, j - 1);
    }
  }

  function Samples(log: seq<Commit>, lo: nat, hi: nat): int
    requires lo <= hi <= |log|
  {
    if lo == hi then 0 else Samples(log, lo, hi - 1) + log[hi - 1].end - log[hi - 1].start
  }

  /** Frames `lo..hi` belong to one epoch and no hole was reported after the first. */
  ghost predicate Unbroken(log: seq<Commit>, lo: nat, hi: nat)
    requires lo <= hi < |log|
  {
    forall k :: lo < k <= hi ==> SameEpoch(log[lo], log[k]) && !log[k].hole
  }

  /** Unbroken frames tile the output exactly: as many samples as the range is long, one sequence step per frame. */
  lemma {:induction false} UnbrokenFramesTile(r: Run, config: Config, n: nat, lo: nat, hi: nat)
    requires IsRun(r, config) && n < |r.states| && lo <= hi < |r.states[n].log|
    requires Unbroken(r.states[n].log, lo, hi)
    ensures Samples(r.states[n].log, lo, hi + 1) == r.states[n].log[hi].end - r.states[n].log[lo].start
    ensures r.states[n].log[hi].sequence - r.states[n].log[lo].sequence == hi - lo
    decreases hi
  {
    var log := r.states[n].log;
    if lo < hi {
      UnbrokenFramesTile(r, config, n, lo, hi - 1);
      ReachableIsSound(r, config, n);
      assert SameEpoch(log[lo], log[hi]);
      assert hi - 1 > lo ==> SameEpoch(log[lo], log[hi - 1]);
      assert Meets(log[hi - 1], log[hi]);
    }
  }

  /** The frame part of the only boundary a finish may name: the last frame committed under the current epoch. */
  ghost function LastFrame(log: seq<Commit>, e: CaptureEpoch): Option<(nat, nat)> {
    if log == [] || !Under(log[|log| - 1], e) then None
    else Some((log[|log| - 1].sequence, log[|log| - 1].end))
  }

  lemma LastFrameIsWatermark(w: Watermarks, log: seq<Commit>)
    requires Tracked(w, log) && w.epoch.Some?
    ensures LastFrame(log, w.epoch.value) == if w.sequence == 0 then None else Some((w.sequence, w.outputEnd.value))
  {
    if log != [] {
      assert Covered(w, log[|log| - 1]);
    }
  }

  /**
   In every reachable state with an epoch and a clock pair, the watermarks are consistent, and of all
   boundaries for a session exactly one is admitted from the holder of a drainable, unfinished
   capture: the one naming the current epoch, the last clock pair and the last committed frame.
   */
  lemma FinishNamesTheLastFrame(r: Run, config: Config, n: nat, b: FinishBoundary)
    requires IsRun(r, config) && n < |r.states|
    requires
      var c := r.states[n];
      && c.task.Online? && c.lease.version.DrainableTimed? && !c.lease.finished
      && c.lease.timed.Some? && c.lease.timed.value.epoch.Some? && c.lease.timed.value.pair.Some?
    ensures
      var c := r.states[n];
      var e := c.lease.timed.value.epoch.value;
      && AdmitFinish(c.lease, c.task.token, b) != Err(Inconsistent)
      && (AdmitFinish(c.lease, c.task.token, b).Ok? <==>
            b.epoch == e.epoch && b.frame == LastFrame(c.log, e) && b.pair == c.lease.timed.value.pair.value.sequence)
      && (AdmitFinish(c.lease, c.task.token, b).Ok? ==> ValidBoundary(b))
  {
    ReachableIsSound(r, config, n);
    LastFrameIsWatermark(r.states[n].lease.timed.value, r.states[n].log);
  }

  lemma {:induction false} LogGrows(r: Run, config: Config, i: nat, j: nat)
    requires IsRun(r, config) && i <= j < |r.states|
    ensures r.states[i].log <= r.states[j].log
  {
    if i < j {
      LogGrows(r, config, i, j - 1);
      assert StepAt(r, config, j - 1);
      LogStep(r.states[j - 1], r.actions[j - 1], r.times[j - 1], config);
    }
  }

  lemma LogStep(c: Capture, a: Action, now: nat, config: Config)
    ensures c.log <= Apply(c, a, now, config).log
  {
  }

  /** Finished with the connection closing or gone. */
  ghost predicate Over(c: Capture) {
    c.lease.finished && (c.task.Online? ==> c.task.phase.Closing? || c.task.phase.Ended?)
  }

  /** Only the end of the connection may still change: its deadline and the flags of its release. */
  predicate Standing(a: Capture, b: Capture) {
    && b.log == a.log && b.recorded == a.recorded
    && b.lease == a.lease.(active := b.lease.active, connection := b.lease.connection,
                           reconnectDeadline := b.lease.reconnectDeadline, released := b.lease.released)
  }

  lemma OverStep(c: Capture, a: Action, now: nat, config: Config)
    requires Over(c)
    ensures Over(Apply(c, a, now, config)) && Standing(c, Apply(c, a, now, config))
    ensures !c.task.Online? ==> Apply(c, a, now, config) == c
  {
  }

  /**
   Once a finish is admitted, for the rest of the run: no frame, metadata, renewal or second finish is
   admitted and the watermarks, windows and expiry stand still; once the connection has ended nothing at all
   changes.
   */
  lemma {:induction false} FinishedForGood(r: Run, config: Config, i: nat, j: nat)
    requires IsRun(r, config) && i <= j < |r.states| && r.states[i].lease.finished
    ensures Over(r.states[j]) && Standing(r.states[i], r.states[j])
    ensures !r.states[i].task.Online? ==> r.states[j] == r.states[i]
  {
    if i == j {
      ReachableIsSound(r, config, i);
    } else {
      FinishedForGood(r, config, i, j - 1);
      assert StepAt(r, config, j - 1);
      OverStep(r.states[j - 1], r.actions[j - 1], r.times[j - 1], config);
    }
  }

  ghost predicate Retired(c: Capture, domain: bytes) {
    c.lease.timed.Some? && domain in c.lease.timed.value.domains && c.lease.timed.value.domain != Some(domain)
  }

  lemma RetiredStep(c: Capture, a: Action, now: nat, config: Config, domain: bytes)
    requires Retired(c, domain)
    ensures Retired(Apply(c, a, now, config), domain)
  {
  }

  /** A clock domain that was current and no longer is stays retired for the rest of the reservation. */
  lemma {:induction false} RetiredForGood(r: Run, config: Config, domain: bytes, i: nat, j: nat)
    requires IsRun(r, config) && i <= j < |r.states| && Retired(r.states[i], domain)
    ensures Retired(r.states[j], domain)
  {
    if i < j {
      RetiredForGood(r, config, domain, i, j - 1);
      assert StepAt(r, config, j - 1);
      RetiredStep(r.states[j - 1], r.actions[j - 1], r.times[j - 1], config, domain);
    }
  }

  // ---------------------------------------------------------------- record budgets

  predicate Requests(c: Capture, a: Action, metadata: bool) {
    a == Rate(metadata) && Receiving(c, Idle) && !c.lease.finished && c.lease.timed.Some?
  }

  function WindowOf(c: Capture, metadata: bool): RateWindows.Window {
    if !metadata then c.lease.frames
    else if c.lease.timed.Some? then c.lease.timed.value.metadata
    else RateWindows.Window(0, 0)
  }

  function Limit(config: Config, metadata: bool): nat {
    if metadata then METADATA_PER_SECOND else config.maxFrames
  }

  /** What one rate window sees of a run: the admissions asked of it, and nothing of any other step. */
  ghost function Projected(r: Run, metadata: bool): RateWindows.Run
    requires |r.actions| == |r.times| && |r.states| == |r.actions| + 1
  {
    RateWindows.Run(seq(|r.states|, i requires 0 <= i < |r.states| => WindowOf(r.states[i], metadata)),
                    seq(|r.actions|, i requires 0 <= i < |r.actions| =>
                      if Requests(r.states[i], r.actions[i], metadata) then Some(r.times[i]) else None),
                    seq(|r.actions|, i requires 0 <= i < |r.actions| =>
                      Requests(r.states[i], r.actions[i], metadata) && Receiving(r.states[i + 1], Admitted(metadata))))
  }

  /** Both windows of a timed reservation are as they were. */
  predicate SameWindows(c: Capture, next: Capture) {
    && c.lease.timed.Some? && next.lease.timed.Some?
    && next.lease.frames == c.lease.frames && next.lease.timed.value.metadata == c.lease.timed.value.metadata
  }

  lemma RecordKeepsWindows(c: Capture, a: Action, now: nat, config: Config)
    requires c.lease.timed.Some? && (a.Epoch? || a.Pair? || a.Gap? || a.Frame? || a.CommitLast?)
    ensures SameWindows(c, Apply(c, a, now, config))
  {
  }

  lemma LinkKeepsWindows(c: Capture, a: Action, now: nat, config: Config)
    requires c.lease.timed.Some? && (a.Connect? || a.Finish? || a.Close? || a.ClosePlanned? || a.RenewLease?)
    ensures SameWindows(c, Apply(c, a, now, config))
  {
  }

  lemma WindowStep(c: Capture, a: Action, now: nat, config: Config, metadata: bool)
    requires c.lease.timed.Some?
    ensures Apply(c, a, now, config).lease.timed.Some?
    ensures WindowOf(Apply(c, a, now, config), metadata) ==
            if Requests(c, a, metadata) then RateWindows.Admit(WindowOf(c, metadata), Limit(config, metadata), now)
            else WindowOf(c, metadata)
    ensures Requests(c, a, metadata) ==>
              (Receiving(Apply(c, a, now, config), Admitted(metadata)) <==>
               RateWindows.Admits(WindowOf(c, metadata), Limit(config, metadata), now))
  {
    if a.Epoch? || a.Pair? || a.Gap? || a.Frame? || a.CommitLast? {
      RecordKeepsWindows(c, a, now, config);
    } else if !a.Rate? && !a.Deliver? && !a.Abort? {
      LinkKeepsWindows(c, a, now, config);
    }
  }

  lemma {:induction false} StaysTimed(r: Run, config: Config, i: nat)
    requires IsRun(r, config) && i < |r.states| && r.states[0].lease.timed.Some?
    ensures r.states[i].lease.timed.Some?
  {
    if i > 0 {
      StaysTimed(r, config, i - 1);
      assert StepAt(r, config, i - 1);
      WindowStep(r.states[i - 1], r.actions[i - 1], r.times[i - 1], config, false);
    }
  }

  lemma ProjectionIsRun(r: Run, config: Config, metadata: bool)
    requires IsRun(r, config) && r.states[0].lease.timed.Some?
    ensures RateWindows.IsRun(Projected(r, metadata), Limit(config, metadata))
  {
    var p := Projected(r, metadata);
    forall i | 0 <= i < |p.requests| ensures RateWindows.StepAt(p, Limit(config, metadata), i) {
      StaysTimed(r, config, i);
      assert StepAt(r, config, i);
      WindowStep(r.states[i], r.actions[i], r.times[i], config, metadata);
    }
  }

  /**
   Over any run of a timed reservation, and through every reconnect, renewal and epoch change, each of
   the two budgets admits at most `seconds + 1` times its own limit in any interval of that many seconds,
   whatever the other kind of record does.
   */
  lemma BudgetHolds(r: Run, config: Config, metadata: bool, lo: nat, seconds: nat)
    requires IsRun(r, config) && r.states[0].lease.timed.Some?
    ensures RateWindows.Admitted(Projected(r, metadata), |r.actions|, lo, lo + seconds * 1_000_000_000)
            <= (seconds + 1) * (if metadata then 128 else config.maxFrames)
  {
    ProjectionIsRun(r, config, metadata);
    RateWindows.RateBound(Projected(r, metadata), Limit(config, metadata), |r.actions|, lo, seconds);
  }

  /**
   And the budget is there to be used: a record whose kind was admitted fewer times than its limit in the
   second before it is admitted, unless the capture is finished.
   */
  lemma BudgetIsGranted(r: Run, config: Config, metadata: bool, i: nat)
    requires IsRun(r, config) && r.states[0].lease.timed.Some? && i < |r.actions|
    requires r.actions[i] == Rate(metadata) && Receiving(r.states[i], Idle) && !r.states[i].lease.finished
    requires
      var now := r.times[i];
      RateWindows.Admitted(Projected(r, metadata), i, if now < 1_000_000_000 then 0 else now - 999_999_999, now + 1)
      < if metadata then 128 else config.maxFrames
    ensures Receiving(r.states[i + 1], Admitted(metadata))
  {
    ProjectionIsRun(r, config, metadata);
    StaysTimed(r, config, i);
    RateWindows.RoomIsGranted(Projected(r, metadata), Limit(config, metadata), i, r.times[i]);
  }

  // ---------------------------------------------------------------- runs that grow

  /** The run with one more action. */
  ghost function Extended(r: Run, a: Action, now: nat, config: Config): Run
    requires |r.actions| == |r.times| && |r.states| == |r.actions| + 1
  {
    Run.Run(r.states + [Apply(r.states[|r.actions|], a, now, config)], r.actions + [a], r.times + [now])
  }

  /** A run that ends in this state by this time. */
  ghost predicate Ends(r: Run, c: Capture, clock: nat, config: Config) {
    && IsRun(r, config) && r.states[|r.actions|] == c
    && (exists start: nat :: Fresh(r.states[0], start) && start <= clock)
    && forall i :: 0 <= i < |r.times| ==> r.times[i] <= clock
  }

  lemma ExtendedEnds(r: Run, c: Capture, clock: nat, a: Action, now: nat, config: Config)
    requires Ends(r, c, clock, config) && clock <= now
    ensures Ends(Extended(r, a, now, config), Apply(c, a, now, config), now, config)
  {
    var next := Extended(r, a, now, config);
    forall i | 0 <= i < |next.actions| ensures StepAt(next, config, i) {
      if i < |r.actions| { assert StepAt(r, config, i); }
    }
    var start: nat :| Fresh(r.states[0], start) && start <= clock;
    if |r.times| > 0 {
      start :| Fresh(r.states[0], start) && forall i :: 0 <= i < |r.times| ==> start <= r.times[i];
      assert start <= r.times[0] <= clock;
    }
    assert Fresh(next.states[0], start) && start <= now;
    assert forall i :: 0 <= i < |next.times| ==> start <= next.times[i];
  }
}
