/**
 The media server's session records as they are updated in place. A session keeps the history of its
 reservation: each lock-held section is proved to be one more step of a run, so that what holds over every
 run holds of the session.
 */
module MediaSessions {
  import opened Wrappers
  import opened CaptureTiming
  import opened MediaLeases
  import opened CaptureRuns
  import RateWindows

  class TimedMediaState {
    const bridge: bytes
    var epoch: Option<CaptureEpoch>
    var domains: set<bytes>
    var domain: Option<bytes>
    var sequence: nat
    var outputEnd: Option<nat>
    var pair: Option<ClockPair>
    var metadataStarted: nat
    var metadataCount: nat

    ghost function Value(): Watermarks
      reads this
    {
      Watermarks(bridge, epoch, domains, domain, sequence, outputEnd, pair,
                 RateWindows.Window(metadataStarted, metadataCount))
    }

    constructor (bridge: bytes, now: nat)
      ensures Value() == Watermarks(bridge, None, {}, None, 0, None, None, RateWindows.Window(now, 0))
    {
      this.bridge := bridge;
      epoch, domains, domain := None, {}, None;
      sequence, outputEnd, pair := 0, None, None;
      metadataStarted, metadataCount := now, 0;
    }

    method AdmitDomain(d: bytes) returns (ok: bool)
      modifies this`domains, this`domain
      ensures ok == DomainAdmissible(old(Value()), d)
      ensures Value() == if !ok || old(domain) == Some(d) then old(Value())
                         else old(Value()).(domain := Some(d), domains := old(domains) + {d})
    {
      if !ValidIdentifier(d) { return false; }
      if domain == Some(d) { return true; }
      if d in domains { return false; }
      if |domains| >= MAX_CLOCK_DOMAINS { return false; }
      domains := domains + {d};
      domain := Some(d);
      ok := true;
    }

    method AdmitEpochRecord(e: CaptureEpoch, reconnect: bool) returns (ok: bool)
      modifies this
      ensures ok == AdmitEpoch(old(Value()), e, reconnect).Some?
      ensures Value() == if ok then AdmitEpoch(old(Value()), e, reconnect).value else old(Value())
    {
      if !ValidEpoch(e) || bridge != e.bridge { return false; }
      if epoch.Some? && epoch.value.domain == e.domain
         && (e.epoch < epoch.value.epoch || (!reconnect && e.epoch == epoch.value.epoch)) { return false; }
      ok := AdmitDomain(e.domain);
      if !ok { return; }
      if epoch.Some? {
        if epoch.value.domain == e.domain {
          if e.epoch > epoch.value.epoch { sequence, outputEnd := 0, None; }
        } else {
          sequence, outputEnd, pair := 0, None, None;
        }
      }
      epoch := Some(e);
    }

    method AdmitClockPair(p: ClockPair) returns (ok: bool)
      modifies this`pair
      ensures ok == AdmitPair(old(Value()), p).Some?
      ensures Value() == if ok then AdmitPair(old(Value()), p).value else old(Value())
    {
      if epoch.None? || !ValidPair(p) { return false; }
      if p.domain != epoch.value.domain
         || (pair.Some? && (p.sequence <= pair.value.sequence || MidpointTwice(p) <= MidpointTwice(pair.value)
                            || p.wallEpoch < pair.value.wallEpoch)) { return false; }
      pair := Some(p);
      ok := true;
    }

    method ValidateTimedFrame(p: FrameProvenance, format: PcmFormat, length: nat, configured: Option<PcmFormat>)
      returns (r: Option<(CaptureEpoch, bool)>)
      ensures r.Some? <==> FrameAdmissible(Value(), p, format, length, configured)
      ensures r.Some? ==> epoch == Some(r.value.0) && r.value.1 == Hole(Value(), p)
    {
      if !ValidPcm(p, format, length) || configured != Some(format) || epoch.None? { return None; }
      if p.epoch != epoch.value.epoch || p.sequence <= sequence
         || (outputEnd.Some? && p.outputStart < outputEnd.value) {
        return None;
      }
      var hole := sequence > 0 && (sequence + 1 != p.sequence || outputEnd != Some(p.outputStart));
      r := Some((epoch.value, hole));
    }

    method CommitTimedFrame(p: FrameProvenance)
      modifies this`sequence, this`outputEnd
      ensures Value() == CommitFrame(old(Value()), p)
    {
      sequence := p.sequence;
      outputEnd := Some(p.outputStart + p.sampleCount);
    }
  }

  class MediaSession {
    const version: Version
    const reservationEpoch: nat
    const credential: bytes
    const timed: TimedMediaState?
    const config: Config
    var expiresAt: nat
    var reconnectDeadline: nat
    var active: bool
    var activeConnection: Option<nat>
    var nextConnection: nat
    var windowStarted: nat
    var framesInWindow: nat
    var captureFinished: bool
    var released: bool
    /** Everything that has happened in this reservation, and the time of the last of it. */
    ghost var run: Run
    ghost var clock: nat

    ghost function Value(): Lease
      reads this, timed
    {
      Lease(version, reservationEpoch, credential, expiresAt, reconnectDeadline, active, activeConnection,
            nextConnection, RateWindows.Window(windowStarted, framesInWindow),
            if timed == null then None else Some(timed.Value()),
            captureFinished, released)
    }

    /** The session is where its history has led it. */
    ghost predicate Valid()
      reads this, timed
    {
      && |run.states| == |run.actions| + 1
      && Ends(run, run.states[|run.actions|], clock, config) && run.states[|run.actions|].lease == Value()
    }

    /** The reservation with its connection task and the frames recorded and committed so far. */
    ghost function State(): Capture
      requires Valid()
      reads this, timed
    {
      run.states[|run.actions|]
    }

    /** The connection task has this token and stands at this point of its loop. */
    ghost predicate At(token: Token, started: bool, phase: Phase)
      requires Valid()
      reads this, timed
    {
      State().task == Online(token, started, phase)
    }

    /** Notes the step that is about to be performed. */
    ghost method Note(a: Action, now: nat)
      requires Valid() && clock <= now
      modifies this`run, this`clock
      ensures run == Extended(old(run), a, now, config) && clock == now
      ensures Ends(run, Apply(old(State()), a, now, config), now, config)
    {
      ExtendedEnds(run, State(), clock, a, now, config);
      run, clock := Extended(run, a, now, config), now;
    }

    constructor (version: Version, epoch: nat, credential: bytes, bridge: Option<bytes>, now: nat, lifetime: nat,
                 reconnect: nat, config: Config)
      ensures Valid() && Value() == NewLease(version, epoch, credential, bridge, now, lifetime, reconnect)
      ensures State() == Capture(Value(), Offline, [], []) && clock == now && this.config == config
      ensures timed != null ==> fresh(timed)
    {
      this.version, reservationEpoch, this.credential, this.config := version, epoch, credential, config;
      expiresAt, reconnectDeadline := now + lifetime, now + reconnect;
      active, activeConnection, nextConnection := false, None, 1;
      windowStarted, framesInWindow := now, 0;
      captureFinished, released := false, false;
      if bridge.Some? {
        timed := new TimedMediaState(bridge.value, now);
      } else {
        timed := null;
      }
      var lease := NewLease(version, epoch, credential, bridge, now, lifetime, reconnect);
      run, clock := Run.Run([Capture(lease, Offline, [], [])], [], []), now;
      new;
      assert Fresh(run.states[0], now);
    }

    /** A connection is admitted only when none is there, under a token of its own. */
    method AuthenticateConnection(offered: bytes, claimed: Option<bytes>, spoken: Version, now: nat)
      returns (t: Option<Token>)
      requires Valid() && clock <= now
      modifies this
      ensures Valid() && run == Extended(old(run), Connect(offered, claimed, spoken), now, config)
      ensures t.Some? <==>
                && offered == credential && spoken == version
                && claimed == (if timed == null then None else Some(timed.bridge))
                && now <= old(expiresAt) && now <= old(reconnectDeadline) && old(State()).task.Offline?
                && !old(captureFinished) && old(nextConnection) < 0xFFFF_FFFF_FFFF_FFFF
      ensures t.Some? ==> t.value == Token(reservationEpoch, old(nextConnection)) && At(t.value, false, Idle)
      ensures t.None? ==> State() == old(State())
    {
      ReachableIsSound(run, config, |run.actions|);
      Note(Connect(offered, claimed, spoken), now);
      var bridge: Option<bytes> := if timed == null then None else Some(timed.bridge);
      if offered != credential || version != spoken || bridge != claimed
         || now > expiresAt || now > reconnectDeadline || active || captureFinished { return None; }
      var connection := nextConnection;
      if connection >= U64_MAX { return None; }
      nextConnection := connection + 1;
      active, activeConnection := true, Some(connection);
      t := Some(Token(reservationEpoch, connection));
    }

    /** The connection is released by its own task; another token changes nothing. */
    method ReleaseConnection(t: Token, deadline: nat)
      requires Valid()
      requires Holds(Value(), t) ==>
                 State().task.Online? && State().task.token == t && !State().task.phase.Delivered?
      modifies this
      ensures Valid()
      ensures run == if Holds(old(Value()), t) then Extended(old(run), Close(deadline), clock, config) else old(run)
      ensures Holds(old(Value()), t) ==> State().task.Offline?
    {
      if reservationEpoch == t.epoch && activeConnection == Some(t.connection) {
        Note(Close(deadline), clock);
        active, activeConnection := false, None;
        reconnectDeadline, released := deadline, true;
      }
    }

    method ReleasePlannedConnection(t: Token)
      requires Valid()
      requires Holds(Value(), t) ==> State().task.Online? && State().task.token == t && State().task.phase.Closing?
      modifies this`active, this`activeConnection, this`run, this`clock
      ensures Valid()
      ensures run == if Holds(old(Value()), t) then Extended(old(run), ClosePlanned, clock, config) else old(run)
    {
      if reservationEpoch == t.epoch && activeConnection == Some(t.connection) {
        Note(ClosePlanned, clock);
        active, activeConnection := false, None;
      }
    }

    method RenewCredential(now: nat, lifetime: nat) returns (ok: bool)
      requires Valid() && clock <= now
      modifies this`expiresAt, this`run, this`clock
      ensures Valid() && run == Extended(old(run), RenewLease(lifetime), now, config)
      ensures ok <==>
                !old(captureFinished) && now <= old(expiresAt) && (old(active) || now <= old(reconnectDeadline))
      ensures expiresAt == if ok then now + lifetime else old(expiresAt)
    {
      Note(RenewLease(lifetime), now);
      if captureFinished || now > expiresAt || (!active && now > reconnectDeadline) { return false; }
      expiresAt := now + lifetime;
      ok := true;
    }

    /** One record asks for its place in a window; the task goes on with it exactly when it got one. */
    method AdmitTimedRate(metadata: bool, now: nat) returns (ok: bool)
      requires Valid() && State().task.Online? && State().task.phase.Idle? && clock <= now
      modifies this, timed
      ensures Valid() && run == Extended(old(run), Rate(metadata), now, config)
      ensures State().task.Online? && State().task.phase == if ok then Admitted(metadata) else Ended
    {
      Note(Rate(metadata), now);
      if captureFinished { return false; }
      if metadata {
        if timed == null { return false; }
        timed.metadataStarted, timed.metadataCount, ok :=
          RateWindows.AdmitRateWindow(timed.metadataStarted, timed.metadataCount, METADATA_PER_SECOND, now);
      } else {
        windowStarted, framesInWindow, ok :=
          RateWindows.AdmitRateWindow(windowStarted, framesInWindow, config.maxFrames, now);
      }
    }

    /** The first epoch record of a connection may repeat the current epoch. */
    method AdmitEpochRecord(e: CaptureEpoch, reconnect: bool) returns (ok: bool)
      requires Valid() && State().task.Online? && State().task.phase == Admitted(true)
      requires reconnect == !State().task.started
      modifies this`run, this`clock, timed
      ensures Valid() && run == Extended(old(run), Epoch(e), clock, config)
      ensures State().task.Online? && State().task.phase == if ok then Idle else Ended
    {
      Note(Epoch(e), clock);
      if timed == null { return false; }
      ok := timed.AdmitEpochRecord(e, reconnect);
    }

    method AdmitClockPair(p: ClockPair) returns (ok: bool)
      requires Valid() && State().task.Online? && State().task.phase == Admitted(true) && State().task.started
      modifies this`run, this`clock, timed
      ensures Valid() && run == Extended(old(run), Pair(p), clock, config)
      ensures State().task.Online? && State().task.phase == if ok then Idle else Ended
    {
      Note(Pair(p), clock);
      if timed == null { return false; }
      ok := timed.AdmitClockPair(p);
    }

    method AdmitDiscontinuity(captureEpoch: nat, alignmentLimit: bool) returns (ok: bool)
      requires Valid() && State().task.Online? && State().task.phase == Admitted(true) && State().task.started
      modifies this`run, this`clock
      ensures Valid() && run == Extended(old(run), Gap(captureEpoch, alignmentLimit), clock, config)
      ensures State().task.Online? && State().task.phase == if ok then Idle else Ended
    {
      Note(Gap(captureEpoch, alignmentLimit), clock);
      ok := timed != null && timed.epoch.Some? && captureEpoch == timed.epoch.value.epoch && !alignmentLimit;
    }

    /** The frame is checked and nothing changes; it is committed by a later section. */
    method ValidateTimedFrame(p: FrameProvenance, format: PcmFormat, length: nat)
      returns (r: Option<(CaptureEpoch, bool)>)
      requires Valid() && State().task.Online? && State().task.phase == Admitted(false) && State().task.started
      modifies this`run, this`clock
      ensures Valid() && run == Extended(old(run), Frame(p, format, length), clock, config)
      ensures State().task.Online? && State().task.phase == if r.Some? then Validated(p, r.value.1) else Ended
    {
      Note(Frame(p, format, length), clock);
      if timed == null { return None; }
      r := timed.ValidateTimedFrame(p, format, length, config.format);
    }

    /** The hub's fan-out has taken the validated frame, or failed. */
    ghost method Deliver(taken: bool)
      requires Valid() && State().task.Online? && State().task.phase.Validated?
      modifies this`run, this`clock
      ensures Valid() && run == Extended(old(run), CaptureRuns.Deliver(taken), clock, config)
      ensures State().task.Online?
      ensures State().task.phase ==
              if taken then Delivered(old(State()).task.phase.frame, old(State()).task.phase.hole) else Ended
    {
      ReachableIsSound(run, config, |run.actions|);
      Note(CaptureRuns.Deliver(taken), clock);
    }

    /**
     A delivered frame is committed as the newest of its capture epoch: nothing committed before repeats or
     overlaps it.
     */
    method CommitTimedFrame(p: FrameProvenance)
      requires Valid() && State().task.Online? && State().task.phase.Delivered? && State().task.phase.frame == p
      modifies this`run, this`clock, timed
      ensures Valid() && run == Extended(old(run), CommitLast, clock, config)
      ensures State().recorded == State().log && |State().log| == |old(State()).log| + 1
      ensures forall i :: 0 <= i < |old(State()).log| ==>
                State().log[i] == old(State()).log[i] && After(State().log[i], State().log[|old(State()).log|])
    {
      ReachableIsSound(run, config, |run.actions|);
      Note(CommitLast, clock);
      if timed != null {
        timed.CommitTimedFrame(p);
      }
      ReachableIsSound(run, config, |run.actions|);
      assert Ordered(State().log);
    }

    /** A finish is admitted exactly when it names what the capture ends with; a stale connection's changes nothing. */
    method AdmitCaptureFinish(t: Token, b: FinishBoundary) returns (ok: bool)
      requires Valid()
      requires Holds(Value(), t) ==> At(t, true, Idle)
      modifies this`captureFinished, this`run, this`clock
      ensures Valid()
      ensures run == if Holds(old(Value()), t) then Extended(old(run), Finish(b), clock, config) else old(run)
      ensures ok <==> Holds(old(Value()), t) && Names(old(State()), b)
    {
      if reservationEpoch != t.epoch || activeConnection != Some(t.connection) { return false; }
      NamedExactly(run, config, b);
      Note(Finish(b), clock);
      if version != DrainableTimed || captureFinished || timed == null { return false; }
      if timed.epoch.None? || timed.pair.None? { return false; }
      var frame: Option<(nat, nat)>;
      if timed.sequence == 0 && timed.outputEnd.None? {
        frame := None;
      } else if timed.sequence > 0 && timed.outputEnd.Some? {
        frame := Some((timed.sequence, timed.outputEnd.value));
      } else {
        return false;
      }
      if b.epoch != timed.epoch.value.epoch || b.pair != timed.pair.value.sequence || b.frame != frame { return false; }
      captureFinished := true;
      ok := true;
    }
  }

  /** The boundary names the current epoch, the last clock pair and the last committed frame of an open capture. */
  ghost predicate Names(c: Capture, b: FinishBoundary) {
    && c.lease.version.DrainableTimed? && !c.lease.finished && c.lease.timed.Some?
    && var w := c.lease.timed.value;
       && w.epoch.Some? && w.pair.Some?
       && b.epoch == w.epoch.value.epoch && b.pair == w.pair.value.sequence
       && b.frame == LastFrame(c.log, w.epoch.value)
  }

  lemma NamedExactly(r: Run, config: Config, b: FinishBoundary)
    requires IsRun(r, config) && r.states[|r.actions|].task.Online?
    ensures
      var c := r.states[|r.actions|];
      AdmitFinish(c.lease, c.task.token, b).Ok? <==> Names(c, b)
  {
    var c := r.states[|r.actions|];
    ReachableIsSound(r, config, |r.actions|);
    if c.lease.version.DrainableTimed? && !c.lease.finished && c.lease.timed.Some?
       && c.lease.timed.value.epoch.Some? && c.lease.timed.value.pair.Some? {
      FinishNamesTheLastFrame(r, config, |r.actions|, b);
    }
  }
}
