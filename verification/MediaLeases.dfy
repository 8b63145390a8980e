/**
 One media reservation of the gateway: credential and reconnect deadlines, the admitted connection,
 the timed-capture watermarks, the rate windows and the capture finish. Each function is one
 lock-held section of the server; time is read inside the section and never goes back.
 */
module MediaLeases {
  import opened Wrappers
  import opened CaptureTiming
  import opened RateWindows

  const METADATA_PER_SECOND: nat := 128

  datatype Version = Legacy | Timed | DrainableTimed

  /** A connection's proof of admission; only the matching reservation and connection may be ended by it. */
  datatype Token = Token(epoch: nat, connection: nat)

  datatype Watermarks = Watermarks(
    bridge: bytes,
    epoch: Option<CaptureEpoch>,
    domains: set<bytes>,
    domain: Option<bytes>,
    sequence: nat,
    outputEnd: Option<nat>,
    pair: Option<ClockPair>,
    metadata: Window)

  datatype Lease = Lease(
    version: Version,
    epoch: nat,
    credential: bytes,
    expiresAt: nat,
    reconnectDeadline: nat,
    active: bool,
    connection: Option<nat>,
    nextConnection: nat,
    frames: Window,
    timed: Option<Watermarks>,
    finished: bool,
    released: bool)

  function NewLease(version: Version, epoch: nat, credential: bytes, bridge: Option<bytes>, now: nat, lifetime: nat,
                    reconnect: nat): Lease {
    Lease(version, epoch, credential, now + lifetime, now + reconnect, false, None, 1, Window(now, 0),
          if bridge.Some? then Some(Watermarks(bridge.value, None, {}, None, 0, None, None, Window(now, 0))) else None,
          false, false)
  }

  function BridgeOf(l: Lease): Option<bytes> {
    if l.timed.Some? then Some(l.timed.value.bridge) else None
  }

  predicate Admissible(l: Lease, now: nat) {
    now <= l.expiresAt && now <= l.reconnectDeadline && !l.active && !l.finished
  }

  function Authenticate(l: Lease, credential: bytes, bridge: Option<bytes>, version: Version, now: nat)
    : Option<(Lease, Token)>
  {
    if credential != l.credential || l.version != version || BridgeOf(l) != bridge || !Admissible(l, now)
       || l.nextConnection >= U64_MAX
    then None
    else Some((l.(nextConnection := l.nextConnection + 1, active := true, connection := Some(l.nextConnection)),
               Token(l.epoch, l.nextConnection)))
  }

  predicate Holds(l: Lease, t: Token) {
    l.epoch == t.epoch && l.connection == Some(t.connection)
  }

  function Release(l: Lease, t: Token, deadline: nat): Lease {
    if Holds(l, t) then l.(active := false, connection := None, reconnectDeadline := deadline, released := true) else l
  }

  function ReleasePlanned(l: Lease, t: Token): Lease {
    if Holds(l, t) then l.(active := false, connection := None) else l
  }

  predicate Renewable(l: Lease, now: nat) {
    !l.finished && now <= l.expiresAt && (l.active || now <= l.reconnectDeadline)
  }

  function Renew(l: Lease, now: nat, lifetime: nat): Option<Lease> {
    if Renewable(l, now) then Some(l.(expiresAt := now + lifetime)) else None
  }

  /** What `media_lost` answers about a reserved session. */
  predicate Lost(l: Lease, now: nat) {
    !l.active && l.released && !l.finished && (now > l.expiresAt || now > l.reconnectDeadline)
  }

  /** The lease after one record asks for its place in a rate window, and whether it got it. */
  function AdmitRate(l: Lease, metadata: bool, now: nat, maxFrames: nat): (Lease, bool) {
    if l.finished || (metadata && l.timed.None?) then (l, false)
    else if metadata then
      var w := l.timed.value.metadata;
      (l.(timed := Some(l.timed.value.(metadata := Admit(w, METADATA_PER_SECOND, now)))),
       Admits(w, METADATA_PER_SECOND, now))
    else (l.(frames := Admit(l.frames, maxFrames, now)), Admits(l.frames, maxFrames, now))
  }

  // ---------------------------------------------------------------- timed capture

  /** The current domain may continue; any other domain must never have been admitted before. */
  predicate DomainAdmissible(w: Watermarks, domain: bytes) {
    ValidIdentifier(domain) && (w.domain == Some(domain) || (domain !in w.domains && |w.domains| < MAX_CLOCK_DOMAINS))
  }

  function AdmitEpoch(w: Watermarks, e: CaptureEpoch, reconnect: bool): Option<Watermarks> {
    if !ValidEpoch(e) || w.bridge != e.bridge then None
    else if w.epoch.Some? && w.epoch.value.domain == e.domain
            && (e.epoch < w.epoch.value.epoch || (!reconnect && e.epoch == w.epoch.value.epoch)) then None
    else if !DomainAdmissible(w, e.domain) then None
    else
      var known := w.(epoch := Some(e), domain := Some(e.domain),
                      domains := if w.domain == Some(e.domain) then w.domains else w.domains + {e.domain});
      if w.epoch.None? then Some(known)
      else if w.epoch.value.domain == e.domain then
        Some(if e.epoch > w.epoch.value.epoch then known.(sequence := 0, outputEnd := None) else known)
      else Some(known.(sequence := 0, outputEnd := None, pair := None))
  }

  function AdmitPair(w: Watermarks, p: ClockPair): Option<Watermarks> {
    if w.epoch.None? || !ValidPair(p) || p.domain != w.epoch.value.domain then None
    else if w.pair.Some? && (p.sequence <= w.pair.value.sequence
                             || MidpointTwice(p) <= MidpointTwice(w.pair.value)
                             || p.wallEpoch < w.pair.value.wallEpoch) then None
    else Some(w.(pair := Some(p)))
  }

  predicate AdmitsDiscontinuity(w: Watermarks, epoch: nat, alignmentLimit: bool) {
    w.epoch.Some? && epoch == w.epoch.value.epoch && !alignmentLimit
  }

  predicate FrameAdmissible(w: Watermarks, p: FrameProvenance, format: PcmFormat, length: nat,
                            configured: Option<PcmFormat>) {
    && ValidPcm(p, format, length)
    && configured == Some(format)
    && w.epoch.Some?
    && p.epoch == w.epoch.value.epoch
    && p.sequence > w.sequence
    && (w.outputEnd.Some? ==> w.outputEnd.value <= p.outputStart)
  }

  /** Whether the frame leaves a hole after the last committed one. */
  predicate Hole(w: Watermarks, p: FrameProvenance) {
    w.sequence > 0 && (w.sequence + 1 != p.sequence || w.outputEnd != Some(p.outputStart))
  }

  function CommitFrame(w: Watermarks, p: FrameProvenance): Watermarks {
    w.(sequence := p.sequence, outputEnd := Some(p.outputStart + p.sampleCount))
  }

  datatype FinishRefusal =
    WrongToken | NotDrainable | Duplicated | NotTimed | NoEpoch | NoPair | Inconsistent | Mismatch

  function AdmitFinish(l: Lease, t: Token, b: FinishBoundary): Result<Lease, FinishRefusal> {
    if !Holds(l, t) then Err(WrongToken)
    else if l.version != DrainableTimed then Err(NotDrainable)
    else if l.finished then Err(Duplicated)
    else if l.timed.None? then Err(NotTimed)
    else
      var w := l.timed.value;
      if w.epoch.None? then Err(NoEpoch)
      else if w.pair.None? then Err(NoPair)
      else if (w.sequence == 0) != w.outputEnd.None? then Err(Inconsistent)
      else if b.epoch != w.epoch.value.epoch || b.pair != w.pair.value.sequence
              || (if w.sequence == 0 then b.frame.Some?
                  else b.frame.None? || b.frame.value != (w.sequence, w.outputEnd.value))
      then Err(Mismatch)
      else Ok(l.(finished := true))
  }
}
