/**
 The lossy recogniser branch of capture. The queue is bounded and never waited for: an event that does
 not fit is dropped and one discontinuity is owed, to be delivered before the next event that fits.
 */
module RecognitionLanes {
  import opened Wrappers

  const CAPACITY: nat := 16

  datatype CaptureEvent = Frame(sequence: nat) | Discontinuity(atMs: nat)

  datatype Lane = Lane(queue: seq<CaptureEvent>, owed: Option<nat>)

  /** The timestamp of the gap that is owed for an event dropped while nothing was owed. */
  function LostAt(e: CaptureEvent): nat {
    if e.Discontinuity? then e.atMs else 0
  }

  /** What one offer puts into the queue. */
  function Admitted(lane: Lane, e: CaptureEvent): seq<CaptureEvent> {
    var room := CAPACITY - |lane.queue|;
    if lane.owed.None? then if room >= 1 then [e] else []
    else if e.Discontinuity? then if room >= 1 then [Discontinuity(lane.owed.value)] else []
    else if room >= 2 then [Discontinuity(lane.owed.value), e] else []
  }

  function Offer(lane: Lane, e: CaptureEvent): Lane {
    var sent := Admitted(lane, e);
    Lane(lane.queue + sent,
         if sent != [] then None else if lane.owed.Some? then lane.owed else Some(LostAt(e)))
  }

  // ---------------------------------------------------------------- what the recogniser sees

  datatype Action = DoOffer(event: CaptureEvent) | DoReceive

  /**
   Where one sent event comes from. `Kept(i)` is offered event `i` itself. `Gap(lo, hi)` is the
   discontinuity sent for the lost events `lo..hi`, directly before the kept event `hi`.
   `Paid(lo, i)` is the discontinuity sent for the lost events `lo..i` when the offered discontinuity
   `i` paid the debt, and stands for that discontinuity as well.
   */
  datatype Slot = Kept(at: nat) | Gap(lo: nat, hi: nat) | Paid(lo: nat, at: nat)

  function From(s: Slot): nat {
    match s case Kept(i) => i case Gap(lo, _) => lo case Paid(lo, _) => lo
  }

  function Upto(s: Slot): nat {
    match s case Kept(i) => i + 1 case Gap(_, hi) => hi case Paid(_, i) => i + 1
  }

  /**
   A run of offers and receives: everything offered, the lane each offer found, and everything sent and
   delivered so far.
   */
  datatype History = History(
    lane: Lane,
    offered: seq<CaptureEvent>,
    found: seq<Lane>,
    sent: seq<CaptureEvent>,
    delivered: seq<CaptureEvent>,
    slots: seq<Slot>)

  const START: History := History(Lane([], None), [], [], [], [], [])

  /** The first offered event that is not accounted for by a sent event yet. */
  function Covered(slots: seq<Slot>): nat {
    if slots == [] then 0 else Upto(slots[|slots| - 1])
  }

  function NewSlots(h: History, e: CaptureEvent): seq<Slot> {
    var n := |h.offered|;
    if Admitted(h.lane, e) == [] then []
    else if h.lane.owed.None? then [Kept(n)]
    else if e.Discontinuity? then [Paid(Covered(h.slots), n)]
    else [Gap(Covered(h.slots), n), Kept(n)]
  }

  function Next(h: History, a: Action): History {
    match a
    case DoOffer(e) =>
      History(Offer(h.lane, e), h.offered + [e], h.found + [h.lane], h.sent + Admitted(h.lane, e), h.delivered,
              h.slots + NewSlots(h, e))
    case DoReceive =>
      if h.lane.queue == [] then h
      else h.(lane := h.lane.(queue := h.lane.queue[1..]), delivered := h.delivered + [h.lane.queue[0]])
  }

  function After(run: seq<Action>): History {
    if run == [] then START else Next(After(run[..|run| - 1]), run[|run| - 1])
  }

  // ---------------------------------------------------------------- every offered event is accounted for

  predicate SlotMatches(s: Slot, sent: CaptureEvent, offered: seq<CaptureEvent>) {
    match s
    case Kept(i) => i < |offered| && sent == offered[i]
    case Gap(lo, hi) => lo < hi < |offered| && offered[hi].Frame? && sent == Discontinuity(LostAt(offered[lo]))
    case Paid(lo, i) => lo < i < |offered| && offered[i].Discontinuity? && sent == Discontinuity(LostAt(offered[lo]))
  }

  ghost predicate Matches(slots: seq<Slot>, sent: seq<CaptureEvent>, offered: seq<CaptureEvent>) {
    && |slots| == |sent|
    && (forall k :: 0 <= k < |slots| ==> SlotMatches(slots[k], sent[k], offered))
  }

  /** A slot starts where the one before it ends. */
  predicate TiledAt(slots: seq<Slot>, k: nat)
    requires k < |slots|
  {
    From(slots[k]) == if k == 0 then 0 else Upto(slots[k - 1])
  }

  /** The slots cover the offered events from the first one on, in order, without holes or overlaps. */
  ghost predicate Tiled(slots: seq<Slot>) {
    forall k {:trigger TiledAt(slots, k)} :: 0 <= k < |slots| ==> TiledAt(slots, k)
  }

  predicate ClosedAt(slots: seq<Slot>, k: nat)
    requires k < |slots|
  {
    slots[k].Gap? ==> k + 1 < |slots| && slots[k + 1] == Kept(slots[k].hi)
  }

  /** A gap is followed directly by the frame that comes after the loss. */
  ghost predicate GapsClosed(slots: seq<Slot>) {
    forall k {:trigger ClosedAt(slots, k)} :: 0 <= k < |slots| ==> ClosedAt(slots, k)
  }

  /** What is not covered yet is the debt. */
  ghost predicate Owes(h: History) {
    if h.lane.owed.None? then Covered(h.slots) == |h.offered|
    else Covered(h.slots) < |h.offered| && h.lane.owed.value == LostAt(h.offered[Covered(h.slots)])
  }

  /** The sent stream has been delivered or is in the bounded queue. */
  ghost predicate Flows(h: History) {
    h.sent == h.delivered + h.lane.queue && |h.lane.queue| <= CAPACITY
  }

  /** Every offered event is accounted for by the sent stream. */
  ghost predicate Accounted(h: History) {
    Flows(h) && Matches(h.slots, h.sent, h.offered) && Tiled(h.slots) && GapsClosed(h.slots) && Owes(h)
  }

  lemma MatchesMore(slots: seq<Slot>, sent: seq<CaptureEvent>, offered: seq<CaptureEvent>, e: CaptureEvent)
    requires Matches(slots, sent, offered)
    ensures Matches(slots, sent, offered + [e])
  {
    forall k | 0 <= k < |slots| ensures SlotMatches(slots[k], sent[k], offered + [e]) {
      assert SlotMatches(slots[k], sent[k], offered);
    }
  }

  lemma MatchesAppend(slots: seq<Slot>, sent: seq<CaptureEvent>, offered: seq<CaptureEvent>, s: Slot, e: CaptureEvent)
    requires Matches(slots, sent, offered) && SlotMatches(s, e, offered)
    ensures Matches(slots + [s], sent + [e], offered)
  {
  }

  lemma TiledAppend(slots: seq<Slot>, s: Slot)
    requires Tiled(slots) && From(s) == Covered(slots)
    ensures Tiled(slots + [s]) && Covered(slots + [s]) == Upto(s)
  {
    var more := slots + [s];
    forall k | 0 <= k < |more| ensures TiledAt(more, k) {
      if k < |slots| { assert TiledAt(slots, k); }
    }
  }

  lemma ClosedAppend(slots: seq<Slot>, s: Slot)
    requires GapsClosed(slots) && !s.Gap?
    ensures GapsClosed(slots + [s])
  {
    var more := slots + [s];
    forall k | 0 <= k < |more| ensures ClosedAt(more, k) {
      if k < |slots| { assert ClosedAt(slots, k); }
    }
  }

  lemma ClosedAppendGap(slots: seq<Slot>, lo: nat, hi: nat)
    requires GapsClosed(slots)
    ensures GapsClosed(slots + [Gap(lo, hi)] + [Kept(hi)])
  {
    var more := slots + [Gap(lo, hi)] + [Kept(hi)];
    forall k | 0 <= k < |more| ensures ClosedAt(more, k) {
      if k < |slots| { assert ClosedAt(slots, k); }
    }
  }

  lemma OfferFlows(h: History, e: CaptureEvent)
    requires Flows(h)
    ensures Flows(Next(h, DoOffer(e)))
  {
    var added := Admitted(h.lane, e);
    assert h.sent + added == h.delivered + (h.lane.queue + added);
  }

  /** An offer that sends the one event of its one slot. */
  lemma OneSlotAccounted(h: History, e: CaptureEvent, s: Slot, sent: CaptureEvent)
    requires Accounted(h) && NewSlots(h, e) == [s] && Admitted(h.lane, e) == [sent] && !s.Gap?
    requires SlotMatches(s, sent, h.offered + [e]) && From(s) == Covered(h.slots) && Upto(s) == |h.offered| + 1
    ensures Accounted(Next(h, DoOffer(e)))
  {
    OfferFlows(h, e);
    MatchesMore(h.slots, h.sent, h.offered, e);
    MatchesAppend(h.slots, h.sent, h.offered + [e], s, sent);
    TiledAppend(h.slots, s);
    ClosedAppend(h.slots, s);
  }

  /** An offer that sends the owed gap and then its frame. */
  lemma GapAccounted(h: History, e: CaptureEvent)
    requires Accounted(h) && h.lane.owed.Some? && e.Frame? && Admitted(h.lane, e) != []
    ensures Accounted(Next(h, DoOffer(e)))
  {
    var n, lo := |h.offered|, Covered(h.slots);
    var gap, offered := Discontinuity(h.lane.owed.value), h.offered + [e];
    OfferFlows(h, e);
    MatchesMore(h.slots, h.sent, h.offered, e);
    assert offered[lo] == h.offered[lo];
    MatchesAppend(h.slots, h.sent, offered, Gap(lo, n), gap);
    MatchesAppend(h.slots + [Gap(lo, n)], h.sent + [gap], offered, Kept(n), e);
    TiledAppend(h.slots, Gap(lo, n));
    TiledAppend(h.slots + [Gap(lo, n)], Kept(n));
    ClosedAppendGap(h.slots, lo, n);
    assert h.slots + NewSlots(h, e) == h.slots + [Gap(lo, n)] + [Kept(n)];
    assert h.sent + Admitted(h.lane, e) == h.sent + [gap] + [e];
  }

  /** An offer that sends nothing is lost and owed. */
  lemma LossAccounted(h: History, e: CaptureEvent)
    requires Accounted(h) && Admitted(h.lane, e) == []
    ensures Accounted(Next(h, DoOffer(e)))
  {
    OfferFlows(h, e);
    MatchesMore(h.slots, h.sent, h.offered, e);
    assert h.slots + NewSlots(h, e) == h.slots && h.sent + Admitted(h.lane, e) == h.sent;
  }

  lemma OfferAccounted(h: History, e: CaptureEvent)
    requires Accounted(h)
    ensures Accounted(Next(h, DoOffer(e)))
  {
    var n, lo := |h.offered|, Covered(h.slots);
    if Admitted(h.lane, e) == [] {
      LossAccounted(h, e);
    } else if h.lane.owed.None? {
      OneSlotAccounted(h, e, Kept(n), e);
    } else if e.Discontinuity? {
      assert (h.offered + [e])[lo] == h.offered[lo];
      OneSlotAccounted(h, e, Paid(lo, n), Discontinuity(h.lane.owed.value));
    } else {
      GapAccounted(h, e);
    }
  }

  lemma ReceiveAccounted(h: History)
    requires Accounted(h)
    ensures Accounted(Next(h, DoReceive))
  {
    if h.lane.queue != [] {
      assert h.delivered + h.lane.queue == (h.delivered + [h.lane.queue[0]]) + h.lane.queue[1..];
    }
  }

  /** In every interleaving of offers and receives the sent stream accounts for the offered one. */
  lemma {:induction false} RunAccounted(run: seq<Action>)
    ensures Accounted(After(run))
  {
    if run != [] {
      var front := run[..|run| - 1];
      RunAccounted(front);
      match run[|run| - 1]
      case DoOffer(e) => OfferAccounted(After(front), e);
      case DoReceive => ReceiveAccounted(After(front));
    }
  }

  lemma SentPrefix(run: seq<Action>, k: nat)
    requires k < |After(run).delivered|
    ensures
      var h := After(run);
      Accounted(h) && k < |h.slots| && h.sent[k] == h.delivered[k] && SlotMatches(h.slots[k], h.delivered[k], h.offered)
  {
    RunAccounted(run);
  }

  lemma SentNeighbours(run: seq<Action>, k: nat)
    requires k + 1 < |After(run).delivered|
    ensures
      var h := After(run);
      && k + 1 < |h.slots| && From(h.slots[k + 1]) == Upto(h.slots[k])
      && SlotMatches(h.slots[k], h.delivered[k], h.offered)
      && SlotMatches(h.slots[k + 1], h.delivered[k + 1], h.offered)
  {
    SentPrefix(run, k);
    SentPrefix(run, k + 1);
    assert TiledAt(After(run).slots, k + 1);
  }

  /** Two frames adjacent on delivery were adjacent when offered, in every interleaving. */
  lemma AdjacentFrames(run: seq<Action>, k: nat)
    requires k + 1 < |After(run).delivered|
    requires After(run).delivered[k].Frame? && After(run).delivered[k + 1].Frame?
    ensures
      var h := After(run);
      exists i :: 0 <= i && i + 1 < |h.offered| && h.offered[i] == h.delivered[k]
        && h.offered[i + 1] == h.delivered[k + 1]
  {
    var h := After(run);
    SentNeighbours(run, k);
    KeptNeighbours(h.slots[k], h.slots[k + 1], h.delivered[k], h.delivered[k + 1], h.offered);
    var i := h.slots[k].at;
    assert h.offered[i] == h.delivered[k] && h.offered[i + 1] == h.delivered[k + 1];
  }

  /** Two frames whose slots follow each other are kept events that follow each other. */
  lemma KeptNeighbours(s: Slot, t: Slot, x: CaptureEvent, y: CaptureEvent, offered: seq<CaptureEvent>)
    requires x.Frame? && y.Frame? && SlotMatches(s, x, offered) && SlotMatches(t, y, offered) && From(t) == Upto(s)
    ensures s.Kept? && t.Kept? && t.at == s.at + 1 < |offered| && offered[s.at] == x && offered[t.at] == y
  {
  }

  // ---------------------------------------------------------------- how a loss is reported

  /** The offer found no room: nothing was sent for it. */
  predicate Lost(h: History, i: nat)
    requires i < |h.offered| == |h.found|
  {
    Admitted(h.found[i], h.offered[i]) == []
  }

  /** The guard of the paying branch: a discontinuity is offered while one is owed, and there is room for it. */
  predicate Pays(h: History, i: nat)
    requires i < |h.offered| == |h.found|
  {
    h.found[i].owed.Some? && h.offered[i].Discontinuity? && |h.found[i].queue| < CAPACITY
  }

  predicate FoundFull(h: History, i: nat)
    requires i < |h.found|
  {
    |h.found[i].queue| >= CAPACITY
  }

  ghost predicate AllLost(h: History, lo: nat, hi: nat)
    requires hi <= |h.offered| == |h.found|
  {
    forall i :: lo <= i < hi ==> Lost(h, i)
  }

  /** A slot says what its offers found. */
  ghost predicate Explained(h: History, s: Slot) {
    && |h.offered| == |h.found| && Upto(s) <= |h.offered|
    && match s
       case Kept(i) => !Lost(h, i) && !Pays(h, i)
       case Gap(lo, hi) => AllLost(h, lo, hi)
       case Paid(lo, i) => Pays(h, i) && AllLost(h, lo, i)
  }

  /** The debt an offer finds is the debt the offer before it left. */
  predicate LinkedAt(h: History, i: nat)
    requires i < |h.offered| == |h.found|
  {
    Offer(h.found[i], h.offered[i]).owed == if i + 1 < |h.found| then h.found[i + 1].owed else h.lane.owed
  }

  ghost predicate Judged(h: History) {
    && |h.offered| == |h.found|
    && (forall k {:trigger Explained(h, h.slots[k])} :: 0 <= k < |h.slots| ==> Explained(h, h.slots[k]))
    && (forall i {:trigger LinkedAt(h, i)} :: 0 <= i < |h.offered| ==> LinkedAt(h, i))
    && Covered(h.slots) <= |h.offered| && AllLost(h, Covered(h.slots), |h.offered|)
  }

  lemma ExplainedStays(h: History, e: CaptureEvent, s: Slot)
    requires Explained(h, s)
    ensures Explained(Next(h, DoOffer(e)), s)
  {
    var next := Next(h, DoOffer(e));
    assert forall i :: 0 <= i < |h.offered| ==> next.offered[i] == h.offered[i] && next.found[i] == h.found[i];
    forall i | From(s) <= i < Upto(s) && i < |h.offered| ensures Lost(next, i) == Lost(h, i) {
    }
  }

  lemma LinksStay(h: History, e: CaptureEvent, i: nat)
    requires Judged(h) && i <= |h.offered|
    ensures LinkedAt(Next(h, DoOffer(e)), i)
  {
    if i < |h.offered| { assert LinkedAt(h, i); }
  }

  /** The new slots explain what their offers found, and what stays uncovered is lost. */
  lemma NewExplained(h: History, e: CaptureEvent)
    requires Judged(h) && Accounted(h)
    ensures forall s :: s in NewSlots(h, e) ==> Explained(Next(h, DoOffer(e)), s)
    ensures
      var next := Next(h, DoOffer(e));
      Covered(next.slots) <= |next.offered| && AllLost(next, Covered(next.slots), |next.offered|)
  {
    var next, n, lo := Next(h, DoOffer(e)), |h.offered|, Covered(h.slots);
    assert next.found[n] == h.lane && next.offered[n] == e;
    forall i | lo <= i < n ensures Lost(next, i) {
      assert Lost(h, i);
    }
    if Admitted(h.lane, e) == [] {
      assert next.slots == h.slots;
    }
  }

  lemma OfferJudged(h: History, e: CaptureEvent)
    requires Judged(h) && Accounted(h)
    ensures Judged(Next(h, DoOffer(e)))
  {
    var next := Next(h, DoOffer(e));
    NewExplained(h, e);
    forall k | 0 <= k < |next.slots| ensures Explained(next, next.slots[k]) {
      if k < |h.slots| {
        assert Explained(h, h.slots[k]);
        ExplainedStays(h, e, h.slots[k]);
      } else {
        assert next.slots[k] in NewSlots(h, e);
      }
    }
    forall i | 0 <= i < |next.offered| ensures LinkedAt(next, i) {
      LinksStay(h, e, i);
    }
  }

  lemma ReceiveExplains(h: History, s: Slot)
    requires Explained(h, s)
    ensures Explained(Next(h, DoReceive), s)
  {
    var next := Next(h, DoReceive);
    forall i | From(s) <= i < Upto(s) ensures Lost(next, i) == Lost(h, i) {
    }
  }

  lemma ReceiveJudged(h: History)
    requires Judged(h)
    ensures Judged(Next(h, DoReceive))
  {
    var next := Next(h, DoReceive);
    assert next.offered == h.offered && next.found == h.found && next.slots == h.slots;
    forall k | 0 <= k < |next.slots| ensures Explained(next, next.slots[k]) {
      assert Explained(h, h.slots[k]);
      ReceiveExplains(h, h.slots[k]);
    }
    forall i | Covered(h.slots) <= i < |h.offered| ensures Lost(next, i) {
      assert Lost(h, i);
    }
    forall i | 0 <= i < |next.offered| ensures LinkedAt(next, i) {
      assert LinkedAt(h, i);
    }
  }

  lemma {:induction false} RunJudged(run: seq<Action>)
    ensures Judged(After(run))
  {
    if run != [] {
      var front := run[..|run| - 1];
      RunJudged(front);
      RunAccounted(front);
      match run[|run| - 1]
      case DoOffer(e) => OfferJudged(After(front), e);
      case DoReceive => ReceiveJudged(After(front));
    }
  }

  lemma {:induction false} SlotsAscend(h: History, a: nat, b: nat)
    requires Accounted(h) && a <= b < |h.slots|
    ensures From(h.slots[a]) + (b - a) <= From(h.slots[b])
    decreases b
  {
    if a < b {
      SlotsAscend(h, a, b - 1);
      assert SlotMatches(h.slots[b - 1], h.sent[b - 1], h.offered);
      assert TiledAt(h.slots, b);
    }
  }

  /** The slot that covers an offered event. */
  lemma {:induction false} SlotOf(h: History, a: nat, b: nat, i: nat) returns (k: nat)
    requires Accounted(h) && a <= b < |h.slots| && From(h.slots[a]) <= i < From(h.slots[b])
    ensures a <= k < b && From(h.slots[k]) <= i < Upto(h.slots[k])
    decreases b
  {
    assert TiledAt(h.slots, b);
    if From(h.slots[b - 1]) <= i {
      k := b - 1;
    } else {
      k := SlotOf(h, a, b - 1, i);
    }
  }

  /** All reports of one loss but the last were paid by an offered discontinuity. */
  lemma AllButLastPaid(h: History, a: nat, b: nat, k: nat)
    requires Accounted(h) && a <= k && k + 1 < b < |h.slots|
    requires forall j :: a <= j < b ==> !h.slots[j].Kept?
    ensures h.slots[k].Paid?
  {
    assert ClosedAt(h.slots, k);
    assert !h.slots[k + 1].Kept?;
  }

  /** After a payment the next offer is kept unless it finds the queue full. */
  lemma PaidThenFull(h: History, i: nat)
    requires Judged(h) && i + 1 < |h.offered| && Pays(h, i)
    ensures Lost(h, i + 1) <==> FoundFull(h, i + 1)
    ensures !Pays(h, i + 1)
  {
    assert LinkedAt(h, i);
  }

  /** The reports of one loss: slots `a..b` between the event kept before it, if any, and the kept event `b`. */
  ghost predicate Reports(h: History, a: nat, b: nat) {
    && a <= b < |h.slots| && h.slots[b].Kept? && (a > 0 ==> h.slots[a - 1].Kept?)
    && forall j :: a <= j < b ==> !h.slots[j].Kept?
  }

  /** Some offer from `first` on takes the paying branch, and the next one, not after `last`, finds the queue full. */
  ghost predicate PaidAndFullAgain(h: History, first: nat, last: nat)
    requires last < |h.offered| == |h.found|
  {
    exists i :: first <= i < last && Pays(h, i) && FoundFull(h, i + 1)
  }

  lemma ManyReportsWerePaid(h: History, a: nat, b: nat)
    requires Accounted(h) && Judged(h) && Reports(h, a, b) && b - a > 1
    ensures h.slots[b].at < |h.offered| && PaidAndFullAgain(h, From(h.slots[a]), h.slots[b].at)
  {
    AllButLastPaid(h, a, b, a);
    assert Explained(h, h.slots[a]) && Explained(h, h.slots[a + 1]) && Explained(h, h.slots[b]);
    assert TiledAt(h.slots, a + 1);
    SlotsAscend(h, a + 1, b);
    var i := h.slots[a].at;
    assert SlotMatches(h.slots[a + 1], h.sent[a + 1], h.offered);
    assert SlotMatches(h.slots[a], h.sent[a], h.offered);
    assert Lost(h, i + 1);
    PaidThenFull(h, i);
  }

  lemma PaidAgainIsManyReports(h: History, a: nat, b: nat, i: nat)
    requires Accounted(h) && Judged(h) && Reports(h, a, b)
    requires From(h.slots[a]) <= i < h.slots[b].at < |h.offered| && Pays(h, i) && FoundFull(h, i + 1)
    ensures b - a > 1
  {
    PaidThenFull(h, i);
    assert Explained(h, h.slots[b]);
    var k := SlotOf(h, a, b, i);
    assert Explained(h, h.slots[k]) && !Lost(h, i);
    assert h.slots[k].Paid? && h.slots[k].at == i;
    assert TiledAt(h.slots, k + 1);
  }

  /**
   How a loss is reported. Between two kept events there is a report exactly when something was lost. There
   is more than one exactly when an offered discontinuity finds a debt and room, and so pays it, and the
   very next offer, still before the next kept event, finds the queue full again.
   */
  lemma LossIsReported(run: seq<Action>, a: nat, b: nat)
    requires Reports(After(run), a, b)
    ensures
      var h := After(run);
      var first, last := From(h.slots[a]), h.slots[b].at;
      && last < |h.offered| == |h.found|
      && (a == b <==> first == last)
      && (b - a > 1 <==> PaidAndFullAgain(h, first, last))
  {
    var h := After(run);
    RunAccounted(run);
    RunJudged(run);
    SlotsAscend(h, a, b);
    assert Explained(h, h.slots[b]);
    if b - a > 1 {
      ManyReportsWerePaid(h, a, b);
    }
    if PaidAndFullAgain(h, From(h.slots[a]), h.slots[b].at) {
      var i :| From(h.slots[a]) <= i < h.slots[b].at && Pays(h, i) && FoundFull(h, i + 1);
      PaidAgainIsManyReports(h, a, b, i);
    }
  }

  // ---------------------------------------------------------------- a loss with two reports

  predicate Full(h: History) {
    h.lane.owed.None? && |h.lane.queue| == CAPACITY && Covered(h.slots) == |h.offered|
  }

  lemma FrameTaken(h: History, e: CaptureEvent)
    requires h.lane.owed.None? && |h.lane.queue| < CAPACITY
    ensures var next := Next(h, DoOffer(e));
            && next.lane == Lane(h.lane.queue + [e], None) && next.slots == h.slots + [Kept(|h.offered|)]
            && next.offered == h.offered + [e]
  {
  }

  lemma {:induction false} Filled(n: nat) returns (run: seq<Action>)
    requires n <= CAPACITY
    ensures var h := After(run);
            h.lane.owed.None? && |h.lane.queue| == n == |h.offered| && Covered(h.slots) == n
  {
    run := [];
    if n > 0 {
      var front := Filled(n - 1);
      Extended(front, DoOffer(Frame(n)));
      FrameTaken(After(front), Frame(n));
      run := front + [DoOffer(Frame(n))];
    }
  }

  lemma Extended(run: seq<Action>, a: Action)
    ensures After(run + [a]) == Next(After(run), a)
  {
    assert (run + [a])[..|run|] == run;
  }

  /** A frame is lost, and the next offered discontinuity takes the one place that came free. */
  lemma LostThenPaid(h: History)
    requires Full(h)
    ensures var next := Next(Next(Next(h, DoOffer(Frame(17))), DoReceive), DoOffer(Discontinuity(5)));
            && Full(next) && next.slots == h.slots + [Paid(|h.offered|, |h.offered| + 1)]
            && |next.offered| == |h.offered| + 2
  {
    var h1 := Next(h, DoOffer(Frame(17)));
    assert h1.lane == Lane(h.lane.queue, Some(0)) && h1.slots == h.slots;
    var h2 := Next(h1, DoReceive);
    assert h2.lane == Lane(h.lane.queue[1..], Some(0)) && h2.slots == h.slots;
  }

  /** A frame is lost, and the next frame that fits brings the owed gap with it. */
  lemma LostThenResumed(h: History)
    requires Full(h)
    ensures var next := Next(Next(Next(Next(h, DoOffer(Frame(18))), DoReceive), DoReceive), DoOffer(Frame(19)));
            next.slots == h.slots + [Gap(|h.offered|, |h.offered| + 1), Kept(|h.offered| + 1)]
  {
    var h1 := Next(h, DoOffer(Frame(18)));
    assert h1.lane == Lane(h.lane.queue, Some(0)) && h1.slots == h.slots;
    var h2 := Next(h1, DoReceive);
    assert h2.lane == Lane(h.lane.queue[1..], Some(0)) && h2.slots == h.slots;
    var h3 := Next(h2, DoReceive);
    assert h3.lane == Lane(h.lane.queue[1..][1..], Some(0)) && h3.slots == h.slots;
  }

  /**
   A loss is not always reported by a single discontinuity: with a full queue, a lost frame, a
   discontinuity that takes the one free place, and another lost frame are reported by two
   discontinuities in a row, although nothing was kept between them.
   */
  lemma TwoReportsForOneLoss() returns (run: seq<Action>, k: nat)
    ensures var h := After(run);
            && k + 1 < |h.sent| == |h.slots| && h.sent[k].Discontinuity? && h.sent[k + 1].Discontinuity?
            && h.slots[k..] == [Paid(CAPACITY, CAPACITY + 1), Gap(CAPACITY + 2, CAPACITY + 3), Kept(CAPACITY + 3)]
  {
    run := Filled(CAPACITY);
    ghost var start := After(run);
    LostThenPaid(start);
    k := |start.slots|;
    run := ExtendedThrice(run, DoOffer(Frame(17)), DoReceive, DoOffer(Discontinuity(5)));
    ghost var middle := After(run);
    LostThenResumed(middle);
    Extended(run, DoOffer(Frame(18)));
    run := ExtendedThrice(run + [DoOffer(Frame(18))], DoReceive, DoReceive, DoOffer(Frame(19)));
    assert After(run).slots[k..] == [Paid(CAPACITY, CAPACITY + 1), Gap(CAPACITY + 2, CAPACITY + 3), Kept(CAPACITY + 3)];
    RunAccounted(run);
    assert SlotMatches(After(run).slots[k], After(run).sent[k], After(run).offered);
    assert SlotMatches(After(run).slots[k + 1], After(run).sent[k + 1], After(run).offered);
  }

  lemma ExtendedThrice(run: seq<Action>, a: Action, b: Action, c: Action) returns (more: seq<Action>)
    ensures After(more) == Next(Next(Next(After(run), a), b), c)
  {
    Extended(run, a);
    Extended(run + [a], b);
    Extended(run + [a] + [b], c);
    more := run + [a] + [b] + [c];
  }

  // ---------------------------------------------------------------- exactly what is lost

  /** The sent event that stands for offered event `i` itself. */
  predicate Answers(s: Slot, i: nat) {
    s == Kept(i) || (s.Paid? && s.at == i)
  }

  ghost predicate Answered(h: History, i: nat) {
    exists k :: 0 <= k < |h.slots| && Answers(h.slots[k], i)
  }

  ghost predicate AnsweredUnlessLost(h: History) {
    && |h.offered| == |h.found|
    && (forall i :: 0 <= i < |h.offered| ==> (Answered(h, i) <==> !Lost(h, i)))
    && (forall k :: 0 <= k < |h.slots| ==> Upto(h.slots[k]) <= |h.offered|)
  }

  lemma OfferAnswered(h: History, e: CaptureEvent)
    requires AnsweredUnlessLost(h)
    ensures AnsweredUnlessLost(Next(h, DoOffer(e)))
  {
    var next, n := Next(h, DoOffer(e)), |h.offered|;
    forall i | 0 <= i < |next.offered| ensures Answered(next, i) <==> !Lost(next, i) {
      if i < n {
        assert Lost(next, i) == Lost(h, i);
        if Answered(h, i) {
          var k :| 0 <= k < |h.slots| && Answers(h.slots[k], i);
          assert Answers(next.slots[k], i);
        }
      } else if Admitted(h.lane, e) != [] {
        assert Answers(next.slots[|next.slots| - 1], n);
      }
    }
  }

  lemma ReceiveAnswered(h: History)
    requires AnsweredUnlessLost(h)
    ensures AnsweredUnlessLost(Next(h, DoReceive))
  {
    var next := Next(h, DoReceive);
    assert next.slots == h.slots && next.offered == h.offered && next.found == h.found;
    forall i | 0 <= i < |next.offered| ensures Answered(next, i) <==> !Lost(next, i) {
      assert Answered(next, i) == Answered(h, i) && Lost(next, i) == Lost(h, i);
    }
  }

  lemma {:induction false} RunAnswered(run: seq<Action>)
    ensures AnsweredUnlessLost(After(run))
  {
    if run != [] {
      RunAnswered(run[..|run| - 1]);
      var a := run[|run| - 1];
      if a.DoOffer? {
        OfferAnswered(After(run[..|run| - 1]), a.event);
      } else {
        ReceiveAnswered(After(run[..|run| - 1]));
      }
    }
  }

  /**
   An offered event is not sent, in any interleaving, if and only if it finds all 16 places taken, or it is a
   frame, finds a single place free, and the offer before it was not sent either.
   */
  lemma LostExactly(run: seq<Action>, i: nat)
    requires i < |After(run).offered|
    ensures
      var h := After(run);
      && |h.found| == |h.offered|
      && (!Answered(h, i) <==>
            || |h.found[i].queue| >= 16
            || (|h.found[i].queue| == 15 && h.offered[i].Frame? && i > 0 && !Answered(h, i - 1)))
  {
    var h := After(run);
    RunAnswered(run);
    RunJudged(run);
    FoundOwed(run, i);
  }

  /** A debt is found exactly by the offer after one that was lost. */
  lemma FoundOwed(run: seq<Action>, i: nat)
    requires i < |After(run).offered|
    ensures |After(run).found| == |After(run).offered|
    ensures After(run).found[i].owed.Some? <==> i > 0 && Lost(After(run), i - 1)
  {
    var h := After(run);
    RunJudged(run);
    if i > 0 {
      assert LinkedAt(h, i - 1);
    } else {
      FirstOwesNothing(run);
    }
  }

  lemma {:induction false} FirstOwesNothing(run: seq<Action>)
    ensures
      var h := After(run);
      && |h.found| == |h.offered| && (h.offered != [] ==> h.found[0].owed.None?)
      && (h.offered == [] ==> h.lane.owed.None?)
  {
    if run != [] { FirstOwesNothing(run[..|run| - 1]); }
  }

  /** What is reported for a loss carries the time of the first event lost, if that was a discontinuity itself. */
  lemma ReportedTime(run: seq<Action>, k: nat)
    requires k < |After(run).slots| && !After(run).slots[k].Kept?
    ensures
      var h := After(run);
      && k < |h.sent| && h.slots[k].lo < |h.offered|
      && h.sent[k] == (match h.offered[h.slots[k].lo]
                       case Discontinuity(at) => Discontinuity(at)
                       case Frame(_) => Discontinuity(0))
  {
    var h := After(run);
    RunAccounted(run);
    assert Matches(h.slots, h.sent, h.offered);
    SlotTime(h.slots[k], h.sent[k], h.offered);
  }

  lemma SlotTime(s: Slot, sent: CaptureEvent, offered: seq<CaptureEvent>)
    requires SlotMatches(s, sent, offered) && !s.Kept?
    ensures s.lo < |offered|
    ensures sent == match offered[s.lo] case Discontinuity(at) => Discontinuity(at) case Frame(_) => Discontinuity(0)
  {
  }

  // ---------------------------------------------------------------- the lane

  /** The lane's own record, updated in place. */
  class RecognitionLane {
    var queue: seq<CaptureEvent>
    var owed: Option<nat>
    /** Everything offered and received so far. */
    ghost var run: seq<Action>

    ghost function Value(): Lane
      reads this
    {
      Lane(queue, owed)
    }

    /** The lane is where its history has led it: what holds after every run holds of this object. */
    ghost predicate Valid()
      reads this
    {
      After(run).lane == Value()
    }

    constructor ()
      ensures Valid() && run == []
    {
      queue, owed, run := [], None, [];
    }

    method TrySend(e: CaptureEvent) returns (ok: bool)
      modifies this`queue
      ensures ok == (|old(queue)| < CAPACITY)
      ensures queue == if ok then old(queue) + [e] else old(queue)
    {
      ok := |queue| < CAPACITY;
      if ok { queue := queue + [e]; }
    }

    method OfferEvent(e: CaptureEvent)
      requires Valid()
      modifies this
      ensures Valid() && run == old(run) + [DoOffer(e)]
      ensures Value() == Offer(old(Value()), e)
    {
      Extended(run, DoOffer(e));
      run := run + [DoOffer(e)];
      if owed.None? {
        var ok := TrySend(e);
        if !ok { owed := Some(match e case Discontinuity(atMs) => atMs case Frame(_) => 0); }
      } else if e.Discontinuity? {
        var ok := TrySend(Discontinuity(owed.value));
        if ok { owed := None; }
      } else if CAPACITY - |queue| >= 2 {
        var first := TrySend(Discontinuity(owed.value));
        var second := TrySend(e);
        owed := None;
      }
    }

    /** What the recogniser receives is the next event of the stream its offers have sent. */
    method Receive() returns (e: Option<CaptureEvent>)
      requires Valid()
      modifies this`queue, this`run
      ensures Valid() && run == old(run) + [DoReceive]
      ensures e.None? <==> old(queue) == []
      ensures e.Some? ==> After(run).delivered == After(old(run)).delivered + [e.value]
      ensures e.Some? ==>
                && |After(run).delivered| <= |After(run).sent|
                && After(run).sent[|After(run).delivered| - 1] == e.value
    {
      Extended(run, DoReceive);
      run := run + [DoReceive];
      RunAccounted(run);
      if queue == [] { return None; }
      e := Some(queue[0]);
      queue := queue[1..];
    }
  }
}
