/**
 What a retrieval selects, in which order, and how it accounts for the rest, stated on the rows alone: which
 rows qualify and for which reason, which of two outranks the other, and which reason excludes a row.
 */
module RetrievalRules {
  import opened Wrappers
  import opened MemoryRows
  import opened Retrieval

  // ---------------------------------------------------------------- rows

  /** The row lies in the past in every respect. */
  predicate Known(row: Row, now: nat) {
    row.createdAt <= now && row.updatedAt <= now && (row.lastUsed.Some? ==> row.lastUsed.value <= now)
  }

  /** Its time is over, whether a sweep has noticed or not. */
  predicate Past(row: Row, now: nat) {
    || row.state == Expired
    || (row.retention.WorkingUntil? && row.retention.expires <= now)
    || (row.retention.Until? && row.retention.expires <= now)
  }

  predicate Qualifies(row: Row, now: nat) {
    Known(row, now) && !Past(row, now) && row.state == Active
  }

  /** The one reason for which a row is worth retrieving. */
  predicate Deserves(row: Row, lens: Lens, reason: Reason) {
    var found := lens.relevance(row.content);
    match reason
    case PinnedMatch => row.pinned && found != Neither
    case ExactPhrase => !row.pinned && found == Exact
    case SharedTerm => !row.pinned && found == Shared
    case RecentWorking => found == Neither && row.kind == Working
  }

  /** The earlier reason of the four goes first. */
  predicate Leads(a: Reason, b: Reason) {
    || (a == PinnedMatch && b != PinnedMatch)
    || (a == ExactPhrase && (b == SharedTerm || b == RecentWorking))
    || (a == SharedTerm && b == RecentWorking)
  }

  /** The row was used last at this time, or made then and never used. */
  predicate LastTouched(row: Row, at: nat) {
    row.lastUsed == Some(at) || (row.lastUsed == None && row.createdAt == at)
  }

  ghost predicate Fresher(a: Row, b: Row) {
    exists x, y :: LastTouched(a, x) && LastTouched(b, y) && x > y
  }

  /** A leading reason, or for the same reason more confidence, or then the fresher one, or then the smaller id. */
  ghost predicate Outranks(x: Ranked, y: Ranked) {
    var a, b := x.item.row, y.item.row;
    || Leads(x.reason, y.reason)
    || (x.reason == y.reason && a.confidence > b.confidence)
    || (x.reason == y.reason && a.confidence == b.confidence && Fresher(a, b))
    || (x.reason == y.reason && a.confidence == b.confidence && !Fresher(a, b) && !Fresher(b, a)
        && x.item.id < y.item.id)
  }

  lemma BeforeIsOutranking(x: Ranked, y: Ranked)
    ensures Before(x, y) <==> Outranks(x, y)
  {
    var a, b := x.item.row, y.item.row;
    assert LastTouched(a, Recency(a)) && LastTouched(b, Recency(b));
  }

  lemma FateIsDeserved(s: Stored, now: nat, lens: Lens, reason: Reason)
    ensures FateOf(s, now, lens) == Chosen(reason) <==> Qualifies(s.row, now) && Deserves(s.row, lens, reason)
    ensures FateOf(s, now, lens) == ByState <==>
              !Known(s.row, now) || (!Past(s.row, now) && s.row.state != Active)
    ensures FateOf(s, now, lens) == ByExpiry <==> Known(s.row, now) && Past(s.row, now)
    ensures FateOf(s, now, lens) == ByRelevance <==>
              Qualifies(s.row, now) && lens.relevance(s.row.content) == Neither && s.row.kind != Working
  {
  }

  // ---------------------------------------------------------------- what is selected

  /** The members of the list that outrank `x`, and the bytes of a list. */
  ghost function Ahead(s: seq<Ranked>, x: Ranked): seq<Ranked> {
    if s == [] then []
    else if Outranks(s[0], x) then [s[0]] + Ahead(s[1..], x) else Ahead(s[1..], x)
  }

  function Weight(s: seq<Ranked>, lens: Lens): nat {
    if s == [] then 0 else lens.size(s[0].item.row.content) + Weight(s[1..], lens)
  }

  /** Worth it, and the better ones of the selection leave a place and the bytes for it. */
  ghost predicate Chooses(selected: seq<Ranked>, x: Ranked, now: nat, lens: Lens, maxItems: nat, maxBytes: nat) {
    && Qualifies(x.item.row, now) && Deserves(x.item.row, lens, x.reason)
    && |Ahead(selected, x)| < maxItems
    && Weight(Ahead(selected, x), lens) + lens.size(x.item.row.content) <= maxBytes
  }

  lemma {:induction false} BetterIsAhead(s: seq<Ranked>, x: Ranked)
    ensures Better(s, x) == Ahead(s, x)
  {
    if s != [] {
      var front, last := s[..|s| - 1], s[|s| - 1];
      BetterIsAhead(front, x);
      AheadAppends(front, last, x);
      BeforeIsOutranking(last, x);
      assert s == front + [last];
    }
  }

  lemma {:induction false} AheadAppends(s: seq<Ranked>, y: Ranked, x: Ranked)
    ensures Ahead(s + [y], x) == Ahead(s, x) + if Outranks(y, x) then [y] else []
  {
    if s == [] {
      assert s + [y] == [y] && [y][1..] == [];
    } else {
      AheadAppends(s[1..], y, x);
      assert (s + [y])[1..] == s[1..] + [y];
    }
  }

  lemma {:induction false} BytesAreWeight(s: seq<Ranked>, lens: Lens)
    ensures Bytes(s, lens) == Weight(s, lens)
  {
    if s != [] {
      var front, last := s[..|s| - 1], s[|s| - 1];
      BytesAreWeight(front, lens);
      WeightAppends(front, last, lens);
      assert s == front + [last];
    }
  }

  lemma {:induction false} WeightAppends(s: seq<Ranked>, y: Ranked, lens: Lens)
    ensures Weight(s + [y], lens) == Weight(s, lens) + lens.size(y.item.row.content)
  {
    if s == [] {
      assert s + [y] == [y] && [y][1..] == [];
    } else {
      WeightAppends(s[1..], y, lens);
      assert (s + [y])[1..] == s[1..] + [y];
    }
  }

  /**
   In the selection a pinned match precedes an exact phrase, that a shared term, and that recent working
   memory; for one reason more confidence comes first, then the later use or making, then the smaller id.
   */
  lemma SelectedAsRanked(records: seq<Stored>, now: nat, lens: Lens, maxItems: nat, maxBytes: nat)
    requires Distinct(records)
    ensures
      var selected := Select(records, now, lens, maxItems, maxBytes).selected;
      forall i, j :: 0 <= i < j < |selected| ==> Outranks(selected[i], selected[j])
  {
    var selected := Select(records, now, lens, maxItems, maxBytes).selected;
    SelectionIsBounded(records, now, lens, maxItems, maxBytes);
    forall i, j | 0 <= i < j < |selected| ensures Outranks(selected[i], selected[j]) {
      BeforeIsOutranking(selected[i], selected[j]);
    }
  }

  /**
   A record is selected for a reason if and only if it qualifies and deserves it, fewer than the item limit of
   those selected outrank it, and it fits beside those within the byte limit.
   */
  lemma SelectedExactly(records: seq<Stored>, now: nat, lens: Lens, maxItems: nat, maxBytes: nat, x: Ranked)
    requires Distinct(records)
    ensures
      var selected := Select(records, now, lens, maxItems, maxBytes).selected;
      x in selected <==> x.item in records && Chooses(selected, x, now, lens, maxItems, maxBytes)
  {
    var selected := Select(records, now, lens, maxItems, maxBytes).selected;
    SelectedExactlyWhenItFits(records, now, lens, maxItems, maxBytes, x);
    FateIsDeserved(x.item, now, lens, x.reason);
    BetterIsAhead(selected, x);
    BytesAreWeight(Ahead(selected, x), lens);
  }

  // ---------------------------------------------------------------- the exclusion counts

  ghost function Tally(records: seq<Stored>, excluded: Row -> bool): nat {
    if records == [] then 0 else (if excluded(records[0].row) then 1 else 0) + Tally(records[1..], excluded)
  }

  function OutOfState(now: nat): Row -> bool {
    (row: Row) => !Known(row, now) || (!Past(row, now) && row.state != Active)
  }

  function OutOfTime(now: nat): Row -> bool { (row: Row) => Known(row, now) && Past(row, now) }

  function OffTopic(now: nat, lens: Lens): Row -> bool {
    (row: Row) => Qualifies(row, now) && lens.relevance(row.content) == Neither && row.kind != Working
  }

  lemma {:induction false} TallyAppends(records: seq<Stored>, x: Stored, excluded: Row -> bool)
    ensures Tally(records + [x], excluded) == Tally(records, excluded) + if excluded(x.row) then 1 else 0
  {
    if records == [] {
      assert records + [x] == [x] && [x][1..] == [];
    } else {
      TallyAppends(records[1..], x, excluded);
      assert (records + [x])[1..] == records[1..] + [x];
    }
  }

  /** Exactly the rows not known or not active are counted out by state, the past ones by expiry, the rest by topic. */
  lemma {:induction false} ExclusionsAreTallied(records: seq<Stored>, now: nat, lens: Lens)
    ensures CountOf(records, now, lens, ByState) == Tally(records, OutOfState(now))
    ensures CountOf(records, now, lens, ByExpiry) == Tally(records, OutOfTime(now))
    ensures CountOf(records, now, lens, ByRelevance) == Tally(records, OffTopic(now, lens))
  {
    if records != [] {
      var front, last := records[..|records| - 1], records[|records| - 1];
      ExclusionsAreTallied(front, now, lens);
      FateIsDeserved(last, now, lens, PinnedMatch);
      TallyAppends(front, last, OutOfState(now));
      TallyAppends(front, last, OutOfTime(now));
      TallyAppends(front, last, OffTopic(now, lens));
      assert records == front + [last];
    }
  }

  /** The counts a selection reports. */
  lemma CountedExactly(records: seq<Stored>, now: nat, lens: Lens, maxItems: nat, maxBytes: nat)
    ensures
      var e := Select(records, now, lens, maxItems, maxBytes).exclusions;
      && e.state == Tally(records, OutOfState(now)) && e.expiry == Tally(records, OutOfTime(now))
      && e.relevance == Tally(records, OffTopic(now, lens))
  {
    ExclusionsAreTallied(records, now, lens);
  }

  method SelectRecords(records: seq<Stored>, now: nat, lens: Lens, maxItems: nat, maxBytes: nat) returns (r: Selection)
    ensures r == Select(records, now, lens, maxItems, maxBytes)
    ensures Distinct(records) ==>
              && (forall i, j :: 0 <= i < j < |r.selected| ==> Outranks(r.selected[i], r.selected[j]))
              && (forall x :: x in r.selected <==>
                    x.item in records && Chooses(r.selected, x, now, lens, maxItems, maxBytes))
  {
    var ranked: seq<Ranked> := [];
    var byState, byExpiry, byRelevance := 0, 0, 0;
    for i := 0 to |records|
      invariant ranked == RanksOf(records[..i], now, lens)
      invariant byState == CountOf(records[..i], now, lens, ByState)
      invariant byExpiry == CountOf(records[..i], now, lens, ByExpiry)
      invariant byRelevance == CountOf(records[..i], now, lens, ByRelevance)
    {
      assert records[..i + 1][..i] == records[..i];
      var row := records[i].row;
      if row.createdAt > now || row.updatedAt > now || (row.lastUsed.Some? && row.lastUsed.value > now) {
        byState := byState + 1;
        continue;
      }
      if row.state.Expired? || (Expiring(row.retention) && now >= row.retention.expires) {
        byExpiry := byExpiry + 1;
        continue;
      }
      if !row.state.Active? {
        byState := byState + 1;
        continue;
      }
      var found := lens.relevance(row.content);
      var reason: Option<Reason> := None;
      if row.pinned && !found.Neither? {
        reason := Some(PinnedMatch);
      } else if found.Exact? {
        reason := Some(ExactPhrase);
      } else if found.Shared? {
        reason := Some(SharedTerm);
      } else if row.kind.Working? {
        reason := Some(RecentWorking);
      }
      if reason.None? {
        byRelevance := byRelevance + 1;
        continue;
      }
      ranked := ranked + [Ranked(records[i], reason.value)];
    }
    assert records[..|records|] == records;
    var sorted := Sort(ranked);
    var selected: seq<Ranked> := [];
    var used: nat, byItems: nat, byBytes: nat := 0, 0, 0;
    for i := 0 to |sorted|
      invariant Pass(selected, used, byItems, byBytes) == Greedy(sorted, i, lens, maxItems, maxBytes)
    {
      var size := lens.size(sorted[i].item.row.content);
      if |selected| == maxItems {
        byItems := byItems + 1;
      } else if used + size > maxBytes {
        byBytes := byBytes + 1;
      } else {
        used := used + size;
        selected := selected + [sorted[i]];
      }
    }
    r := Selection(selected, Exclusions(byState, byExpiry, byRelevance, byItems, byBytes));
    if Distinct(records) {
      SelectedAsRanked(records, now, lens, maxItems, maxBytes);
      forall x ensures x in selected <==> x.item in records && Chooses(selected, x, now, lens, maxItems, maxBytes) {
        SelectedExactly(records, now, lens, maxItems, maxBytes, x);
      }
    }
  }
}
