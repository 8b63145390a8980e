/**
 Ranked, bounded selection of memories for a turn: classification, a total ranking on distinct ids, and a
 greedy pass under an item and a byte limit. How text is matched and measured is a parameter.
 */
module Retrieval {
  import opened Wrappers
  import opened MemoryRows

  datatype Stored = Stored(id: nat, row: Row)

  datatype Match = Exact | Shared | Neither

  /** How the normalized query matches a content, and how many bytes a content takes. */
  datatype Lens = Lens(relevance: string -> Match, size: string -> nat)

  datatype Reason = PinnedMatch | ExactPhrase | SharedTerm | RecentWorking

  datatype Fate = ByState | ByExpiry | ByRelevance | Chosen(reason: Reason)

  datatype Ranked = Ranked(item: Stored, reason: Reason)

  datatype Exclusions = Exclusions(state: nat, expiry: nat, relevance: nat, items: nat, bytes: nat)

  datatype Selection = Selection(selected: seq<Ranked>, exclusions: Exclusions)

  predicate FromTheFuture(row: Row, now: nat) {
    row.createdAt > now || row.updatedAt > now || (row.lastUsed.Some? && row.lastUsed.value > now)
  }

  function FateOf(s: Stored, now: nat, lens: Lens): Fate {
    if FromTheFuture(s.row, now) then ByState
    else if s.row.state.Expired? || (Expiring(s.row.retention) && now >= s.row.retention.expires) then ByExpiry
    else if !s.row.state.Active? then ByState
    else
      var found := lens.relevance(s.row.content);
      if s.row.pinned && !found.Neither? then Chosen(PinnedMatch)
      else if found.Exact? then Chosen(ExactPhrase)
      else if found.Shared? then Chosen(SharedTerm)
      else if s.row.kind.Working? then Chosen(RecentWorking)
      else ByRelevance
  }

  // ---------------------------------------------------------------- ranking

  function Priority(r: Reason): nat {
    match r
    case PinnedMatch => 4
    case ExactPhrase => 3
    case SharedTerm => 2
    case RecentWorking => 1
  }

  function Recency(row: Row): nat {
    if row.lastUsed.Some? then row.lastUsed.value else row.createdAt
  }

  /** Better ranked: higher priority, then confidence, then recency, then the smaller id. */
  predicate Before(a: Ranked, b: Ranked) {
    if Priority(a.reason) != Priority(b.reason) then Priority(a.reason) > Priority(b.reason)
    else if a.item.row.confidence != b.item.row.confidence then a.item.row.confidence > b.item.row.confidence
    else if Recency(a.item.row) != Recency(b.item.row) then Recency(a.item.row) > Recency(b.item.row)
    else a.item.id < b.item.id
  }

  ghost predicate Ordered(s: seq<Ranked>) {
    forall i, j :: 0 <= i < j < |s| ==> Before(s[i], s[j])
  }

  ghost predicate Distinct(s: seq<Stored>) {
    forall i, j :: 0 <= i < j < |s| ==> s[i].id != s[j].id
  }

  ghost predicate DistinctRanks(s: seq<Ranked>) {
    forall i, j :: 0 <= i < j < |s| ==> s[i].item.id != s[j].item.id
  }

  function Inserted(s: seq<Ranked>, x: Ranked): seq<Ranked> {
    if s == [] then [x]
    else if Before(x, s[0]) then [x] + s
    else [s[0]] + Inserted(s[1..], x)
  }

  /** The sort: each ranked record is put after every one it does not come before. */
  function Sort(s: seq<Ranked>): seq<Ranked> {
    if s == [] then [] else Inserted(Sort(s[..|s| - 1]), s[|s| - 1])
  }

  lemma MembersFront(x: Ranked, s: seq<Ranked>)
    ensures multiset([x] + s) == multiset{x} + multiset(s)
  {
  }

  lemma {:induction false} InsertedMembers(s: seq<Ranked>, x: Ranked)
    ensures multiset(Inserted(s, x)) == multiset(s) + multiset{x}
  {
    if s == [] {
    } else if Before(x, s[0]) {
      MembersFront(x, s);
    } else {
      var first, rest := s[0], s[1..];
      InsertedMembers(rest, x);
      MembersFront(first, Inserted(rest, x));
      MembersFront(first, rest);
      assert s == [first] + rest;
    }
  }

  lemma OrderedCons(x: Ranked, s: seq<Ranked>)
    requires Ordered(s) && forall i :: 0 <= i < |s| ==> Before(x, s[i])
    ensures Ordered([x] + s)
  {
  }

  lemma {:induction false} InsertedOrdered(s: seq<Ranked>, x: Ranked)
    requires Ordered(s) && forall i :: 0 <= i < |s| ==> s[i].item.id != x.item.id
    ensures Ordered(Inserted(s, x))
  {
    if s != [] && Before(x, s[0]) {
      OrderedCons(x, s);
    } else if s != [] {
      InsertedOrdered(s[1..], x);
      InsertedMembers(s[1..], x);
      var rest := Inserted(s[1..], x);
      forall j | 0 <= j < |rest| ensures Before(s[0], rest[j]) {
        assert rest[j] in multiset(rest);
        assert rest[j] == x || rest[j] in s[1..];
      }
      OrderedCons(s[0], rest);
    }
  }

  lemma {:induction false} SortIs(s: seq<Ranked>)
    requires DistinctRanks(s)
    ensures multiset(Sort(s)) == multiset(s) && Ordered(Sort(s))
  {
    if s != [] {
      var front, x := s[..|s| - 1], s[|s| - 1];
      SortIs(front);
      assert s == front + [x];
      forall i | 0 <= i < |Sort(front)| ensures Sort(front)[i].item.id != x.item.id {
        assert Sort(front)[i] in multiset(Sort(front));
        assert Sort(front)[i] in front;
      }
      InsertedMembers(Sort(front), x);
      InsertedOrdered(Sort(front), x);
    }
  }

  lemma SameFirst(s: seq<Ranked>, t: seq<Ranked>)
    requires Ordered(s) && Ordered(t) && s != [] && t != [] && s[0] in t && t[0] in s
    ensures s[0] == t[0]
  {
    var i :| 0 <= i < |s| && s[i] == t[0];
    var j :| 0 <= j < |t| && t[j] == s[0];
    assert i > 0 ==> Before(s[0], s[i]);
    assert j > 0 ==> Before(t[0], t[j]);
  }

  lemma SameRest<T>(s: seq<T>, t: seq<T>)
    requires multiset(s) == multiset(t) && s != [] && t != [] && s[0] == t[0]
    ensures multiset(s[1..]) == multiset(t[1..])
  {
    assert s == [s[0]] + s[1..] && t == [t[0]] + t[1..];
    assert multiset(s[1..]) == multiset(s) - multiset{s[0]};
    assert multiset(t[1..]) == multiset(t) - multiset{t[0]};
  }

  /** A ranking order is determined by its members. */
  lemma {:induction false} OrderIsUnique(s: seq<Ranked>, t: seq<Ranked>)
    requires Ordered(s) && Ordered(t) && multiset(s) == multiset(t)
    ensures s == t
  {
    SameSize(s, t);
    if s != [] {
      assert s[0] in multiset(t) && t[0] in multiset(s);
      SameFirst(s, t);
      SameRest(s, t);
      OrderIsUnique(s[1..], t[1..]);
      assert s == [s[0]] + s[1..] && t == [t[0]] + t[1..];
    }
  }

  lemma SameSize<T>(s: seq<T>, t: seq<T>)
    requires multiset(s) == multiset(t)
    ensures |s| == |t|
  {
    assert |multiset(s)| == |s| && |multiset(t)| == |t|;
  }

  lemma Removed<T>(s: seq<T>, at: nat)
    requires at < |s|
    ensures multiset(s[..at] + s[at + 1..]) == multiset(s) - multiset{s[at]}
  {
    assert s == s[..at] + [s[at]] + s[at + 1..];
  }

  // ---------------------------------------------------------------- classification of a list

  function RanksOf(records: seq<Stored>, now: nat, lens: Lens): seq<Ranked> {
    if records == [] then []
    else
      var last := records[|records| - 1];
      var fate := FateOf(last, now, lens);
      RanksOf(records[..|records| - 1], now, lens) + if fate.Chosen? then [Ranked(last, fate.reason)] else []
  }

  function CountOf(records: seq<Stored>, now: nat, lens: Lens, fate: Fate): nat {
    if records == [] then 0
    else CountOf(records[..|records| - 1], now, lens, fate) +
         if FateOf(records[|records| - 1], now, lens) == fate then 1 else 0
  }

  lemma {:induction false} RanksCount(records: seq<Stored>, now: nat, lens: Lens, x: Ranked)
    ensures multiset(RanksOf(records, now, lens))[x] ==
            if FateOf(x.item, now, lens) == Chosen(x.reason) then multiset(records)[x.item] else 0
  {
    if records != [] {
      var front, last := records[..|records| - 1], records[|records| - 1];
      assert records == front + [last];
      RanksCount(front, now, lens, x);
    }
  }

  lemma {:induction false} RanksFrom(records: seq<Stored>, now: nat, lens: Lens)
    requires Distinct(records)
    ensures DistinctRanks(RanksOf(records, now, lens))
    ensures forall x :: x in RanksOf(records, now, lens) <==>
            x.item in records && FateOf(x.item, now, lens) == Chosen(x.reason)
  {
    if records != [] {
      var front, last := records[..|records| - 1], records[|records| - 1];
      assert records == front + [last];
      RanksFrom(front, now, lens);
    }
  }

  lemma {:induction false} CountJoins(a: seq<Stored>, b: seq<Stored>, now: nat, lens: Lens, fate: Fate)
    ensures CountOf(a + b, now, lens, fate) == CountOf(a, now, lens, fate) + CountOf(b, now, lens, fate)
    decreases |b|
  {
    if b == [] {
      assert a + b == a;
    } else {
      var n := |b| - 1;
      assert (a + b)[..|a + b| - 1] == a + b[..n];
      CountJoins(a, b[..n], now, lens, fate);
    }
  }

  lemma CountOne(x: Stored, now: nat, lens: Lens, fate: Fate)
    ensures CountOf([x], now, lens, fate) == if FateOf(x, now, lens) == fate then 1 else 0
  {
    assert [x][..0] == [];
  }

  lemma CountWithout(s: seq<Stored>, at: nat, now: nat, lens: Lens, fate: Fate)
    requires at < |s|
    ensures CountOf(s, now, lens, fate) ==
            CountOf(s[..at] + s[at + 1..], now, lens, fate) + CountOf([s[at]], now, lens, fate)
  {
    var front, x, back := s[..at], [s[at]], s[at + 1..];
    assert s == front + x + back;
    CountJoins(front + x, back, now, lens, fate);
    CountJoins(front, x, now, lens, fate);
    CountJoins(front, back, now, lens, fate);
  }

  /** Where the last member of one list stands in another with the same members. */
  lemma PlaceOf<T>(s: seq<T>, t: seq<T>) returns (at: nat)
    requires multiset(s) == multiset(t) && s != []
    ensures at < |t| && t[at] == s[|s| - 1]
    ensures multiset(s[..|s| - 1]) == multiset(t[..at] + t[at + 1..])
  {
    var last := s[|s| - 1];
    assert last in multiset(t);
    at :| 0 <= at < |t| && t[at] == last;
    Removed(t, at);
    Removed(s, |s| - 1);
    assert s[..|s| - 1] + s[|s|..] == s[..|s| - 1];
  }

  lemma {:induction false} CountIgnoresOrder(s: seq<Stored>, t: seq<Stored>, now: nat, lens: Lens, fate: Fate)
    requires multiset(s) == multiset(t)
    ensures CountOf(s, now, lens, fate) == CountOf(t, now, lens, fate)
    decreases |s|
  {
    SameSize(s, t);
    if s != [] {
      var n := |s| - 1;
      var at := PlaceOf(s, t);
      CountIgnoresOrder(s[..n], t[..at] + t[at + 1..], now, lens, fate);
      CountWithout(t, at, now, lens, fate);
      CountOne(t[at], now, lens, fate);
    }
  }

  lemma {:induction false} EveryRecordHasAFate(records: seq<Stored>, now: nat, lens: Lens)
    ensures CountOf(records, now, lens, ByState) + CountOf(records, now, lens, ByExpiry)
            + CountOf(records, now, lens, ByRelevance) + |RanksOf(records, now, lens)| == |records|
  {
    if records != [] {
      EveryRecordHasAFate(records[..|records| - 1], now, lens);
    }
  }

  // ---------------------------------------------------------------- the greedy pass

  datatype Pass = Pass(selected: seq<Ranked>, used: nat, items: nat, bytes: nat)

  function Taken(p: Pass, x: Ranked, lens: Lens, maxItems: nat, maxBytes: nat): Pass {
    if |p.selected| == maxItems then p.(items := p.items + 1)
    else if p.used + lens.size(x.item.row.content) > maxBytes then p.(bytes := p.bytes + 1)
    else p.(selected := p.selected + [x], used := p.used + lens.size(x.item.row.content))
  }

  /** The pass over the first `n` records in rank order. */
  function Greedy(s: seq<Ranked>, n: nat, lens: Lens, maxItems: nat, maxBytes: nat): Pass
    requires n <= |s|
  {
    if n == 0 then Pass([], 0, 0, 0)
    else Taken(Greedy(s, n - 1, lens, maxItems, maxBytes), s[n - 1], lens, maxItems, maxBytes)
  }

  function Select(records: seq<Stored>, now: nat, lens: Lens, maxItems: nat, maxBytes: nat): Selection {
    var s := Sort(RanksOf(records, now, lens));
    var p := Greedy(s, |s|, lens, maxItems, maxBytes);
    Selection(p.selected, Exclusions(CountOf(records, now, lens, ByState), CountOf(records, now, lens, ByExpiry),
                                     CountOf(records, now, lens, ByRelevance), p.items, p.bytes))
  }

  // ---------------------------------------------------------------- what selection guarantees

  function Bytes(s: seq<Ranked>, lens: Lens): nat {
    if s == [] then 0 else Bytes(s[..|s| - 1], lens) + lens.size(s[|s| - 1].item.row.content)
  }

  /** The members of a list ranked better than `x`. */
  function Better(s: seq<Ranked>, x: Ranked): seq<Ranked> {
    if s == [] then []
    else Better(s[..|s| - 1], x) + if Before(s[|s| - 1], x) then [s[|s| - 1]] else []
  }

  ghost predicate Within(p: Pass, seen: seq<Ranked>, lens: Lens, maxItems: nat, maxBytes: nat) {
    && |p.selected| <= maxItems && p.used == Bytes(p.selected, lens) <= maxBytes
    && |p.selected| + p.items + p.bytes == |seen|
    && Ordered(p.selected)
    && forall i :: 0 <= i < |p.selected| ==> p.selected[i] in seen
  }

  lemma TakenWithin(p: Pass, seen: seq<Ranked>, x: Ranked, lens: Lens, maxItems: nat, maxBytes: nat)
    requires Within(p, seen, lens, maxItems, maxBytes)
    requires forall y :: y in seen ==> Before(y, x)
    ensures Within(Taken(p, x, lens, maxItems, maxBytes), seen + [x], lens, maxItems, maxBytes)
  {
    var q := Taken(p, x, lens, maxItems, maxBytes);
    if q.selected != p.selected {
      assert q.selected[..|q.selected| - 1] == p.selected;
      forall i, j | 0 <= i < j < |q.selected| ensures Before(q.selected[i], q.selected[j]) {
        if j < |p.selected| { assert Before(p.selected[i], p.selected[j]); } else { assert p.selected[i] in seen; }
      }
    }
  }

  lemma {:induction false} GreedyBounds(s: seq<Ranked>, n: nat, lens: Lens, maxItems: nat, maxBytes: nat)
    requires n <= |s| && Ordered(s)
    ensures Within(Greedy(s, n, lens, maxItems, maxBytes), s[..n], lens, maxItems, maxBytes)
  {
    if n > 0 {
      GreedyBounds(s, n - 1, lens, maxItems, maxBytes);
      FrontIsBefore(s, n - 1);
      TakenWithin(Greedy(s, n - 1, lens, maxItems, maxBytes), s[..n - 1], s[n - 1], lens, maxItems, maxBytes);
    }
  }

  lemma FrontIsBefore(s: seq<Ranked>, n: nat)
    requires n < |s| && Ordered(s)
    ensures forall y :: y in s[..n] ==> Before(y, s[n])
    ensures s[..n + 1] == s[..n] + [s[n]]
  {
  }

  lemma {:induction false} BetterAll(s: seq<Ranked>, x: Ranked)
    requires forall y :: y in s ==> Before(y, x)
    ensures Better(s, x) == s
  {
    if s != [] {
      BetterAll(s[..|s| - 1], x);
    }
  }

  lemma BetterTaken(p: Pass, y: Ranked, x: Ranked, lens: Lens, maxItems: nat, maxBytes: nat)
    requires !Before(y, x)
    ensures Better(Taken(p, y, lens, maxItems, maxBytes).selected, x) == Better(p.selected, x)
  {
    assert (p.selected + [y])[..|p.selected|] == p.selected;
  }

  /** What was selected among the better ranked is what the pass held when it reached the record. */
  lemma {:induction false} BetterIsPrefix(s: seq<Ranked>, k: nat, n: nat, lens: Lens, maxItems: nat, maxBytes: nat)
    requires k < |s| && k <= n <= |s| && Ordered(s)
    ensures Better(Greedy(s, n, lens, maxItems, maxBytes).selected, s[k]) ==
            Greedy(s, k, lens, maxItems, maxBytes).selected
    decreases n
  {
    if n == k {
      GreedyBounds(s, k, lens, maxItems, maxBytes);
      BetterAll(Greedy(s, k, lens, maxItems, maxBytes).selected, s[k]);
    } else {
      BetterIsPrefix(s, k, n - 1, lens, maxItems, maxBytes);
      assert k < n - 1 ==> Before(s[k], s[n - 1]);
      BetterTaken(Greedy(s, n - 1, lens, maxItems, maxBytes), s[n - 1], s[k], lens, maxItems, maxBytes);
    }
  }

  lemma {:induction false} ChosenAt(s: seq<Ranked>, k: nat, n: nat, lens: Lens, maxItems: nat, maxBytes: nat)
    requires k < n <= |s| && Ordered(s)
    ensures
      var p := Greedy(s, k, lens, maxItems, maxBytes);
      s[k] in Greedy(s, n, lens, maxItems, maxBytes).selected <==>
        |p.selected| < maxItems && p.used + lens.size(s[k].item.row.content) <= maxBytes
    decreases n
  {
    GreedyBounds(s, k, lens, maxItems, maxBytes);
    if n == k + 1 {
      assert s[k] !in s[..k];
    } else {
      ChosenAt(s, k, n - 1, lens, maxItems, maxBytes);
      assert Before(s[k], s[n - 1]);
    }
  }

  /** The result does not depend on the order in which the records were read. */
  lemma SelectionIgnoresOrder(a: seq<Stored>, b: seq<Stored>, now: nat, lens: Lens, maxItems: nat, maxBytes: nat)
    requires multiset(a) == multiset(b) && Distinct(a) && Distinct(b)
    ensures Select(a, now, lens, maxItems, maxBytes) == Select(b, now, lens, maxItems, maxBytes)
  {
    var ra, rb := RanksOf(a, now, lens), RanksOf(b, now, lens);
    forall x: Ranked ensures multiset(ra)[x] == multiset(rb)[x] {
      RanksCount(a, now, lens, x);
      RanksCount(b, now, lens, x);
    }
    assert multiset(ra) == multiset(rb);
    RanksFrom(a, now, lens);
    RanksFrom(b, now, lens);
    SortIs(ra);
    SortIs(rb);
    OrderIsUnique(Sort(ra), Sort(rb));
    CountIgnoresOrder(a, b, now, lens, ByState);
    CountIgnoresOrder(a, b, now, lens, ByExpiry);
    CountIgnoresOrder(a, b, now, lens, ByRelevance);
  }

  lemma RankOrder(records: seq<Stored>, now: nat, lens: Lens)
    requires Distinct(records)
    ensures Ordered(Sort(RanksOf(records, now, lens)))
    ensures multiset(Sort(RanksOf(records, now, lens))) == multiset(RanksOf(records, now, lens))
    ensures |Sort(RanksOf(records, now, lens))| == |RanksOf(records, now, lens)|
  {
    RanksFrom(records, now, lens);
    SortIs(RanksOf(records, now, lens));
    SameSize(Sort(RanksOf(records, now, lens)), RanksOf(records, now, lens));
  }

  /**
   Selected memories are in rank order and within both limits, and every record is selected or counted once as
   excluded.
   */
  lemma SelectionIsBounded(records: seq<Stored>, now: nat, lens: Lens, maxItems: nat, maxBytes: nat)
    requires Distinct(records)
    ensures
      var r := Select(records, now, lens, maxItems, maxBytes);
      var e := r.exclusions;
      && Ordered(r.selected)
      && |r.selected| <= maxItems && Bytes(r.selected, lens) <= maxBytes
      && |r.selected| + e.state + e.expiry + e.relevance + e.items + e.bytes == |records|
  {
    RankOrder(records, now, lens);
    var s := Sort(RanksOf(records, now, lens));
    GreedyBounds(s, |s|, lens, maxItems, maxBytes);
    EveryRecordHasAFate(records, now, lens);
  }

  /**
   A record is selected if and only if it is relevant, fewer than the item limit of better-ranked ones
   were selected, and it fits beside those within the byte limit.
   */
  lemma SelectedExactlyWhenItFits(records: seq<Stored>, now: nat, lens: Lens, maxItems: nat, maxBytes: nat, x: Ranked)
    requires Distinct(records)
    ensures
      var selected := Select(records, now, lens, maxItems, maxBytes).selected;
      x in selected <==>
        && x.item in records && FateOf(x.item, now, lens) == Chosen(x.reason)
        && |Better(selected, x)| < maxItems
        && Bytes(Better(selected, x), lens) + lens.size(x.item.row.content) <= maxBytes
  {
    RankOrder(records, now, lens);
    RanksFrom(records, now, lens);
    var ranks := RanksOf(records, now, lens);
    var s := Sort(ranks);
    GreedyBounds(s, |s|, lens, maxItems, maxBytes);
    assert x in s <==> x in multiset(s);
    assert x in ranks <==> x in multiset(ranks);
    assert s[..|s|] == s;
    if x in s {
      var k :| 0 <= k < |s| && s[k] == x;
      BetterIsPrefix(s, k, |s|, lens, maxItems, maxBytes);
      ChosenAt(s, k, |s|, lens, maxItems, maxBytes);
      GreedyBounds(s, k, lens, maxItems, maxBytes);
    }
  }

  /** Of the first `n` in rank order, how many found the item limit used up by better ones. */
  function Outnumbered(s: seq<Ranked>, n: nat, selected: seq<Ranked>, maxItems: nat): nat
    requires n <= |s|
  {
    if n == 0 then 0
    else Outnumbered(s, n - 1, selected, maxItems) + if |Better(selected, s[n - 1])| == maxItems then 1 else 0
  }

  /** Of the first `n` in rank order, how many had an item place left but did not fit beside better ones. */
  function Crowded(s: seq<Ranked>, n: nat, selected: seq<Ranked>, lens: Lens, maxItems: nat, maxBytes: nat): nat
    requires n <= |s|
  {
    if n == 0 then 0
    else
      var better := Better(selected, s[n - 1]);
      Crowded(s, n - 1, selected, lens, maxItems, maxBytes) +
      if |better| < maxItems && Bytes(better, lens) + lens.size(s[n - 1].item.row.content) > maxBytes then 1 else 0
  }

  lemma ChargedOnce(p: Pass, x: Ranked, better: seq<Ranked>, lens: Lens, maxItems: nat, maxBytes: nat)
    requires better == p.selected && |p.selected| <= maxItems && p.used == Bytes(better, lens)
    ensures
      var q := Taken(p, x, lens, maxItems, maxBytes);
      && q.items == p.items + (if |better| == maxItems then 1 else 0)
      && q.bytes ==
         p.bytes
         + (if |better| < maxItems && Bytes(better, lens) + lens.size(x.item.row.content) > maxBytes then 1 else 0)
  {
  }

  /** What the pass held at `k`, and that it is what was selected among the better ranked. */
  ghost predicate HeldAt(s: seq<Ranked>, k: nat, selected: seq<Ranked>, lens: Lens, maxItems: nat, maxBytes: nat)
    requires k < |s|
  {
    var p := Greedy(s, k, lens, maxItems, maxBytes);
    Better(selected, s[k]) == p.selected && |p.selected| <= maxItems && p.used == Bytes(p.selected, lens)
  }

  ghost predicate AlwaysHeld(s: seq<Ranked>, selected: seq<Ranked>, lens: Lens, maxItems: nat, maxBytes: nat) {
    forall k {:trigger HeldAt(s, k, selected, lens, maxItems, maxBytes)} ::
      0 <= k < |s| ==> HeldAt(s, k, selected, lens, maxItems, maxBytes)
  }

  lemma SelectionIsHeld(s: seq<Ranked>, k: nat, selected: seq<Ranked>, lens: Lens, maxItems: nat, maxBytes: nat)
    requires k < |s| && Ordered(s) && selected == Greedy(s, |s|, lens, maxItems, maxBytes).selected
    ensures HeldAt(s, k, selected, lens, maxItems, maxBytes)
  {
    BetterIsPrefix(s, k, |s|, lens, maxItems, maxBytes);
    GreedyBounds(s, k, lens, maxItems, maxBytes);
  }

  lemma {:induction false} LimitsAccountFor(s: seq<Ranked>, n: nat, selected: seq<Ranked>, lens: Lens, maxItems: nat,
                                            maxBytes: nat)
    requires n <= |s| && AlwaysHeld(s, selected, lens, maxItems, maxBytes)
    ensures Greedy(s, n, lens, maxItems, maxBytes).items == Outnumbered(s, n, selected, maxItems)
    ensures Greedy(s, n, lens, maxItems, maxBytes).bytes == Crowded(s, n, selected, lens, maxItems, maxBytes)
    decreases n
  {
    if n > 0 {
      LimitsAccountFor(s, n - 1, selected, lens, maxItems, maxBytes);
      assert HeldAt(s, n - 1, selected, lens, maxItems, maxBytes);
      ChargedOnce(Greedy(s, n - 1, lens, maxItems, maxBytes), s[n - 1], Better(selected, s[n - 1]), lens, maxItems,
                  maxBytes);
    }
  }

  /** Each limit is charged exactly the relevant records it alone kept out. */
  lemma ExclusionsAreCharged(records: seq<Stored>, now: nat, lens: Lens, maxItems: nat, maxBytes: nat)
    requires Distinct(records)
    ensures
      var r := Select(records, now, lens, maxItems, maxBytes);
      var s := Sort(RanksOf(records, now, lens));
      && r.exclusions.items == Outnumbered(s, |s|, r.selected, maxItems)
      && r.exclusions.bytes == Crowded(s, |s|, r.selected, lens, maxItems, maxBytes)
  {
    RankOrder(records, now, lens);
    var s := Sort(RanksOf(records, now, lens));
    var selected := Select(records, now, lens, maxItems, maxBytes).selected;
    forall k | 0 <= k < |s| ensures HeldAt(s, k, selected, lens, maxItems, maxBytes) {
      SelectionIsHeld(s, k, selected, lens, maxItems, maxBytes);
    }
    LimitsAccountFor(s, |s|, selected, lens, maxItems, maxBytes);
  }

  /**
   Only records that are active, unexpired and not from the future are selected, and a pinned one that
   matches ranks before everything that is not a pinned match.
   */
  lemma SelectedAreCurrent(records: seq<Stored>, now: nat, lens: Lens, maxItems: nat, maxBytes: nat, x: Ranked,
                           y: Ranked)
    requires Distinct(records)
    requires x in Select(records, now, lens, maxItems, maxBytes).selected
             && y in Select(records, now, lens, maxItems, maxBytes).selected
    ensures x.item.row.state.Active? && x.item.row.createdAt <= now && x.item.row.updatedAt <= now
    ensures Expiring(x.item.row.retention) ==> now < x.item.row.retention.expires
    ensures lens.relevance(x.item.row.content).Neither? ==> x.item.row.kind.Working? && x.reason.RecentWorking?
    ensures x.item.row.pinned && !lens.relevance(x.item.row.content).Neither? && !(y.reason.PinnedMatch?) ==>
            Before(x, y)
  {
    SelectedExactlyWhenItFits(records, now, lens, maxItems, maxBytes, x);
    SelectedExactlyWhenItFits(records, now, lens, maxItems, maxBytes, y);
  }
}
