/** evaluateSeven and compareHands: the hole cards and the community cards
    are scored together, without choosing a best five-card subset. The
    category comes from counters over all cards; the tie-break list is every
    rank, largest first. */
module Evaluator {
  import opened Cards
  import opened RankLists

  /** The result of evaluateSeven: a category from 0 (high card) to 8
      (straight flush) and the tie-break list kickerRanks. */
  datatype Evaluation = Evaluation(category: int, kickerRanks: seq<int>)

  /** The ranks of the cards, the ace read as 14. */
  function Ranks(cards: seq<Card>): seq<int>
  {
    seq(|cards|, i requires 0 <= i < |cards| => AceHigh(cards[i].rank))
  }

  function SuitsOf(cards: seq<Card>): seq<Suit>
  {
    seq(|cards|, i requires 0 <= i < |cards| => cards[i].suit)
  }

  lemma RanksInRange(cards: seq<Card>)
    ensures forall v :: v in Ranks(cards) ==> 2 <= v <= 14
  {
  }

  // ----- Counters -----

  /** For every value of s, how often it occurs. */
  function CountMap<T>(s: seq<T>): map<T, nat>
  {
    map x | x in s :: multiset(s)[x]
  }

  /** The counting loop `for (const x of xs) m.set(x, (m.get(x) || 0) + 1)`. */
  method Tally<T>(xs: seq<T>) returns (m: map<T, nat>)
    ensures m == CountMap(xs)
  {
    m := map[];
    var i := 0;
    while i < |xs|
      invariant 0 <= i <= |xs|
      invariant m == CountMap(xs[..i])
    {
      var x := xs[i];
      assert xs[..i + 1] == xs[..i] + [x];
      m := m[x := (if x in m then m[x] else 0) + 1];
      i := i + 1;
    }
    assert xs[..i] == xs;
  }

  // ----- Flush and straight -----

  /** Some suit is on at least five of the cards. */
  ghost predicate IsFlush(cards: seq<Card>)
  {
    exists s: Suit :: multiset(SuitsOf(cards))[s] >= 5
  }

  /** The ranks present, with 1 added when an ace (14) is present. */
  function WheelRanks(ranks: seq<int>): set<int>
  {
    Elems(ranks) + (if 14 in ranks then {1} else {})
  }

  /** The suit counter and the test `some suit count >= 5`. */
  method HasFlush(cards: seq<Card>) returns (isFlush: bool)
    ensures isFlush == IsFlush(cards)
  {
    var suits := SuitsOf(cards);
    var countsBySuit := Tally(suits);
    isFlush := exists s | s in countsBySuit :: countsBySuit[s] >= 5;
    if IsFlush(cards) {
      var s: Suit :| multiset(suits)[s] >= 5;
      assert s in suits;
      assert s in countsBySuit && countsBySuit[s] >= 5;
    }
    if isFlush {
      var s :| s in countsBySuit && countsBySuit[s] >= 5;
      assert multiset(suits)[s] >= 5;
    }
  }

  /** Five consecutive ranks are present among all the cards, the ace also
      counting as 1; the suits of those cards play no part. */
  ghost predicate IsStraight(cards: seq<Card>)
  {
    HasFiveRun(WheelRanks(Ranks(cards)))
  }

  /** hasStraight: the streak loop over an increasing list of ranks. */
  method HasStraight(arr: seq<int>) returns (b: bool)
    requires StrictlyIncreasing(arr)
    ensures b <==> RunOfFive(arr)
  {
    var streak := 1;
    var i := 1;
    while i < |arr|
      invariant 1 <= i <= |arr| || (i == 1 && arr == [])
      invariant 1 <= streak <= 4 && streak <= i
      invariant forall k :: i - streak <= k < i - 1 ==> arr[k + 1] == arr[k] + 1
      invariant i - streak > 0 ==> arr[i - streak] != arr[i - streak - 1] + 1
      invariant forall k :: 0 <= k && k + 4 < i ==> !RunAt(arr, k)
    {
      if arr[i] == arr[i - 1] + 1 {
        streak := streak + 1;
        if streak >= 5 {
          assert RunAt(arr, i - 4);
          return true;
        }
      } else if arr[i] != arr[i - 1] {
        streak := 1;
      }
      i := i + 1;
    }
    return false;
  }

  // ----- Rank groups -----

  /** An entry [rank, count] of countsByRank. */
  datatype Group = Group(rank: int, count: nat)

  /** a may stand before b in rankGroups: the larger count first, then the larger rank. */
  predicate GroupFirst(a: Group, b: Group)
  {
    a.count > b.count || (a.count == b.count && a.rank >= b.rank)
  }

  ghost predicate GroupsSorted(g: seq<Group>)
  {
    forall i, j :: 0 <= i < j < |g| ==> GroupFirst(g[i], g[j])
  }

  lemma GroupFirstTransitive(a: Group, b: Group, c: Group)
    requires GroupFirst(a, b) && GroupFirst(b, c)
    ensures GroupFirst(a, c)
  {
  }

  /** Every entry of t comes after s[0], when t holds s[1..] and an entry x that s[0] precedes. */
  lemma GroupBoundedByHead(s: seq<Group>, x: Group, t: seq<Group>)
    requires GroupsSorted(s) && s != [] && GroupFirst(s[0], x)
    requires multiset(t) == multiset(s[1..]) + multiset{x}
    ensures forall k :: 0 <= k < |t| ==> GroupFirst(s[0], t[k])
  {
    forall k | 0 <= k < |t|
      ensures GroupFirst(s[0], t[k])
    {
      assert t[k] in multiset(t);
      if t[k] != x {
        assert t[k] in multiset(s[1..]);
        var m :| 0 <= m < |s[1..]| && s[1..][m] == t[k];
        assert s[m + 1] == t[k];
      }
    }
  }

  lemma ConsGroupsSorted(v: Group, t: seq<Group>)
    requires GroupsSorted(t) && forall k :: 0 <= k < |t| ==> GroupFirst(v, t[k])
    ensures GroupsSorted([v] + t)
  {
    forall i, j | 0 <= i < j < |[v] + t|
      ensures GroupFirst(([v] + t)[i], ([v] + t)[j])
    {
      assert ([v] + t)[j] == t[j - 1];
      if i > 0 {
        assert ([v] + t)[i] == t[i - 1];
      }
    }
  }

  function InsertGroup(x: Group, s: seq<Group>): (r: seq<Group>)
    requires GroupsSorted(s)
    ensures GroupsSorted(r) && multiset(r) == multiset(s) + multiset{x}
  {
    if s == [] || GroupFirst(x, s[0]) then
      assert forall k :: 0 <= k < |s| ==> GroupFirst(x, s[k]) by {
        forall k | 0 <= k < |s| ensures GroupFirst(x, s[k]) {
          if k > 0 {
            GroupFirstTransitive(x, s[0], s[k]);
          }
        }
      }
      ConsGroupsSorted(x, s);
      [x] + s
    else
      GroupsSortedTail(s);
      var t := InsertGroup(x, s[1..]);
      assert s == [s[0]] + s[1..];
      GroupBoundedByHead(s, x, t);
      ConsGroupsSorted(s[0], t);
      [s[0]] + t
  }

  /** The model of sorting the entries of countsByRank by the comparator of rankGroups. */
  function SortGroups(s: seq<Group>): (r: seq<Group>)
    ensures GroupsSorted(r) && multiset(r) == multiset(s)
  {
    if s == [] then []
    else
      assert s == [s[0]] + s[1..];
      InsertGroup(s[0], SortGroups(s[1..]))
  }

  /** The entries of a counter map, listed in the order of keys. */
  function GroupsOf(keys: seq<int>, counts: map<int, nat>): seq<Group>
    requires forall i :: 0 <= i < |keys| ==> keys[i] in counts
  {
    seq(|keys|, i requires 0 <= i < |keys| => Group(keys[i], counts[keys[i]]))
  }

  /** The entries of countsByRank, listed by increasing rank. */
  function RankEntries(ranks: seq<int>): seq<Group>
  {
    var keys := SortedDistinct(ranks);
    assert forall i :: 0 <= i < |keys| ==> keys[i] in Elems(keys);
    GroupsOf(keys, CountMap(ranks))
  }

  /** rankGroups: the entries of countsByRank, most frequent first, ties by higher rank. */
  function RankGroups(ranks: seq<int>): seq<Group>
  {
    SortGroups(RankEntries(ranks))
  }

  /** rankGroups[0]?.[1] || 0 */
  function MaxCount(g: seq<Group>): nat
  {
    if |g| > 0 then g[0].count else 0
  }

  /** rankGroups[1]?.[1] || 0 */
  function SecondCount(g: seq<Group>): nat
  {
    if |g| > 1 then g[1].count else 0
  }

  /** rankGroups[0]?.[0] || 0 */
  function MaxRank(g: seq<Group>): int
  {
    if |g| > 0 then g[0].rank else 0
  }

  /** rankGroups[1]?.[0] || 0 */
  function SecondRank(g: seq<Group>): int
  {
    if |g| > 1 then g[1].rank else 0
  }

  // ----- Category and evaluation -----

  /** The if-chain that picks the category. */
  function CategoryOf(flush: bool, straight: bool, maxCount: nat, secondCount: nat): (c: int)
    ensures 0 <= c <= 8
  {
    if flush && straight then 8
    else if maxCount == 4 then 7
    else if maxCount == 3 && secondCount >= 2 then 6
    else if flush then 5
    else if straight then 4
    else if maxCount == 3 then 3
    else if maxCount == 2 && secondCount == 2 then 2
    else if maxCount == 2 then 1
    else 0
  }

  /** What evaluateSeven returns for the cards (hole cards first, then the community). */
  ghost function Evaluate(cards: seq<Card>): Evaluation
  {
    var ranks := Ranks(cards);
    var g := RankGroups(ranks);
    Evaluation(CategoryOf(IsFlush(cards), IsStraight(cards), MaxCount(g), SecondCount(g)), SortDesc(ranks))
  }

  /** evaluateSeven: the two counters, the flush test, the straight test on the
      wheel list, the rank groups, the category and the kicker list. */
  method EvaluateSeven(hole: Hole, community: seq<Card>) returns (e: Evaluation)
    ensures e == Evaluate(HoleCards(hole) + community)
  {
    var cards := HoleCards(hole) + community;
    var ranks := Ranks(cards);
    var countsByRank := Tally(ranks);
    var isFlush := HasFlush(cards);
    var uniqSorted := SortedDistinct(ranks);
    RanksInRange(cards);
    assert forall v :: v in uniqSorted ==> 2 <= v <= 14 by {
      assert forall v :: v in uniqSorted ==> v in Elems(uniqSorted);
    }
    var withWheel := WithWheel(uniqSorted);
    var isStraight := HasStraight(withWheel);
    RunOfFiveIffFiveRun(withWheel);
    assert 14 in uniqSorted <==> 14 in ranks by {
      assert 14 in uniqSorted <==> 14 in Elems(uniqSorted);
    }
    assert isStraight == IsStraight(cards);
    var rankGroups := SortGroups(GroupsOf(uniqSorted, countsByRank));
    assert rankGroups == RankGroups(ranks);
    var category := CategoryOf(isFlush, isStraight, MaxCount(rankGroups), SecondCount(rankGroups));
    e := Evaluation(category, SortDesc(ranks));
  }

  // ----- What the rank groups mean -----

  /** The ranks of the groups. */
  function GroupRanks(g: seq<Group>): seq<int>
  {
    seq(|g|, i requires 0 <= i < |g| => g[i].rank)
  }

  /** Every entry of the counter is a rank present, paired with its number of occurrences. */
  lemma RankEntriesMeaning(ranks: seq<int>)
    ensures forall e :: e in RankEntries(ranks) ==> e.rank in ranks && e.count == multiset(ranks)[e.rank]
    ensures forall v :: v in ranks ==> Group(v, multiset(ranks)[v]) in RankEntries(ranks)
    ensures Distinct(GroupRanks(RankEntries(ranks)))
  {
    var keys := SortedDistinct(ranks);
    var entries := RankEntries(ranks);
    forall e | e in entries
      ensures e.rank in ranks && e.count == multiset(ranks)[e.rank]
    {
      var k :| 0 <= k < |entries| && entries[k] == e;
      assert keys[k] in Elems(keys);
    }
    forall v | v in ranks
      ensures Group(v, multiset(ranks)[v]) in entries
    {
      assert v in Elems(keys);
      var k :| 0 <= k < |keys| && keys[k] == v;
      assert entries[k] == Group(v, multiset(ranks)[v]);
    }
    forall i, j | 0 <= i < j < |entries|
      ensures GroupRanks(entries)[i] != GroupRanks(entries)[j]
    {
      assert keys[i] < keys[j];
    }
  }

  /** Groups whose counts are fixed by their ranks and whose ranks differ stay
      that way when rearranged. */
  lemma RearrangedRanksDistinct(ranks: seq<int>, a: seq<Group>, b: seq<Group>)
    requires Distinct(GroupRanks(a)) && multiset(a) == multiset(b)
    requires forall e :: e in a ==> e.count == multiset(ranks)[e.rank]
    ensures Distinct(GroupRanks(b))
  {
    assert Distinct(a) by {
      forall i, j | 0 <= i < j < |a|
        ensures a[i] != a[j]
      {
        assert GroupRanks(a)[i] != GroupRanks(a)[j];
      }
    }
    PermutationKeepsDistinct(a, b);
    forall i, j | 0 <= i < j < |b|
      ensures GroupRanks(b)[i] != GroupRanks(b)[j]
    {
      assert b[i] in multiset(a) && b[j] in multiset(a);
      assert b[i] != b[j];
    }
  }

  /** rankGroups holds one entry per rank present, with how often that rank
      occurs, most frequent first and higher rank first among equals. */
  lemma RankGroupsAreCounts(ranks: seq<int>)
    ensures forall i :: 0 <= i < |RankGroups(ranks)| ==>
      RankGroups(ranks)[i].rank in ranks &&
      RankGroups(ranks)[i].count == multiset(ranks)[RankGroups(ranks)[i].rank]
  {
    var entries := RankEntries(ranks);
    var g := RankGroups(ranks);
    RankEntriesMeaning(ranks);
    assert multiset(g) == multiset(entries);
    forall i | 0 <= i < |g|
      ensures g[i].rank in ranks && g[i].count == multiset(ranks)[g[i].rank]
    {
      assert g[i] in multiset(entries);
    }
  }

  lemma RankGroupsCoverRanks(ranks: seq<int>)
    ensures forall v :: v in ranks ==> v in GroupRanks(RankGroups(ranks))
  {
    var entries := RankEntries(ranks);
    var g := RankGroups(ranks);
    RankEntriesMeaning(ranks);
    assert multiset(g) == multiset(entries);
    forall v | v in ranks
      ensures v in GroupRanks(g)
    {
      var e := Group(v, multiset(ranks)[v]);
      assert e in multiset(g);
      var i :| 0 <= i < |g| && g[i] == e;
      assert GroupRanks(g)[i] == v;
    }
  }

  lemma RankGroupsMeaning(ranks: seq<int>)
    ensures GroupsSorted(RankGroups(ranks))
    ensures Distinct(GroupRanks(RankGroups(ranks)))
    ensures forall i :: 0 <= i < |RankGroups(ranks)| ==>
      RankGroups(ranks)[i].rank in ranks &&
      RankGroups(ranks)[i].count == multiset(ranks)[RankGroups(ranks)[i].rank]
    ensures forall v :: v in ranks ==> v in GroupRanks(RankGroups(ranks))
  {
    var entries := RankEntries(ranks);
    var g := RankGroups(ranks);
    RankEntriesMeaning(ranks);
    assert multiset(g) == multiset(entries);
    RankGroupsAreCounts(ranks);
    RankGroupsCoverRanks(ranks);
    RearrangedRanksDistinct(ranks, entries, g);
  }

  /** The first group holds the most frequent rank (the highest among the most
      frequent), maxCount is the largest count, and secondCount is the largest
      count among the other ranks. */
  lemma TopGroups(ranks: seq<int>)
    ensures var g := RankGroups(ranks);
      (ranks == [] <==> MaxCount(g) == 0) &&
      (ranks != [] ==> MaxRank(g) in ranks && multiset(ranks)[MaxRank(g)] == MaxCount(g)) &&
      (forall v :: v in ranks ==> multiset(ranks)[v] <= MaxCount(g)) &&
      (forall v :: v in ranks && multiset(ranks)[v] == MaxCount(g) ==> v <= MaxRank(g))
    ensures var g := RankGroups(ranks);
      (forall v :: v in ranks && v != MaxRank(g) ==> multiset(ranks)[v] <= SecondCount(g)) &&
      (SecondCount(g) > 0 ==>
        SecondRank(g) in ranks && SecondRank(g) != MaxRank(g) &&
        multiset(ranks)[SecondRank(g)] == SecondCount(g)) &&
      SecondCount(g) <= MaxCount(g)
  {
    var g := RankGroups(ranks);
    RankGroupsMeaning(ranks);
    if ranks != [] {
      assert ranks[0] in ranks;
      assert |g| > 0;
      assert g[0].count > 0 by {
        assert g[0].rank in ranks;
      }
    }
    forall v | v in ranks
      ensures multiset(ranks)[v] <= MaxCount(g)
      ensures multiset(ranks)[v] == MaxCount(g) ==> v <= MaxRank(g)
      ensures v != MaxRank(g) ==> multiset(ranks)[v] <= SecondCount(g)
    {
      var i :| 0 <= i < |g| && GroupRanks(g)[i] == v;
      if i > 0 {
        assert GroupFirst(g[0], g[i]);
        assert GroupFirst(g[1], g[i]);
      }
    }
    if |g| > 1 {
      assert GroupFirst(g[0], g[1]);
      assert GroupRanks(g)[0] != GroupRanks(g)[1];
    }
  }

  /** When every rank occurs once, maxCount is 1. */
  lemma AllDifferentMaxCountOne(ranks: seq<int>)
    requires ranks != [] && Distinct(ranks)
    ensures MaxCount(RankGroups(ranks)) == 1
  {
    forall v | v in ranks
      ensures multiset(ranks)[v] == 1
    {
      DistinctCountsOne(ranks, v);
    }
    TopGroups(ranks);
  }

  lemma GroupsSortedTail(a: seq<Group>)
    requires GroupsSorted(a) && a != []
    ensures GroupsSorted(a[1..])
  {
    forall i, j | 0 <= i < j < |a[1..]|
      ensures GroupFirst(a[1..][i], a[1..][j])
    {
      assert a[1..][i] == a[i + 1] && a[1..][j] == a[j + 1];
    }
  }

  lemma DistinctRanksTail(a: seq<Group>)
    requires Distinct(GroupRanks(a)) && a != []
    ensures Distinct(GroupRanks(a[1..]))
  {
    forall p, q | 0 <= p < q < |a[1..]|
      ensures GroupRanks(a[1..])[p] != GroupRanks(a[1..])[q]
    {
      assert GroupRanks(a)[p + 1] != GroupRanks(a)[q + 1];
    }
  }

  /** Two sorted lists of the same entries start with the same entry. */
  lemma SortedHeadsEqual(a: seq<Group>, b: seq<Group>)
    requires GroupsSorted(a) && GroupsSorted(b) && multiset(a) == multiset(b)
    requires a != [] && b != []
    ensures a[0] == b[0]
  {
    assert a[0] in multiset(b) && b[0] in multiset(a);
    var i :| 0 <= i < |b| && b[i] == a[0];
    var j :| 0 <= j < |a| && a[j] == b[0];
    assert GroupFirst(b[0], a[0]);
    assert GroupFirst(a[0], b[0]);
  }

  /** Sorting by (count descending, rank descending) leaves no choice once the
      ranks are distinct: two sorted orders of the same entries are equal. */
  lemma {:induction false} GroupsSortedUnique(a: seq<Group>, b: seq<Group>)
    requires GroupsSorted(a) && GroupsSorted(b) && multiset(a) == multiset(b)
    requires Distinct(GroupRanks(a))
    ensures a == b
  {
    assert |a| == |b| by {
      assert |a| == |multiset(a)| && |b| == |multiset(b)|;
    }
    if a != [] {
      SortedHeadsEqual(a, b);
      TailMultiset(a);
      TailMultiset(b);
      GroupsSortedTail(a);
      GroupsSortedTail(b);
      DistinctRanksTail(a);
      GroupsSortedUnique(a[1..], b[1..]);
      assert a == [a[0]] + a[1..] && b == [b[0]] + b[1..];
    }
  }

  /** The order in which the counter lists its entries does not matter:
      sorting any listing of them gives rankGroups. */
  lemma RankGroupsOrderFree(ranks: seq<int>, entries: seq<Group>)
    requires multiset(entries) == multiset(RankEntries(ranks))
    ensures SortGroups(entries) == RankGroups(ranks)
  {
    RankGroupsMeaning(ranks);
    GroupsSortedUnique(RankGroups(ranks), SortGroups(entries));
  }

  // ----- The category in poker terms -----

  /** Some rank occurs exactly n times. */
  ghost predicate HasKind(ranks: seq<int>, n: nat)
  {
    exists v :: v in ranks && multiset(ranks)[v] == n
  }

  /** One rank occurs three times and another at least twice. */
  ghost predicate HasFullHouse(ranks: seq<int>)
  {
    exists v, w :: v in ranks && w in ranks && v != w && multiset(ranks)[v] == 3 && multiset(ranks)[w] >= 2
  }

  /** Two different ranks occur exactly twice each. */
  ghost predicate HasTwoPair(ranks: seq<int>)
  {
    exists v, w :: v in ranks && w in ranks && v != w && multiset(ranks)[v] == 2 && multiset(ranks)[w] == 2
  }

  /** No rank occurs more than four times, as in any hand dealt from one deck. */
  ghost predicate AtMostFourEach(ranks: seq<int>)
  {
    forall v :: v in ranks ==> multiset(ranks)[v] <= 4
  }

  /** The category the evaluator means to compute, stated with the counts of
      each rank instead of the sorted rank groups. */
  ghost function HandCategory(cards: seq<Card>): int
  {
    var ranks := Ranks(cards);
    if IsFlush(cards) && IsStraight(cards) then 8
    else if HasKind(ranks, 4) then 7
    else if HasFullHouse(ranks) then 6
    else if IsFlush(cards) then 5
    else if IsStraight(cards) then 4
    else if HasKind(ranks, 3) then 3
    else if HasTwoPair(ranks) then 2
    else if HasKind(ranks, 2) then 1
    else 0
  }

  /** maxCount is 4 exactly when some rank occurs four times. */
  lemma FourOfAKindIff(ranks: seq<int>)
    requires AtMostFourEach(ranks)
    ensures MaxCount(RankGroups(ranks)) <= 4
    ensures MaxCount(RankGroups(ranks)) == 4 <==> HasKind(ranks, 4)
  {
    TopGroups(ranks);
  }

  /** Without four of a kind, maxCount is 3 with secondCount at least 2 exactly
      for a full house, and maxCount is 3 exactly for three of a kind. */
  lemma FullHouseIff(ranks: seq<int>)
    requires AtMostFourEach(ranks) && !HasKind(ranks, 4)
    ensures (MaxCount(RankGroups(ranks)) == 3 && SecondCount(RankGroups(ranks)) >= 2) <==> HasFullHouse(ranks)
    ensures MaxCount(RankGroups(ranks)) == 3 <==> HasKind(ranks, 3)
  {
    var g := RankGroups(ranks);
    TopGroups(ranks);
    FourOfAKindIff(ranks);
    if HasFullHouse(ranks) {
      var v, w :| v in ranks && w in ranks && v != w && multiset(ranks)[v] == 3 && multiset(ranks)[w] >= 2;
      if v == MaxRank(g) {
        assert multiset(ranks)[w] <= SecondCount(g);
      } else {
        assert multiset(ranks)[v] <= SecondCount(g);
      }
    }
    if HasKind(ranks, 3) {
      var v :| v in ranks && multiset(ranks)[v] == 3;
      assert multiset(ranks)[v] <= MaxCount(g);
    }
  }

  /** With no rank three or more times, maxCount and secondCount both 2 is two
      pair, and maxCount 2 is a pair. */
  lemma PairsIff(ranks: seq<int>)
    requires AtMostFourEach(ranks) && !HasKind(ranks, 4) && !HasKind(ranks, 3)
    ensures (MaxCount(RankGroups(ranks)) == 2 && SecondCount(RankGroups(ranks)) == 2) <==> HasTwoPair(ranks)
    ensures MaxCount(RankGroups(ranks)) == 2 <==> HasKind(ranks, 2)
  {
    var g := RankGroups(ranks);
    TopGroups(ranks);
    FourOfAKindIff(ranks);
    FullHouseIff(ranks);
    if HasTwoPair(ranks) {
      var v, w :| v in ranks && w in ranks && v != w && multiset(ranks)[v] == 2 && multiset(ranks)[w] == 2;
      if v == MaxRank(g) {
        assert multiset(ranks)[w] <= SecondCount(g);
      } else {
        assert multiset(ranks)[v] <= SecondCount(g);
      }
    }
    if HasKind(ranks, 2) {
      var v :| v in ranks && multiset(ranks)[v] == 2;
      assert multiset(ranks)[v] <= MaxCount(g);
    }
  }

  /** For cards that hold no rank more than four times, the category read off
      the sorted rank groups is the category named by the rank counts. */
  lemma CategoryMatchesReference(cards: seq<Card>)
    requires AtMostFourEach(Ranks(cards))
    ensures Evaluate(cards).category == HandCategory(cards)
  {
    var ranks := Ranks(cards);
    FourOfAKindIff(ranks);
    if !HasKind(ranks, 4) {
      FullHouseIff(ranks);
      if !HasKind(ranks, 3) {
        PairsIff(ranks);
      }
    }
  }

  /** The cards of rank r, counted through their ace-high value, are the
      cards (suit, r) of the four suits. */
  lemma {:induction false} RankCountBySuit(cards: seq<Card>, r: Rank)
    ensures multiset(Ranks(cards))[AceHigh(r)] ==
      multiset(cards)[Card(Spade, r)] + multiset(cards)[Card(Heart, r)] +
      multiset(cards)[Card(Diamond, r)] + multiset(cards)[Card(Club, r)]
  {
    if cards != [] {
      var c, rest := cards[0], cards[1..];
      assert cards == [c] + rest;
      RanksConcat([c], rest);
      RankCountBySuit(rest, r);
      assert Ranks([c]) == [AceHigh(c.rank)];
      assert multiset(Ranks(cards)) == multiset{AceHigh(c.rank)} + multiset(Ranks(rest));
      assert multiset(cards) == multiset{c} + multiset(rest);
      assert AceHigh(c.rank) == AceHigh(r) <==> c.rank == r;
      if c.rank == r {
        assert c == Card(c.suit, r);
        assert multiset(Ranks([c]))[AceHigh(r)] == 1;
        assert forall s: Suit :: multiset{c}[Card(s, r)] == if s == c.suit then 1 else 0;
      } else {
        assert multiset(Ranks([c]))[AceHigh(r)] == 0;
        assert forall s: Suit :: multiset{c}[Card(s, r)] == 0;
      }
    }
  }

  /** Cards that hold no card twice hold no rank more than four times: this
      discharges the requirement of CategoryMatchesReference for any hand
      taken from one deck. */
  lemma NoRepeatAtMostFour(cards: seq<Card>)
    requires forall c: Card :: multiset(cards)[c] <= 1
    ensures AtMostFourEach(Ranks(cards))
  {
    forall v | v in Ranks(cards)
      ensures multiset(Ranks(cards))[v] <= 4
    {
      var i :| 0 <= i < |cards| && Ranks(cards)[i] == v;
      RankCountBySuit(cards, cards[i].rank);
    }
  }

  /** The category is 8 exactly when the cards hold a flush and a straight;
      a straight alone gives at least 4 and a flush alone at least 5. */
  lemma CategoryOfOrder(flush: bool, straight: bool, maxCount: nat, secondCount: nat)
    ensures CategoryOf(flush, straight, maxCount, secondCount) == 8 <==> flush && straight
    ensures straight ==> CategoryOf(flush, straight, maxCount, secondCount) >= 4
    ensures flush ==> CategoryOf(flush, straight, maxCount, secondCount) >= 5
  {
  }

  lemma FlushAndStraightCategories(cards: seq<Card>)
    ensures Evaluate(cards).category == 8 <==> IsFlush(cards) && IsStraight(cards)
    ensures IsStraight(cards) ==> Evaluate(cards).category >= 4
    ensures IsFlush(cards) ==> Evaluate(cards).category >= 5
  {
    var g := RankGroups(Ranks(cards));
    var f, st := IsFlush(cards), IsStraight(cards);
    CategoryOfOrder(f, st, MaxCount(g), SecondCount(g));
    assert Evaluate(cards).category == CategoryOf(f, st, MaxCount(g), SecondCount(g));
  }

  /** A, 2, 3, 4 and 5 together make a straight through the wheel list. */
  lemma WheelIsStraight(cards: seq<Card>)
    requires forall v :: v in {14, 2, 3, 4, 5} ==> v in Ranks(cards)
    ensures IsStraight(cards)
    ensures Evaluate(cards).category >= 4
  {
    var ranks := Ranks(cards);
    assert 14 in ranks && 2 in ranks && 3 in ranks && 4 in ranks && 5 in ranks;
    assert FiveRunFrom(WheelRanks(ranks), 1);
    FlushAndStraightCategories(cards);
  }

  /** The kicker list holds every rank of the cards, ace as 14, largest first. */
  lemma KickersAreAllRanks(cards: seq<Card>)
    ensures Descending(Evaluate(cards).kickerRanks)
    ensures multiset(Evaluate(cards).kickerRanks) == multiset(Ranks(cards))
    ensures forall v :: v in Evaluate(cards).kickerRanks ==> 2 <= v <= 14
  {
    var k := Evaluate(cards).kickerRanks;
    forall v | v in k
      ensures 2 <= v <= 14
    {
      assert v in multiset(Ranks(cards));
    }
  }

  // ----- The loose straight-flush test -----

  /** The card of suit s whose rank reads as v (the ace reads as 14 and as 1) is among the cards. */
  ghost predicate HasSuited(cards: seq<Card>, s: Suit, v: int)
  {
    exists c :: c in cards && c.suit == s && (AceHigh(c.rank) == v || (v == 1 && c.rank == 1))
  }

  /** The cards of suit s reading lo, lo + 1, ..., lo + 4 are all held. */
  ghost predicate SuitedRunFrom(cards: seq<Card>, s: Suit, lo: int)
  {
    HasSuited(cards, s, lo) && HasSuited(cards, s, lo + 1) && HasSuited(cards, s, lo + 2) &&
    HasSuited(cards, s, lo + 3) && HasSuited(cards, s, lo + 4)
  }

  /** Five cards of one suit with consecutive ranks: a straight flush in the usual sense. */
  ghost predicate HasSuitedRun(cards: seq<Card>)
  {
    exists s: Suit, lo: int :: SuitedRunFrom(cards, s, lo)
  }

  /** Five hearts 2, 4, 6, 8, 10 with the spades 3 and 5. */
  function LooseStraightFlushHand(): seq<Card>
  {
    [Card(Heart, 2), Card(Heart, 4), Card(Heart, 6), Card(Heart, 8),
     Card(Heart, 10), Card(Spade, 3), Card(Spade, 5)]
  }

  /** That hand scores category 8: five hearts and the run 2 to 6 across suits. */
  lemma LooseStraightFlushScoresEight()
    ensures Evaluate(LooseStraightFlushHand()).category == 8
  {
    var cards := LooseStraightFlushHand();
    assert IsFlush(cards) by {
      assert SuitsOf(cards) == [Heart, Heart, Heart, Heart, Heart] + [Spade, Spade];
      assert multiset(SuitsOf(cards))[Heart] == 5;
    }
    assert IsStraight(cards) by {
      var r := Ranks(cards);
      assert r == [2, 4, 6, 8, 10, 3, 5];
      assert r[0] == 2 && r[5] == 3 && r[1] == 4 && r[6] == 5 && r[2] == 6;
      assert FiveRunFrom(WheelRanks(r), 2);
    }
    FlushAndStraightCategories(cards);
  }

  lemma LooseHandSuited(s: Suit, v: int)
    ensures HasSuited(LooseStraightFlushHand(), s, v) <==>
      (s == Heart && (v == 2 || v == 4 || v == 6 || v == 8 || v == 10)) || (s == Spade && (v == 3 || v == 5))
  {
    var cards := LooseStraightFlushHand();
    if HasSuited(cards, s, v) {
      var c :| c in cards && c.suit == s && (AceHigh(c.rank) == v || (v == 1 && c.rank == 1));
      assert c.rank != 1 && AceHigh(c.rank) == c.rank;
    }
    if (s == Heart && (v == 2 || v == 4 || v == 6 || v == 8 || v == 10)) || (s == Spade && (v == 3 || v == 5)) {
      var c := Card(s, v);
      assert c in cards;
    }
  }

  /** The hearts sit on even ranks only and the spades on 3 and 5: no two suited cards are adjacent. */
  ghost predicate OnlyLooseSuits(cards: seq<Card>)
  {
    forall s: Suit, v: int :: HasSuited(cards, s, v) ==>
      (s == Heart && (v == 2 || v == 4 || v == 6 || v == 8 || v == 10)) || (s == Spade && (v == 3 || v == 5))
  }

  lemma NoAdjacentNoRun(cards: seq<Card>)
    requires OnlyLooseSuits(cards)
    ensures !HasSuitedRun(cards)
  {
    forall s: Suit, lo: int
      ensures !SuitedRunFrom(cards, s, lo)
    {
      if HasSuited(cards, s, lo) {
        assert !HasSuited(cards, s, lo + 1);
      }
    }
  }

  /** No five cards of that hand are of one suit and in sequence. */
  lemma LooseHandHasNoSuitedRun()
    ensures !HasSuitedRun(LooseStraightFlushHand())
  {
    var cards := LooseStraightFlushHand();
    forall s: Suit, v: int | HasSuited(cards, s, v)
      ensures (s == Heart && (v == 2 || v == 4 || v == 6 || v == 8 || v == 10)) || (s == Spade && (v == 3 || v == 5))
    {
      LooseHandSuited(s, v);
    }
    NoAdjacentNoRun(cards);
  }

  // ----- The order of the cards does not matter -----

  lemma RemoveAt<T>(b: seq<T>, k: nat)
    requires k < |b|
    ensures multiset(b[..k] + b[k + 1..]) == multiset(b) - multiset{b[k]}
  {
    assert b == b[..k] + [b[k]] + b[k + 1..];
  }

  lemma RanksConcat(x: seq<Card>, y: seq<Card>)
    ensures Ranks(x + y) == Ranks(x) + Ranks(y)
    ensures SuitsOf(x + y) == SuitsOf(x) + SuitsOf(y)
  {
  }

  lemma IndexOf<T>(b: seq<T>, x: T) returns (k: nat)
    requires x in multiset(b)
    ensures k < |b| && b[k] == x
  {
    k :| 0 <= k < |b| && b[k] == x;
  }

  lemma RemoveCard(b: seq<Card>, k: nat)
    requires k < |b|
    ensures Ranks(b) == Ranks(b[..k]) + [AceHigh(b[k].rank)] + Ranks(b[k + 1..])
    ensures Ranks(b[..k] + b[k + 1..]) == Ranks(b[..k]) + Ranks(b[k + 1..])
    ensures SuitsOf(b) == SuitsOf(b[..k]) + [b[k].suit] + SuitsOf(b[k + 1..])
    ensures SuitsOf(b[..k] + b[k + 1..]) == SuitsOf(b[..k]) + SuitsOf(b[k + 1..])
  {
    assert b == b[..k] + [b[k]] + b[k + 1..];
    RanksConcat(b[..k], [b[k]]);
    RanksConcat(b[..k] + [b[k]], b[k + 1..]);
    RanksConcat(b[..k], b[k + 1..]);
  }

  lemma SplitAt(b: seq<Card>, k: nat)
    requires k < |b|
    ensures multiset(Ranks(b)) == multiset(Ranks(b[..k] + b[k + 1..])) + multiset{AceHigh(b[k].rank)}
    ensures multiset(SuitsOf(b)) == multiset(SuitsOf(b[..k] + b[k + 1..])) + multiset{b[k].suit}
  {
    RemoveCard(b, k);
  }

  lemma {:induction false} RanksPermute(a: seq<Card>, b: seq<Card>)
    requires multiset(a) == multiset(b)
    ensures multiset(Ranks(a)) == multiset(Ranks(b))
  {
    if a != [] {
      var k := IndexOf(b, a[0]);
      var rest := b[..k] + b[k + 1..];
      assert multiset(a[1..]) == multiset(rest) by {
        assert a == [a[0]] + a[1..];
        RemoveAt(b, k);
      }
      RanksPermute(a[1..], rest);
      assert a[..0] + a[1..] == a[1..];
      SplitAt(a, 0);
      SplitAt(b, k);
    }
  }

  lemma {:induction false} SuitsPermute(a: seq<Card>, b: seq<Card>)
    requires multiset(a) == multiset(b)
    ensures multiset(SuitsOf(a)) == multiset(SuitsOf(b))
  {
    if a != [] {
      var k := IndexOf(b, a[0]);
      var rest := b[..k] + b[k + 1..];
      assert multiset(a[1..]) == multiset(rest) by {
        assert a == [a[0]] + a[1..];
        RemoveAt(b, k);
      }
      SuitsPermute(a[1..], rest);
      assert a[..0] + a[1..] == a[1..];
      SplitAt(a, 0);
      SplitAt(b, k);
    }
  }

  lemma ElemsOfMultiset(a: seq<int>, b: seq<int>)
    requires multiset(a) == multiset(b)
    ensures Elems(a) == Elems(b)
  {
    assert forall v :: v in a <==> v in multiset(a);
    assert forall v :: v in b <==> v in multiset(b);
  }

  /** The evaluation depends only on which cards are held, not on their order:
      swapping the two hole cards or reordering the board changes nothing. */
  lemma EvaluateIgnoresOrder(a: seq<Card>, b: seq<Card>)
    requires multiset(a) == multiset(b)
    ensures Evaluate(a) == Evaluate(b)
  {
    RanksPermute(a, b);
    SuitsPermute(a, b);
    var ra, rb := Ranks(a), Ranks(b);
    ElemsOfMultiset(ra, rb);
    IncreasingUnique(SortedDistinct(ra), SortedDistinct(rb));
    assert CountMap(ra) == CountMap(rb);
    assert RankGroups(ra) == RankGroups(rb);
    assert IsFlush(a) == IsFlush(b);
    assert WheelRanks(ra) == WheelRanks(rb) by {
      assert 14 in ra <==> 14 in Elems(ra);
      assert 14 in rb <==> 14 in Elems(rb);
    }
    DescendingUnique(SortDesc(ra), SortDesc(rb));
  }

  // ----- compareHands -----

  /** kickerRanks[i] || 0: the entry at i, or 0 past the end. */
  function KickerAt(k: seq<int>, i: int): int
  {
    if 0 <= i < |k| then k[i] else 0
  }

  function Max(a: int, b: int): int
  {
    if a >= b then a else b
  }

  /** The kicker loop from index i up to n: the first difference, or 0. */
  function Lex(x: seq<int>, y: seq<int>, i: nat, n: nat): int
    decreases n - i
  {
    if i >= n then 0
    else if KickerAt(x, i) != KickerAt(y, i) then KickerAt(x, i) - KickerAt(y, i)
    else Lex(x, y, i + 1, n)
  }

  /** What compareHands returns: positive when a is stronger, negative when b is, 0 on a tie. */
  function Compare(a: Evaluation, b: Evaluation): int
  {
    if a.category != b.category then a.category - b.category
    else Lex(a.kickerRanks, b.kickerRanks, 0, Max(|a.kickerRanks|, |b.kickerRanks|))
  }

  /** compareHands: the category difference, else the first kicker difference. */
  method CompareHands(a: Evaluation, b: Evaluation) returns (r: int)
    ensures r == Compare(a, b)
  {
    if a.category != b.category {
      return a.category - b.category;
    }
    var len := Max(|a.kickerRanks|, |b.kickerRanks|);
    var i := 0;
    while i < len
      invariant 0 <= i <= len
      invariant Lex(a.kickerRanks, b.kickerRanks, i, len) == Compare(a, b)
    {
      var av := KickerAt(a.kickerRanks, i);
      var bv := KickerAt(b.kickerRanks, i);
      if av != bv {
        return av - bv;
      }
      i := i + 1;
    }
    return 0;
  }

  /** The kicker lists tie: equal at every index, missing entries read as 0. */
  ghost predicate KickersTie(x: seq<int>, y: seq<int>)
  {
    forall j :: 0 <= j ==> KickerAt(x, j) == KickerAt(y, j)
  }

  /** x is above y at index j, and they agree at every index from i up to j. */
  ghost predicate AboveAt(x: seq<int>, y: seq<int>, i: int, j: int)
  {
    i <= j && KickerAt(x, j) > KickerAt(y, j) &&
    forall m :: i <= m < j ==> KickerAt(x, m) == KickerAt(y, m)
  }

  /** The usual lexicographic order on hands: the higher category wins; within
      a category the first differing kicker decides. */
  ghost predicate Outranks(a: Evaluation, b: Evaluation)
  {
    a.category > b.category ||
    (a.category == b.category && exists j :: AboveAt(a.kickerRanks, b.kickerRanks, 0, j))
  }

  lemma {:induction false} LexMeaning(x: seq<int>, y: seq<int>, i: nat, n: nat)
    requires i <= n && |x| <= n && |y| <= n
    ensures Lex(x, y, i, n) > 0 <==> exists j :: AboveAt(x, y, i, j)
    ensures Lex(x, y, i, n) == 0 <==> forall j :: i <= j ==> KickerAt(x, j) == KickerAt(y, j)
    decreases n - i
  {
    if i == n {
      assert forall j :: i <= j ==> KickerAt(x, j) == 0 && KickerAt(y, j) == 0;
    } else if KickerAt(x, i) != KickerAt(y, i) {
      if KickerAt(x, i) > KickerAt(y, i) {
        assert AboveAt(x, y, i, i);
      }
      if exists j :: AboveAt(x, y, i, j) {
        var j :| AboveAt(x, y, i, j);
        assert j == i;
      }
    } else {
      LexMeaning(x, y, i + 1, n);
      if exists j :: AboveAt(x, y, i, j) {
        var j :| AboveAt(x, y, i, j);
        assert AboveAt(x, y, i + 1, j);
      }
      var next := i + 1;
      if exists j :: AboveAt(x, y, next, j) {
        var j :| AboveAt(x, y, next, j);
        assert AboveAt(x, y, i, j);
      }
      if forall j :: i + 1 <= j ==> KickerAt(x, j) == KickerAt(y, j) {
        assert forall j :: i <= j ==> KickerAt(x, j) == KickerAt(y, j);
      }
    }
  }

  /** compareHands is positive exactly when a outranks b, and 0 exactly when
      the categories and every kicker agree. */
  lemma CompareMeaning(a: Evaluation, b: Evaluation)
    ensures Compare(a, b) > 0 <==> Outranks(a, b)
    ensures Compare(a, b) == 0 <==> a.category == b.category && KickersTie(a.kickerRanks, b.kickerRanks)
  {
    if a.category == b.category {
      LexMeaning(a.kickerRanks, b.kickerRanks, 0, Max(|a.kickerRanks|, |b.kickerRanks|));
    }
  }

  lemma {:induction false} LexAntisymmetric(x: seq<int>, y: seq<int>, i: nat, n: nat)
    ensures Lex(x, y, i, n) == -Lex(y, x, i, n)
    decreases n - i
  {
    if i < n && KickerAt(x, i) == KickerAt(y, i) {
      LexAntisymmetric(x, y, i + 1, n);
    }
  }

  /** compareHands(a, b) is compareHands(b, a) negated; in particular
      compareHands(a, a) is 0. */
  lemma CompareAntisymmetric(a: Evaluation, b: Evaluation)
    ensures Compare(a, b) == -Compare(b, a)
    ensures Compare(a, a) == 0
  {
    if a.category == b.category {
      LexAntisymmetric(a.kickerRanks, b.kickerRanks, 0, Max(|a.kickerRanks|, |b.kickerRanks|));
      assert Max(|a.kickerRanks|, |b.kickerRanks|) == Max(|b.kickerRanks|, |a.kickerRanks|);
    }
    LexAntisymmetric(a.kickerRanks, a.kickerRanks, 0, |a.kickerRanks|);
  }

  /** Running the kicker loop past the end of both lists changes nothing. */
  lemma {:induction false} LexPadding(x: seq<int>, y: seq<int>, i: nat, n: nat, m: nat)
    requires |x| <= n && |y| <= n && n <= m && i <= m
    ensures Lex(x, y, i, m) == Lex(x, y, i, n)
    decreases m - i
  {
    if i < m {
      LexPadding(x, y, i + 1, n, m);
      if i >= n {
        assert KickerAt(x, i) == 0 && KickerAt(y, i) == 0;
      }
    }
  }

  lemma {:induction false} LexTransitive(x: seq<int>, y: seq<int>, z: seq<int>, i: nat, n: nat)
    requires Lex(x, y, i, n) <= 0 && Lex(y, z, i, n) <= 0
    ensures Lex(x, z, i, n) <= 0
    decreases n - i
  {
    if i < n && KickerAt(x, i) == KickerAt(y, i) && KickerAt(y, i) == KickerAt(z, i) {
      LexTransitive(x, y, z, i + 1, n);
    }
  }

  /** compareHands is transitive, so with antisymmetry it is a total preorder
      and sorting by it is well defined. */
  lemma CompareTransitive(a: Evaluation, b: Evaluation, c: Evaluation)
    requires Compare(a, b) <= 0 && Compare(b, c) <= 0
    ensures Compare(a, c) <= 0
  {
    if a.category == b.category && b.category == c.category {
      var x, y, z := a.kickerRanks, b.kickerRanks, c.kickerRanks;
      var n := Max(Max(|x|, |y|), |z|);
      LexPadding(x, y, 0, Max(|x|, |y|), n);
      LexPadding(y, z, 0, Max(|y|, |z|), n);
      LexPadding(x, z, 0, Max(|x|, |z|), n);
      LexTransitive(x, y, z, 0, n);
    }
  }
}
