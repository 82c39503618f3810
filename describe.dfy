/** describeBestHand: the label shown for the winning hand. It recounts the
    cards like evaluateSeven, but finds the straight with straightHigh, which
    looks only at the run of consecutive ranks that ends the wheel list. */
module Describe {
  import opened Cards
  import opened RankLists
  import opened Evaluator

  // ----- straightHigh -----

  /** The last five entries of arr go up by one at each step. */
  ghost predicate EndsInRun(arr: seq<int>)
  {
    |arr| >= 5 && RunAt(arr, |arr| - 5)
  }

  /** What straightHigh returns for an increasing list: its last entry when the
      final streak reaches five, else 0. */
  ghost function StraightTop(arr: seq<int>): int
  {
    if EndsInRun(arr) then arr[|arr| - 1] else 0
  }

  /** straightHigh: the streak loop that also remembers the last value seen. */
  method StraightHigh(arr: seq<int>) returns (h: int)
    requires StrictlyIncreasing(arr)
    ensures h == StraightTop(arr)
  {
    var streak := 1;
    var high := if |arr| > 0 then arr[0] else 0;
    var i := 1;
    while i < |arr|
      invariant 1 <= i <= |arr| || (i == 1 && arr == [])
      invariant 1 <= streak <= i
      invariant arr != [] ==> high == arr[i - 1]
      invariant forall k :: i - streak <= k < i - 1 ==> arr[k + 1] == arr[k] + 1
      invariant i - streak > 0 ==> arr[i - streak] != arr[i - streak - 1] + 1
    {
      if arr[i] == arr[i - 1] + 1 {
        streak := streak + 1;
        high := arr[i];
      } else if arr[i] != arr[i - 1] {
        streak := 1;
        high := arr[i];
      }
      i := i + 1;
    }
    if streak >= 5 {
      assert RunAt(arr, |arr| - 5);
      h := high;
    } else {
      if |arr| >= 5 {
        var k := i - streak - 1;
        assert |arr| - 5 <= k < |arr| - 1 && arr[k + 1] != arr[k] + 1;
      }
      h := 0;
    }
  }

  /** A value straightHigh reports is the top of five consecutive entries, and
      the largest entry of the list. */
  lemma StraightTopMeaning(arr: seq<int>)
    requires StrictlyIncreasing(arr)
    ensures StraightTop(arr) != 0 ==>
      RunOfFive(arr) && FiveRunFrom(Elems(arr), StraightTop(arr) - 4) &&
      forall v :: v in arr ==> v <= StraightTop(arr)
  {
    if StraightTop(arr) != 0 {
      var n := |arr|;
      assert RunAt(arr, n - 5);
      assert arr[n - 5] in Elems(arr) && arr[n - 4] in Elems(arr) && arr[n - 3] in Elems(arr);
      assert arr[n - 2] in Elems(arr) && arr[n - 1] in Elems(arr);
    }
  }

  /** The wheel list of the cards: distinct ranks ascending, with 1 in front
      when an ace is present. */
  function WheelList(cards: seq<Card>): (w: seq<int>)
    ensures StrictlyIncreasing(w) && Elems(w) == WheelRanks(Ranks(cards))
  {
    var u := SortedDistinct(Ranks(cards));
    RanksInRange(cards);
    assert forall v :: v in u ==> v in Elems(u);
    assert 14 in u <==> 14 in Elems(u);
    WithWheel(u)
  }

  // ----- Labels -----

  /** The kinds of label describeBestHand produces, with the ranks they name. */
  datatype Description =
    | StraightFlush
    | FourOfAKind(rank: int)
    | FullHouse(trips: int, pair: int)
    | Flush
    | Straight(high: int)
    | ThreeOfAKind(rank: int)
    | TwoPair(high: int, low: int)
    | OnePair(rank: int)
    | HighCard(rank: int)

  /** The name of each category, as it opens the label; a high card has none. */
  function CategoryName(c: int): string
  {
    if c == 8 then "ストレートフラッシュ"
    else if c == 7 then "フォーカード"
    else if c == 6 then "フルハウス"
    else if c == 5 then "フラッシュ"
    else if c == 4 then "ストレート"
    else if c == 3 then "スリーカード"
    else if c == 2 then "ツーペア"
    else if c == 1 then "ワンペア"
    else ""
  }

  /** A text that opens with the given name. */
  function Titled(name: string, detail: string): (t: string)
    ensures name <= t && |t| == |name| + |detail|
  {
    name + detail
  }

  /** The text of each label: it opens with the name of its category, and a
      high-card label opens with its rank text. */
  function Label(d: Description): (t: string)
    ensures CategoryName(DescCategory(d)) <= t
    ensures d.HighCard? ==> RankNumToText(d.rank) <= t && |t| >= 2 && t[|t| - 2..] == "ハイ"
  {
    match d
    case StraightFlush => "ストレートフラッシュ"
    case FourOfAKind(r) => Titled("フォーカード", "（" + RankNumToText(r) + "）")
    case FullHouse(t, p) => Titled("フルハウス", "（" + RankNumToText(t) + " と " + RankNumToText(p) + "）")
    case Flush => "フラッシュ"
    case Straight(h) => Titled("ストレート", "（ハイ " + RankNumToText(h) + "）")
    case ThreeOfAKind(r) => Titled("スリーカード", "（" + RankNumToText(r) + "）")
    case TwoPair(a, b) => Titled("ツーペア", "（" + RankNumToText(a) + " と " + RankNumToText(b) + "）")
    case OnePair(r) => Titled("ワンペア", "（" + RankNumToText(r) + "）")
    case HighCard(r) => Titled(RankNumToText(r), "ハイ")
  }

  /** The ranks a description names lie in 2..14, as they do for every
      description of real cards. */
  ghost predicate NamesValidRanks(d: Description)
  {
    match d
    case FourOfAKind(r) => 2 <= r <= 14
    case FullHouse(a, b) => 2 <= a <= 14 && 2 <= b <= 14
    case Straight(h) => 2 <= h <= 14
    case ThreeOfAKind(r) => 2 <= r <= 14
    case TwoPair(a, b) => 2 <= a <= 14 && 2 <= b <= 14
    case OnePair(r) => 2 <= r <= 14
    case HighCard(r) => 2 <= r <= 14
    case _ => true
  }

  /** The rank text that opens s: two characters when the second is a digit,
      as in "10", otherwise one. */
  function LeadingRankText(s: string): (x: string)
    ensures x <= s
  {
    if |s| >= 2 && '0' <= s[1] <= '9' then s[..2]
    else if s == [] then s
    else s[..1]
  }

  /** The two ranks of the tail "X と Y）" of a full-house or two-pair label. */
  ghost function TwoRanksFromText(u: string): (int, int)
  {
    var x := LeadingRankText(u);
    if |x| + 4 <= |u| then (RankFromText(x), RankFromText(u[|x| + 3..|u| - 1])) else (0, 0)
  }

  /** Reads a label back: the opening characters give the kind, and the rank
      texts between the brackets, or before "ハイ", give the ranks. */
  ghost function Unlabel(t: string): Description
  {
    if |t| < 3 then HighCard(0)
    else if t[0] == 'ス' && t[1] == 'ト' then
      if |t| >= 6 && t[5] == 'フ' then StraightFlush
      else if |t| >= 10 then Straight(RankFromText(t[9..|t| - 1]))
      else HighCard(0)
    else if t[0] == 'ス' then
      if |t| >= 8 then ThreeOfAKind(RankFromText(t[7..|t| - 1])) else HighCard(0)
    else if t[0] == 'フ' && t[1] == 'ォ' then
      if |t| >= 8 then FourOfAKind(RankFromText(t[7..|t| - 1])) else HighCard(0)
    else if t[0] == 'フ' && t[1] == 'ル' then
      if |t| >= 6 then var r := TwoRanksFromText(t[6..]); FullHouse(r.0, r.1) else HighCard(0)
    else if t[0] == 'フ' then Flush
    else if t[0] == 'ツ' then
      if |t| >= 5 then var r := TwoRanksFromText(t[5..]); TwoPair(r.0, r.1) else HighCard(0)
    else if t[0] == 'ワ' then
      if |t| >= 6 then OnePair(RankFromText(t[5..|t| - 1])) else HighCard(0)
    else HighCard(RankFromText(t[..|t| - 2]))
  }

  lemma TwoRanksText(x: string, y: string)
    requires IsRankText(x) && IsRankText(y)
    ensures TwoRanksFromText(x + " と " + y + "）") == (RankFromText(x), RankFromText(y))
  {
    var u := x + " と " + y + "）";
    assert LeadingRankText(u) == x by {
      if |x| == 2 {
        assert u[1] == '0' && u[..2] == x;
      } else {
        assert u[1] == ' ' && u[..1] == x;
      }
    }
    assert u[|x| + 3..|u| - 1] == y;
  }

  lemma SingleRankText(name: string, x: string)
    ensures var t := Titled(name, "（" + x + "）");
      |t| == |name| + |x| + 2 && t[|name| + 1..|t| - 1] == x
  {
    var t := Titled(name, "（" + x + "）");
    assert t == name + "（" + x + "）";
  }

  /** A titled label keeps its name in front and, after the opening bracket,
      the rest of its detail. */
  lemma TitledTail(name: string, v: string)
    ensures var t := Titled(name, "（" + v);
      t[..|name|] == name && t[|name| + 1..] == v
  {
    assert Titled(name, "（" + v) == name + "（" + v;
  }

  lemma UnlabelStraightText(x: string)
    requires IsRankText(x)
    ensures Unlabel(Titled("ストレート", "（ハイ " + x + "）")) == Straight(RankFromText(x))
  {
    var t := Titled("ストレート", "（ハイ " + x + "）");
    assert t[0] == 'ス' && t[1] == 'ト' && t[5] == '（' && |t| >= 10 && t[9..|t| - 1] == x by {
      var v := "ハイ " + x + "）";
      assert "（ハイ " + x + "）" == "（" + v;
      TitledTail("ストレート", v);
      assert t[..5] == "ストレート";
    }
  }

  lemma UnlabelFullHouseText(x: string, y: string)
    requires IsRankText(x) && IsRankText(y)
    ensures Unlabel(Titled("フルハウス", "（" + x + " と " + y + "）")) ==
      FullHouse(RankFromText(x), RankFromText(y))
  {
    var t := Titled("フルハウス", "（" + x + " と " + y + "）");
    var u := x + " と " + y + "）";
    assert t[0] == 'フ' && t[1] == 'ル' && |t| >= 6 && t[6..] == u by {
      assert "（" + x + " と " + y + "）" == "（" + u;
      TitledTail("フルハウス", u);
      assert t[..5] == "フルハウス";
    }
    TwoRanksText(x, y);
  }

  lemma UnlabelTwoPairText(x: string, y: string)
    requires IsRankText(x) && IsRankText(y)
    ensures Unlabel(Titled("ツーペア", "（" + x + " と " + y + "）")) ==
      TwoPair(RankFromText(x), RankFromText(y))
  {
    var t := Titled("ツーペア", "（" + x + " と " + y + "）");
    var u := x + " と " + y + "）";
    assert t[0] == 'ツ' && |t| >= 5 && t[5..] == u by {
      assert "（" + x + " と " + y + "）" == "（" + u;
      TitledTail("ツーペア", u);
      assert t[..4] == "ツーペア";
    }
    TwoRanksText(x, y);
  }

  lemma UnlabelHighCardText(x: string)
    requires IsRankText(x)
    ensures Unlabel(Titled(x, "ハイ")) == HighCard(RankFromText(x))
  {
    var t := Titled(x, "ハイ");
    assert t == x + "ハイ";
    assert t[0] == x[0];
    assert t[..|t| - 2] == x;
  }

  lemma UnlabelNoRank()
    ensures Unlabel(Label(StraightFlush)) == StraightFlush
    ensures Unlabel(Label(Flush)) == Flush
  {
    assert Label(StraightFlush)[5] == 'フ';
    assert Label(Flush)[1] == 'ラ';
  }

  lemma UnlabelFourOfAKind(r: int)
    requires 2 <= r <= 14
    ensures Unlabel(Label(FourOfAKind(r))) == FourOfAKind(r)
  {
    RankTextRoundTrip(r);
    SingleRankText("フォーカード", RankNumToText(r));
  }

  lemma UnlabelStraight(h: int)
    requires 2 <= h <= 14
    ensures Unlabel(Label(Straight(h))) == Straight(h)
  {
    RankTextRoundTrip(h);
    UnlabelStraightText(RankNumToText(h));
  }

  lemma UnlabelFullHouse(a: int, b: int)
    requires 2 <= a <= 14 && 2 <= b <= 14
    ensures Unlabel(Label(FullHouse(a, b))) == FullHouse(a, b)
  {
    RankTextRoundTrip(a);
    RankTextRoundTrip(b);
    UnlabelFullHouseText(RankNumToText(a), RankNumToText(b));
  }

  lemma UnlabelTwoPair(a: int, b: int)
    requires 2 <= a <= 14 && 2 <= b <= 14
    ensures Unlabel(Label(TwoPair(a, b))) == TwoPair(a, b)
  {
    RankTextRoundTrip(a);
    RankTextRoundTrip(b);
    UnlabelTwoPairText(RankNumToText(a), RankNumToText(b));
  }

  lemma UnlabelThreeOfAKind(r: int)
    requires 2 <= r <= 14
    ensures Unlabel(Label(ThreeOfAKind(r))) == ThreeOfAKind(r)
  {
    RankTextRoundTrip(r);
    SingleRankText("スリーカード", RankNumToText(r));
  }

  lemma UnlabelOnePair(r: int)
    requires 2 <= r <= 14
    ensures Unlabel(Label(OnePair(r))) == OnePair(r)
  {
    RankTextRoundTrip(r);
    SingleRankText("ワンペア", RankNumToText(r));
  }

  lemma UnlabelHighCard(r: int)
    requires 2 <= r <= 14
    ensures Unlabel(Label(HighCard(r))) == HighCard(r)
  {
    RankTextRoundTrip(r);
    UnlabelHighCardText(RankNumToText(r));
  }

  /** Every label reads back as the description it was made from. */
  lemma UnlabelLabel(d: Description)
    requires NamesValidRanks(d)
    ensures Unlabel(Label(d)) == d
  {
    UnlabelNoRank();
    match d
    case StraightFlush =>
    case Flush =>
    case FourOfAKind(r) => UnlabelFourOfAKind(r);
    case Straight(h) => UnlabelStraight(h);
    case FullHouse(a, b) => UnlabelFullHouse(a, b);
    case TwoPair(a, b) => UnlabelTwoPair(a, b);
    case ThreeOfAKind(r) => UnlabelThreeOfAKind(r);
    case OnePair(r) => UnlabelOnePair(r);
    case HighCard(r) => UnlabelHighCard(r);
  }

  /** Different descriptions get different labels: the text determines the
      kind of hand and every rank it names. */
  lemma LabelInjective(d1: Description, d2: Description)
    requires NamesValidRanks(d1) && NamesValidRanks(d2)
    requires Label(d1) == Label(d2)
    ensures d1 == d2
  {
    UnlabelLabel(d1);
    UnlabelLabel(d2);
  }

  /** The category number evaluateSeven uses for the same kind of hand. */
  function DescCategory(d: Description): (c: int)
    ensures 0 <= c <= 8
  {
    match d
    case StraightFlush => 8
    case FourOfAKind(_) => 7
    case FullHouse(_, _) => 6
    case Flush => 5
    case Straight(_) => 4
    case ThreeOfAKind(_) => 3
    case TwoPair(_, _) => 2
    case OnePair(_) => 1
    case HighCard(_) => 0
  }

  /** Some group counts rank v exactly twice. */
  ghost predicate IsPairRank(g: seq<Group>, v: int)
  {
    exists i :: 0 <= i < |g| && g[i].count == 2 && g[i].rank == v
  }

  /** The ranks of the groups counted exactly twice, in group order
      (rankGroups.filter(count == 2).map(rank)). */
  function PairRanks(g: seq<Group>): (r: seq<int>)
    ensures forall v :: v in r <==> IsPairRank(g, v)
    ensures g != [] && g[0].count == 2 ==> |r| >= 1
    ensures |g| > 1 && g[0].count == 2 && g[1].count == 2 ==> |r| >= 2
  {
    if g == [] then []
    else
      var t := PairRanks(g[1..]);
      assert forall v :: IsPairRank(g, v) <==> (g[0].count == 2 && v == g[0].rank) || IsPairRank(g[1..], v) by {
        forall v | IsPairRank(g, v)
          ensures (g[0].count == 2 && v == g[0].rank) || IsPairRank(g[1..], v)
        {
          var i :| 0 <= i < |g| && g[i].count == 2 && g[i].rank == v;
          if i > 0 {
            assert g[1..][i - 1] == g[i];
          }
        }
        forall v | IsPairRank(g[1..], v)
          ensures IsPairRank(g, v)
        {
          var i :| 0 <= i < |g[1..]| && g[1..][i].count == 2 && g[1..][i].rank == v;
          assert g[i + 1] == g[1..][i];
        }
      }
      (if g[0].count == 2 then [g[0].rank] else []) + t
  }

  /** The two highest pair ranks, highest first (pairs.sort(desc).slice(0, 2)). */
  function TopTwoPairs(g: seq<Group>): (p: seq<int>)
    requires |g| > 1 && g[0].count == 2 && g[1].count == 2
    ensures |p| == 2
  {
    var pairs := SortDesc(PairRanks(g));
    assert |pairs| == |PairRanks(g)| by {
      assert |pairs| == |multiset(pairs)|;
    }
    pairs[..2]
  }

  /** The higher of the hole ranks, ace as 14 (holeVals.sort(desc)[0]). */
  function HoleHigh(hole: Hole): (h: int)
    ensures h == Max(AceHigh(hole.first.rank), AceHigh(hole.second.rank))
  {
    var a, b := AceHigh(hole.first.rank), AceHigh(hole.second.rank);
    var vals := SortDesc(Ranks(HoleCards(hole)));
    assert Ranks(HoleCards(hole)) == [a, b];
    assert |vals| == 2 by {
      assert |vals| == |multiset(vals)|;
    }
    assert a in multiset(vals) && b in multiset(vals);
    assert vals[0] in multiset([a, b]);
    vals[0]
  }

  /** The chain of tests of describeBestHand, given the flush test, the
      straight top and the rank groups. */
  function Pick(isFlush: bool, top: int, g: seq<Group>, hole: Hole): Description
  {
    if isFlush && top != 0 then StraightFlush
    else if MaxCount(g) == 4 then FourOfAKind(MaxRank(g))
    else if MaxCount(g) == 3 && SecondCount(g) >= 2 then FullHouse(MaxRank(g), SecondRank(g))
    else if isFlush then Flush
    else if top != 0 then Straight(top)
    else if MaxCount(g) == 3 then ThreeOfAKind(MaxRank(g))
    else if MaxCount(g) == 2 && SecondCount(g) == 2 then
      var p := TopTwoPairs(g);
      TwoPair(p[0], p[1])
    else if MaxCount(g) == 2 then OnePair(MaxRank(g))
    else HighCard(HoleHigh(hole))
  }

  /** The description describeBestHand gives for the hole cards and the board. */
  ghost function Describe(hole: Hole, community: seq<Card>): Description
  {
    var cards := HoleCards(hole) + community;
    Pick(IsFlush(cards), StraightTop(WheelList(cards)), RankGroups(Ranks(cards)), hole)
  }

  /** describeBestHand: recount the cards, find the straight top, and pick
      the first label that applies. */
  method DescribeBestHand(hole: Hole, community: seq<Card>) returns (text: string)
    ensures text == Label(Describe(hole, community))
  {
    var cards := HoleCards(hole) + community;
    var ranks := Ranks(cards);
    var countsByRank := Tally(ranks);
    var isFlush := HasFlush(cards);
    var uniqSorted := SortedDistinct(ranks);
    RanksInRange(cards);
    assert forall v :: v in uniqSorted ==> 2 <= v <= 14 by {
      assert forall v :: v in uniqSorted ==> v in Elems(uniqSorted);
    }
    var withWheel := WithWheel(uniqSorted);
    assert withWheel == WheelList(cards);
    var straightTop := StraightHigh(withWheel);
    var rankGroups := SortGroups(GroupsOf(uniqSorted, countsByRank));
    assert rankGroups == RankGroups(ranks);
    var d := Pick(isFlush, straightTop, rankGroups, hole);
    text := Label(d);
  }

  // ----- What the labels say -----

  /** The cards a description is about. */
  function AllCards(hole: Hole, community: seq<Card>): seq<Card>
  {
    HoleCards(hole) + community
  }

  lemma PickStraight(isFlush: bool, top: int, g: seq<Group>, hole: Hole)
    ensures Pick(isFlush, top, g, hole).StraightFlush? ==> top != 0
    ensures Pick(isFlush, top, g, hole).Straight? ==> Pick(isFlush, top, g, hole).high == top && top != 0
    ensures Pick(isFlush, top, g, hole).HighCard? ==> Pick(isFlush, top, g, hole).rank == HoleHigh(hole)
  {
  }

  lemma PickCategory(isFlush: bool, straight: bool, top: int, g: seq<Group>, hole: Hole)
    requires (top != 0) == straight
    ensures DescCategory(Pick(isFlush, top, g, hole)) == CategoryOf(isFlush, straight, MaxCount(g), SecondCount(g))
  {
    var d := Pick(isFlush, top, g, hole);
    var mc, sc := MaxCount(g), SecondCount(g);
    if isFlush && straight {
      assert d == StraightFlush;
    } else if mc == 4 {
      assert d.FourOfAKind?;
    } else if mc == 3 && sc >= 2 {
      assert d.FullHouse?;
    } else if isFlush {
      assert d == Flush;
    } else if straight {
      assert d.Straight?;
    } else if mc == 3 {
      assert d.ThreeOfAKind?;
    } else if mc == 2 && sc == 2 {
      assert d.TwoPair?;
    } else if mc == 2 {
      assert d.OnePair?;
    } else {
      assert d.HighCard?;
    }
  }

  /** A straight label names the top of five consecutive ranks that are
      present, and no higher rank is present; a straight flush label is given
      only when a straight is present. */
  lemma DescribedStraightIsStraight(hole: Hole, community: seq<Card>)
    ensures Describe(hole, community).StraightFlush? ==> IsStraight(AllCards(hole, community))
    ensures Describe(hole, community).Straight? ==>
      var h := Describe(hole, community).high;
      IsStraight(AllCards(hole, community)) &&
      FiveRunFrom(WheelRanks(Ranks(AllCards(hole, community))), h - 4) &&
      forall v :: v in Ranks(AllCards(hole, community)) ==> v <= h
  {
    var cards := AllCards(hole, community);
    var w := WheelList(cards);
    var ranks := Ranks(cards);
    var d := Describe(hole, community);
    assert d == Pick(IsFlush(cards), StraightTop(w), RankGroups(ranks), hole);
    PickStraight(IsFlush(cards), StraightTop(w), RankGroups(ranks), hole);
    if d.Straight? || d.StraightFlush? {
      StraightTopMeaning(w);
      RunOfFiveIffFiveRun(w);
      assert forall v :: v in ranks ==> v in w by {
        forall v | v in ranks
          ensures v in w
        {
          assert v in Elems(ranks);
          assert v in Elems(w);
        }
      }
    }
  }

  /** A run of five wheel values topped by h, with no rank above h, has h >= 6:
      a run starting at the ace read as 1 would need 14 <= h. */
  lemma WheelRunTop(ranks: seq<int>, h: int)
    requires forall v :: v in ranks ==> 2 <= v <= h
    requires FiveRunFrom(WheelRanks(ranks), h - 4)
    ensures h >= 6
  {
    if 14 in ranks {
      assert 14 <= h;
    } else {
      assert h - 4 in ranks;
    }
  }

  /** The comment in straightHigh asks for A-2-3-4-5 to be named with high 5,
      but a straight label never names 5: with an ace present the wheel list
      ends in 14, and without one the lowest possible run starts at 2. */
  lemma WheelNeverNamed(hole: Hole, community: seq<Card>)
    ensures Describe(hole, community).Straight? ==> Describe(hole, community).high >= 6
  {
    var cards := AllCards(hole, community);
    DescribedStraightIsStraight(hole, community);
    RanksInRange(cards);
    if Describe(hole, community).Straight? {
      WheelRunTop(Ranks(cards), Describe(hole, community).high);
    }
  }

  lemma PickGroups(isFlush: bool, top: int, g: seq<Group>, hole: Hole)
    ensures var d := Pick(isFlush, top, g, hole);
      (d.FourOfAKind? ==> d.rank == MaxRank(g) && MaxCount(g) == 4) &&
      (d.FullHouse? ==> d.trips == MaxRank(g) && d.pair == SecondRank(g) && MaxCount(g) == 3 && SecondCount(g) >= 2) &&
      (d.ThreeOfAKind? ==> d.rank == MaxRank(g) && MaxCount(g) == 3) &&
      (d.TwoPair? ==> MaxCount(g) == 2 && SecondCount(g) == 2 && [d.high, d.low] == TopTwoPairs(g)) &&
      (d.OnePair? ==> d.rank == MaxRank(g) && MaxCount(g) == 2)
  {
  }

  /** Four of a kind, full house, three of a kind and one pair name ranks
      that occur that many times among the cards. */
  lemma DescribedRanksOccur(hole: Hole, community: seq<Card>)
    ensures var d := Describe(hole, community);
      var ranks := Ranks(AllCards(hole, community));
      (d.FourOfAKind? ==> d.rank in ranks && multiset(ranks)[d.rank] == 4) &&
      (d.FullHouse? ==> d.trips in ranks && multiset(ranks)[d.trips] == 3 &&
                        d.pair in ranks && d.pair != d.trips && multiset(ranks)[d.pair] >= 2) &&
      (d.ThreeOfAKind? ==> d.rank in ranks && multiset(ranks)[d.rank] == 3) &&
      (d.OnePair? ==> d.rank in ranks && multiset(ranks)[d.rank] == 2)
  {
    var cards := AllCards(hole, community);
    var ranks := Ranks(cards);
    var g := RankGroups(ranks);
    var d := Pick(IsFlush(cards), StraightTop(WheelList(cards)), g, hole);
    assert Describe(hole, community) == d;
    PickGroups(IsFlush(cards), StraightTop(WheelList(cards)), g, hole);
    TopGroups(ranks);
  }

  lemma {:induction false} PairRanksDistinct(g: seq<Group>)
    requires Distinct(GroupRanks(g))
    ensures Distinct(PairRanks(g))
  {
    if g != [] {
      DistinctRanksTail(g);
      PairRanksDistinct(g[1..]);
      var t := PairRanks(g[1..]);
      if g[0].count == 2 {
        forall v | v in t
          ensures v != g[0].rank
        {
          var i :| 0 <= i < |g[1..]| && g[1..][i].count == 2 && g[1..][i].rank == v;
          assert GroupRanks(g)[0] != GroupRanks(g)[i + 1];
        }
        ConsDistinct(g[0].rank, t);
        assert PairRanks(g) == [g[0].rank] + t;
      } else {
        assert PairRanks(g) == t;
      }
    }
  }

  /** The pair ranks, highest first. */
  lemma SortedPairs(g: seq<Group>)
    requires |g| > 1 && g[0].count == 2 && g[1].count == 2
    ensures |SortDesc(PairRanks(g))| == |PairRanks(g)| >= 2
    ensures TopTwoPairs(g) == SortDesc(PairRanks(g))[..2]
    ensures Distinct(GroupRanks(g)) ==> Distinct(SortDesc(PairRanks(g)))
  {
    var pr := PairRanks(g);
    var pairs := SortDesc(pr);
    assert |pairs| == |multiset(pairs)|;
    if Distinct(GroupRanks(g)) {
      PairRanksDistinct(g);
      PermutationKeepsDistinct(pr, pairs);
    }
  }

  lemma PairListCounts(ranks: seq<int>)
    ensures var g := RankGroups(ranks);
      forall v :: v in SortDesc(PairRanks(g)) ==> v in ranks && multiset(ranks)[v] == 2
    ensures var g := RankGroups(ranks);
      forall v :: v in ranks && multiset(ranks)[v] == 2 ==> v in SortDesc(PairRanks(g))
  {
    var g := RankGroups(ranks);
    RankGroupsMeaning(ranks);
    var pr := PairRanks(g);
    var pairs := SortDesc(pr);
    forall v | v in pairs
      ensures v in ranks && multiset(ranks)[v] == 2
    {
      assert v in multiset(pr);
      assert v in pr;
      assert IsPairRank(g, v);
      var i :| 0 <= i < |g| && g[i].count == 2 && g[i].rank == v;
    }
    forall v | v in ranks && multiset(ranks)[v] == 2
      ensures v in pairs
    {
      var i :| 0 <= i < |GroupRanks(g)| && GroupRanks(g)[i] == v;
      assert IsPairRank(g, v);
      assert v in multiset(pairs);
    }
  }

  /** The two ranks pairs.slice(0, 2) picks are different pair ranks, the higher
      first, and every other pair rank is below both. */
  lemma TopTwoPairsMeaning(ranks: seq<int>)
    requires var g := RankGroups(ranks); |g| > 1 && g[0].count == 2 && g[1].count == 2
    ensures var p := TopTwoPairs(RankGroups(ranks));
      p[0] > p[1] &&
      p[0] in ranks && multiset(ranks)[p[0]] == 2 &&
      p[1] in ranks && multiset(ranks)[p[1]] == 2 &&
      forall v :: v in ranks && multiset(ranks)[v] == 2 ==> v == p[0] || v <= p[1]
  {
    var g := RankGroups(ranks);
    RankGroupsMeaning(ranks);
    SortedPairs(g);
    PairListCounts(ranks);
    var pairs := SortDesc(PairRanks(g));
    assert pairs[0] != pairs[1];
    assert pairs[0] in pairs && pairs[1] in pairs;
    forall v | v in ranks && multiset(ranks)[v] == 2
      ensures v == pairs[0] || v <= pairs[1]
    {
      var j :| 0 <= j < |pairs| && pairs[j] == v;
      if j >= 1 {
        assert pairs[1] >= pairs[j];
      }
    }
  }

  /** Two pair names two different ranks, the higher first, each occurring
      exactly twice, and no other rank occurring twice lies above the lower one. */
  lemma TwoPairNamesTopPairs(hole: Hole, community: seq<Card>)
    ensures var d := Describe(hole, community);
      var ranks := Ranks(AllCards(hole, community));
      d.TwoPair? ==>
        d.high > d.low &&
        d.high in ranks && multiset(ranks)[d.high] == 2 &&
        d.low in ranks && multiset(ranks)[d.low] == 2 &&
        forall v :: v in ranks && multiset(ranks)[v] == 2 ==> v == d.high || v <= d.low
  {
    var cards := AllCards(hole, community);
    var ranks := Ranks(cards);
    var g := RankGroups(ranks);
    var d := Pick(IsFlush(cards), StraightTop(WheelList(cards)), g, hole);
    assert Describe(hole, community) == d;
    PickGroups(IsFlush(cards), StraightTop(WheelList(cards)), g, hole);
    if d.TwoPair? {
      TopTwoPairsMeaning(ranks);
    }
  }

  /** Where both tests agree about the straight, the label is of the same
      kind as the category evaluateSeven computes. */
  lemma DescriptionMatchesCategory(hole: Hole, community: seq<Card>)
    requires (StraightTop(WheelList(AllCards(hole, community))) != 0) == IsStraight(AllCards(hole, community))
    ensures DescCategory(Describe(hole, community)) == Evaluate(AllCards(hole, community)).category
  {
    var cards := AllCards(hole, community);
    var g := RankGroups(Ranks(cards));
    PickCategory(IsFlush(cards), IsStraight(cards), StraightTop(WheelList(cards)), g, hole);
    assert Evaluate(cards).category == CategoryOf(IsFlush(cards), IsStraight(cards), MaxCount(g), SecondCount(g));
  }

  /** The high-card label names the higher hole card (ace as 14), whatever the
      board holds. */
  lemma HighCardNamesHigherHole(hole: Hole, community: seq<Card>)
    ensures Describe(hole, community).HighCard? ==>
      Label(Describe(hole, community)) == RankNumToText(Max(AceHigh(hole.first.rank), AceHigh(hole.second.rank))) + "ハイ"
  {
    var cards := AllCards(hole, community);
    var d := Pick(IsFlush(cards), StraightTop(WheelList(cards)), RankGroups(Ranks(cards)), hole);
    assert Describe(hole, community) == d;
    PickStraight(IsFlush(cards), StraightTop(WheelList(cards)), RankGroups(Ranks(cards)), hole);
    if d.HighCard? {
      assert d == HighCard(HoleHigh(hole));
    }
  }

  /** When no pair, straight or flush is found, the label is the higher hole card. */
  lemma NothingFoundMeansHighCard(hole: Hole, community: seq<Card>)
    requires !IsFlush(AllCards(hole, community))
    requires StraightTop(WheelList(AllCards(hole, community))) == 0
    requires forall v :: v in Ranks(AllCards(hole, community)) ==> multiset(Ranks(AllCards(hole, community)))[v] < 2
    ensures Describe(hole, community) == HighCard(Max(AceHigh(hole.first.rank), AceHigh(hole.second.rank)))
  {
    var ranks := Ranks(AllCards(hole, community));
    TopGroups(ranks);
  }

  /** Hole 2 and 3, board 4, 5, 6, 9, K of mixed suits. */
  function MissedStraightHole(): Hole
  {
    Hole(Card(Spade, 2), Card(Heart, 3))
  }

  function MissedStraightBoard(): seq<Card>
  {
    [Card(Diamond, 4), Card(Club, 5), Card(Spade, 6), Card(Heart, 9), Card(Diamond, 13)]
  }

  lemma MissedStraightRanks(cards: seq<Card>)
    requires cards == AllCards(MissedStraightHole(), MissedStraightBoard())
    ensures var r := Ranks(cards);
      |r| == 7 && r[0] == 2 && r[1] == 3 && r[2] == 4 && r[3] == 5 && r[4] == 6 && r[5] == 9 && r[6] == 13
  {
  }

  lemma MissedStraightCounts(cards: seq<Card>)
    requires cards == AllCards(MissedStraightHole(), MissedStraightBoard())
    ensures MaxCount(RankGroups(Ranks(cards))) == 1
  {
    MissedStraightRanks(cards);
    var ranks := Ranks(cards);
    assert StrictlyIncreasing(ranks);
    AllDifferentMaxCountOne(ranks);
  }

  lemma MissedStraightSuitCounts(suits: seq<Suit>)
    requires suits == [Spade, Heart, Diamond, Club, Spade, Heart, Diamond]
    ensures forall s: Suit :: multiset(suits)[s] <= 2
  {
    forall s: Suit
      ensures multiset(suits)[s] <= 2
    {
    }
  }

  lemma MissedStraightNoFlush(cards: seq<Card>)
    requires cards == AllCards(MissedStraightHole(), MissedStraightBoard())
    ensures !IsFlush(cards)
  {
    var suits := SuitsOf(cards);
    assert suits == [Spade, Heart, Diamond, Club, Spade, Heart, Diamond];
    MissedStraightSuitCounts(suits);
  }

  lemma MissedStraightIsStraight(cards: seq<Card>)
    requires cards == AllCards(MissedStraightHole(), MissedStraightBoard())
    ensures IsStraight(cards)
  {
    MissedStraightRanks(cards);
    var ranks := Ranks(cards);
    assert ranks[0] in ranks && ranks[1] in ranks && ranks[2] in ranks && ranks[3] in ranks && ranks[4] in ranks;
    assert FiveRunFrom(WheelRanks(ranks), 2);
  }

  /** An increasing list whose largest entry m has no m - 1 below it does not end in a run. */
  lemma NoRunBelowTop(w: seq<int>, m: int)
    requires StrictlyIncreasing(w) && m in Elems(w) && m - 1 !in Elems(w)
    requires forall v :: v in Elems(w) ==> v <= m
    ensures StraightTop(w) == 0
  {
    if |w| >= 5 {
      var n := |w|;
      assert w[n - 1] == m by {
        var k :| 0 <= k < n && w[k] == m;
        assert w[n - 1] in Elems(w);
      }
      assert w[n - 2] in Elems(w);
    }
  }

  /** When the highest rank present has no rank right below it, straightHigh
      reports no straight, whatever runs lie lower down. */
  lemma NoTopRunNoStraightTop(cards: seq<Card>, m: int)
    requires m in Ranks(cards) && m - 1 !in WheelRanks(Ranks(cards))
    requires forall v :: v in Ranks(cards) ==> v <= m
    ensures StraightTop(WheelList(cards)) == 0
  {
    var w := WheelList(cards);
    RanksInRange(cards);
    assert m in Elems(w);
    NoRunBelowTop(w, m);
  }

  lemma MissedStraightTop(cards: seq<Card>)
    requires cards == AllCards(MissedStraightHole(), MissedStraightBoard())
    ensures StraightTop(WheelList(cards)) == 0
  {
    MissedStraightRanks(cards);
    var ranks := Ranks(cards);
    assert ranks[6] in ranks;
    NoTopRunNoStraightTop(cards, 13);
  }

  /** A straight without a flush and without a repeated rank is category 4. */
  lemma PlainStraightCategory(cards: seq<Card>)
    requires !IsFlush(cards) && IsStraight(cards) && MaxCount(RankGroups(Ranks(cards))) == 1
    ensures Evaluate(cards).category == 4
  {
    var g := RankGroups(Ranks(cards));
    assert Evaluate(cards).category == CategoryOf(false, true, MaxCount(g), SecondCount(g));
  }

  /** With no flush, no run found by straightHigh and no repeated rank, the
      description is the higher hole card. */
  lemma NothingPickedIsHighCard(hole: Hole, community: seq<Card>)
    requires var cards := AllCards(hole, community);
      !IsFlush(cards) && StraightTop(WheelList(cards)) == 0 && MaxCount(RankGroups(Ranks(cards))) == 1
    ensures Describe(hole, community) == HighCard(HoleHigh(hole))
  {
    var cards := AllCards(hole, community);
    var g := RankGroups(Ranks(cards));
    assert Describe(hole, community) == Pick(false, 0, g, hole);
  }

  lemma ThreeHighLabel()
    ensures Label(HighCard(3)) == "3ハイ"
  {
    assert RankNumToText(3) == [DigitChar(3)];
  }

  /** straightHigh sees only the run that ends the wheel list, so this hand is
      scored as a straight by evaluateSeven but labelled "3ハイ" (high card 3). */
  lemma DescriberMissesStraight(hole: Hole, board: seq<Card>)
    requires hole == MissedStraightHole() && board == MissedStraightBoard()
    ensures Evaluate(AllCards(hole, board)).category == 4
    ensures Describe(hole, board) == HighCard(3)
    ensures Label(Describe(hole, board)) == "3ハイ"
  {
    var cards := AllCards(hole, board);
    MissedStraightCounts(cards);
    MissedStraightNoFlush(cards);
    MissedStraightIsStraight(cards);
    MissedStraightTop(cards);
    PlainStraightCategory(cards);
    NothingPickedIsHighCard(hole, board);
    ThreeHighLabel();
  }
}
