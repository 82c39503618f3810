/** Cards, the 52-card deck as built at the start of every hand, and the
    rank labels shown on cards and in hand descriptions. */
module Cards {

  datatype Suit = Spade | Heart | Diamond | Club

  /** Rank as stored on a card: 1 is the ace, 11, 12 and 13 are J, Q and K. */
  type Rank = r: int | 1 <= r <= 13 witness 1

  datatype Card = Card(suit: Suit, rank: Rank)

  /** The two hole cards of a seat, in the order they were dealt. */
  datatype Hole = Hole(first: Card, second: Card)

  function HoleCards(h: Hole): seq<Card>
  {
    [h.first, h.second]
  }

  /** The suits in the order the deck is built. */
  const Suits: seq<Suit> := [Spade, Heart, Diamond, Club]

  function SuitIndex(s: Suit): (k: nat)
    ensures k < 4 && Suits[k] == s
  {
    match s
    case Spade => 0
    case Heart => 1
    case Diamond => 2
    case Club => 3
  }

  /** The rank used for grouping and comparing: the ace counts 14. */
  function AceHigh(r: int): int
  {
    if r == 1 then 14 else r
  }

  /** The deck in build order: suit-major, ranks 1 to 13 within a suit. */
  function FullDeck(): seq<Card>
  {
    seq(52, i requires 0 <= i < 52 => Card(Suits[i / 13], i % 13 + 1))
  }

  ghost predicate Distinct<T>(s: seq<T>)
  {
    forall i, j :: 0 <= i < j < |s| ==> s[i] != s[j]
  }

  /** buildDeck: two nested loops pushing every suit and rank. */
  method BuildDeck() returns (d: seq<Card>)
    ensures d == FullDeck()
  {
    d := [];
    for si := 0 to 4
      invariant d == FullDeck()[..13 * si]
    {
      var s := Suits[si];
      for r := 1 to 14
        invariant d == FullDeck()[..13 * si + r - 1]
      {
        assert (13 * si + r - 1) / 13 == si && (13 * si + r - 1) % 13 == r - 1;
        d := d + [Card(s, r)];
      }
    }
  }

  /** Every card that can exist is in the built deck, at its build position. */
  lemma FullDeckHasEveryCard(c: Card)
    ensures |FullDeck()| == 52
    ensures FullDeck()[13 * SuitIndex(c.suit) + c.rank - 1] == c
    ensures c in FullDeck()
  {
    var k := 13 * SuitIndex(c.suit) + c.rank - 1;
    assert k / 13 == SuitIndex(c.suit) && k % 13 == c.rank - 1;
  }

  /** No card is built twice. */
  lemma FullDeckDistinct()
    ensures Distinct(FullDeck())
  {
    var d := FullDeck();
    forall i, j | 0 <= i < j < 52
      ensures d[i] != d[j]
    {
      if i / 13 == j / 13 {
        assert i % 13 != j % 13;
      } else {
        assert Suits[i / 13] != Suits[j / 13];
      }
    }
  }

  /** A sequence without repeats holds each of its elements exactly once. */
  lemma {:induction false} DistinctCountsOne<T>(s: seq<T>, x: T)
    requires Distinct(s)
    ensures multiset(s)[x] == if x in s then 1 else 0
  {
    if s != [] {
      assert s == [s[0]] + s[1..];
      assert Distinct(s[1..]) by {
        forall i, j | 0 <= i < j < |s[1..]| ensures s[1..][i] != s[1..][j] {
          assert s[1..][i] == s[i + 1] && s[1..][j] == s[j + 1];
        }
      }
      DistinctCountsOne(s[1..], x);
      if x == s[0] {
        assert x !in s[1..] by {
          forall k | 0 <= k < |s[1..]| ensures s[1..][k] != x {
            assert s[1..][k] == s[k + 1];
          }
        }
      }
    }
  }

  /** Each of the 52 cards occurs exactly once in the built deck. */
  lemma FullDeckExactlyOnce(c: Card)
    ensures multiset(FullDeck())[c] == 1
  {
    FullDeckDistinct();
    FullDeckHasEveryCard(c);
    DistinctCountsOne(FullDeck(), c);
  }

  /** Rearranging a sequence without repeats gives one without repeats. */
  lemma PermutationKeepsDistinct<T>(a: seq<T>, b: seq<T>)
    requires Distinct(a) && multiset(a) == multiset(b)
    ensures Distinct(b)
  {
    forall i, j | 0 <= i < j < |b|
      ensures b[i] != b[j]
    {
      if b[i] == b[j] {
        var x := b[i];
        assert b == b[..i] + [x] + b[i + 1..j] + [x] + b[j + 1..];
        assert multiset(b)[x] >= 2;
        DistinctCountsOne(a, x);
        assert false;
      }
    }
  }

  lemma ConsDistinct<T>(x: T, t: seq<T>)
    requires Distinct(t) && x !in t
    ensures Distinct([x] + t)
  {
    forall i, j | 0 <= i < j < |[x] + t|
      ensures ([x] + t)[i] != ([x] + t)[j]
    {
      assert ([x] + t)[j] == t[j - 1];
      if i > 0 {
        assert ([x] + t)[i] == t[i - 1];
      }
    }
  }

  /** A sequence holding the same cards as the built deck repeats none. */
  lemma PermutationOfDeckIsDistinct(s: seq<Card>)
    requires multiset(s) == multiset(FullDeck())
    ensures Distinct(s)
  {
    FullDeckDistinct();
    PermutationKeepsDistinct(FullDeck(), s);
  }

  // ----- Rank labels -----

  function DigitChar(d: int): (c: char)
    requires 0 <= d <= 9
    ensures '0' <= c <= '9' && c as int - '0' as int == d
  {
    ('0' as int + d) as char
  }

  ghost predicate AllDigits(s: string)
  {
    forall i :: 0 <= i < |s| ==> '0' <= s[i] <= '9'
  }

  /** Decimal text of a natural number, as JavaScript's String(n). */
  function NatToString(n: nat): (s: string)
    ensures |s| >= 1 && AllDigits(s)
    ensures s[0] == '0' ==> n == 0
  {
    if n < 10 then [DigitChar(n)] else NatToString(n / 10) + [DigitChar(n % 10)]
  }

  /** Decimal text of an integer, with a leading '-' when negative. */
  function IntToString(n: int): string
  {
    if n < 0 then "-" + NatToString(-n) else NatToString(n)
  }

  /** The value a string of decimal digits denotes. */
  function DecimalValue(s: string): nat
    requires AllDigits(s)
  {
    if s == [] then 0
    else DecimalValue(s[..|s| - 1]) * 10 + (s[|s| - 1] as int - '0' as int)
  }

  /** Reading the decimal text back gives the number. */
  lemma {:induction false} NatToStringRoundTrip(n: nat)
    ensures DecimalValue(NatToString(n)) == n
  {
    if n >= 10 {
      NatToStringRoundTrip(n / 10);
      var s := NatToString(n);
      assert s[..|s| - 1] == NatToString(n / 10);
    }
  }

  /** getRankText: the rank text drawn on a card face. */
  function GetRankText(rank: int): (t: string)
    ensures t == "A" <==> rank == 1 || rank == 14
    ensures t == "J" <==> rank == 11
    ensures t == "Q" <==> rank == 12
    ensures t == "K" <==> rank == 13
  {
    if rank == 1 || rank == 14 then "A"
    else if rank == 11 then "J"
    else if rank == 12 then "Q"
    else if rank == 13 then "K"
    else IntToString(rank)
  }

  /** rankNumToText: the rank text used in hand descriptions (1 is read as 14). */
  function RankNumToText(n: int): (t: string)
    ensures n == 1 || n == 14 ==> t == "A"
    ensures 2 <= n <= 10 ==> AllDigits(t) && DecimalValue(t) == n && t[0] != '0'
    ensures n == 11 ==> t == "J"
    ensures n == 12 ==> t == "Q"
    ensures n == 13 ==> t == "K"
  {
    var v := if n == 1 then 14 else n;
    if v == 14 then "A"
    else if v == 13 then "K"
    else if v == 12 then "Q"
    else if v == 11 then "J"
    else (if 0 <= v then NatToStringRoundTrip(v); IntToString(v) else IntToString(v))
  }

  /** A rank text as hand labels show it: one digit or letter, or "10". */
  ghost predicate IsRankText(x: string)
  {
    (|x| == 2 && x[0] == '1' && x[1] == '0') ||
    (|x| == 1 && ('0' <= x[0] <= '9' || x[0] == 'A' || x[0] == 'J' || x[0] == 'Q' || x[0] == 'K'))
  }

  /** The rank a rank text stands for, with the ace read as 14. */
  ghost function RankFromText(x: string): int
  {
    if |x| == 1 && x[0] == 'A' then 14
    else if |x| == 1 && x[0] == 'K' then 13
    else if |x| == 1 && x[0] == 'Q' then 12
    else if |x| == 1 && x[0] == 'J' then 11
    else if AllDigits(x) then DecimalValue(x)
    else 0
  }

  /** On the ranks 2 to 14, the description text of a rank has the shape of a
      rank text and reads back as that rank. */
  lemma RankTextRoundTrip(r: int)
    requires 2 <= r <= 14
    ensures IsRankText(RankNumToText(r))
    ensures RankFromText(RankNumToText(r)) == r
  {
    if r <= 9 {
      assert RankNumToText(r) == [DigitChar(r)];
    } else if r == 10 {
      assert RankNumToText(r) == [DigitChar(1)] + [DigitChar(0)];
    }
  }

  /** The two label functions agree on every integer; both map 1 and 14 to "A". */
  lemma RankTextsAgree(n: int)
    ensures GetRankText(n) == RankNumToText(n)
    ensures n == 1 || n == 14 ==> RankNumToText(n) == "A"
  {
  }

  /** Different card ranks get different labels, so a label names one rank. */
  lemma RankTextInjective(a: int, b: int)
    requires 1 <= a <= 13 && 1 <= b <= 13 && a != b
    ensures GetRankText(a) != GetRankText(b)
  {
    RankTextsAgree(a);
    RankTextsAgree(b);
    if 2 <= a <= 10 && 2 <= b <= 10 {
      assert DecimalValue(GetRankText(a)) != DecimalValue(GetRankText(b));
    }
  }
}
