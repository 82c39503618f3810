/** The table state of one hand: the deck, the seats with their hole cards
    and the community cards, with dealing, the streets and the showdown. */
module Table {
  import opened Cards
  import opened Deck
  import opened Evaluator

  datatype Option<T> = None | Some(value: T)

  /** The hole cards of all seats, seat by seat, first card before second. */
  function AllHoleCards(players: seq<Hole>): seq<Card>
  {
    if players == [] then [] else HoleCards(players[0]) + AllHoleCards(players[1..])
  }

  /** Card j of the list is the first card of seat j/2 when j is even, its second when odd. */
  lemma {:induction false} HoleCardAt(players: seq<Hole>, j: nat)
    requires j < 2 * |players|
    ensures |AllHoleCards(players)| == 2 * |players|
    ensures AllHoleCards(players)[j] == if j % 2 == 0 then players[j / 2].first else players[j / 2].second
  {
    if j >= 2 {
      HoleCardAt(players[1..], j - 2);
      assert (j - 2) / 2 == j / 2 - 1 && (j - 2) % 2 == j % 2;
    } else if |players| > 1 {
      HoleCardAt(players[1..], 0);
    } else {
      assert players[1..] == [];
    }
  }

  /** The elements of s, last first: the order in which repeated pops take them. */
  function Reversed<T>(s: seq<T>): (r: seq<T>)
    ensures |r| == |s| && multiset(r) == multiset(s)
    ensures forall k :: 0 <= k < |s| ==> r[k] == s[|s| - 1 - k]
  {
    if s == [] then []
    else
      assert s == s[..|s| - 1] + [s[|s| - 1]];
      [s[|s| - 1]] + Reversed(s[..|s| - 1])
  }

  /** The built deck after the shuffle with the given choices. */
  function ShuffledDeck(choices: seq<int>): (d: seq<Card>)
    requires ValidChoices(choices, 52)
    ensures |d| == 52 && multiset(d) == multiset(FullDeck())
  {
    FisherYatesPermutes(FullDeck(), choices, |choices| - 1);
    FisherYates(FullDeck(), choices, |choices| - 1)
  }

  /** The hole cards seat p receives from deck d: the (2p+1)-th and (2p+2)-th pops. */
  function DealtHole(d: seq<Card>, p: nat): Hole
    requires 2 * p + 2 <= |d|
  {
    Hole(d[|d| - 1 - 2 * p], d[|d| - 2 - 2 * p])
  }

  /** The state startNewHand leaves for n seats: seat p holds the cards popped
      in turn 2p and 2p+1 from the end of the shuffled deck, the deck keeps
      the rest, and the board is empty. */
  ghost predicate IsDeal(deck: seq<Card>, players: seq<Hole>, community: seq<Card>, n: nat, choices: seq<int>)
    requires ValidChoices(choices, 52) && 2 * n <= 52
  {
    var d := ShuffledDeck(choices);
    deck == d[..52 - 2 * n] &&
    |players| == n &&
    (forall p :: 0 <= p < n ==> players[p] == DealtHole(d, p)) &&
    community == []
  }

  /** Card j of the dealt hole cards is the (j+1)-th card popped from d. */
  lemma DealtCardAt(d: seq<Card>, players: seq<Hole>, j: nat)
    requires 2 * |players| <= |d| && j < 2 * |players|
    requires forall q :: 0 <= q < |players| ==> players[q] == DealtHole(d, q)
    ensures |AllHoleCards(players)| == 2 * |players|
    ensures AllHoleCards(players)[j] == d[|d| - 1 - j]
  {
    HoleCardAt(players, j);
    var q := j / 2;
    assert players[q] == DealtHole(d, q);
  }

  /** Seat by seat, the dealt hole cards are the last cards of the deck in pop order. */
  lemma {:induction false} DealtCardsFromEnd(d: seq<Card>, players: seq<Hole>)
    requires 2 * |players| <= |d|
    requires forall q :: 0 <= q < |players| ==> players[q] == DealtHole(d, q)
    ensures AllHoleCards(players) == Reversed(d[|d| - 2 * |players|..])
  {
    var a := AllHoleCards(players);
    var b := Reversed(d[|d| - 2 * |players|..]);
    if players == [] {
      assert a == [];
    } else {
      DealtCardAt(d, players, 0);
      forall j | 0 <= j < |a|
        ensures a[j] == b[j]
      {
        DealtCardAt(d, players, j);
      }
    }
  }

  /** Giving the next seat its dealt cards keeps every seat dealt from d. */
  lemma DealtNextSeat(d: seq<Card>, players: seq<Hole>, h: Hole)
    requires 2 * |players| + 2 <= |d|
    requires forall q :: 0 <= q < |players| ==> players[q] == DealtHole(d, q)
    requires h == DealtHole(d, |players|)
    ensures forall q :: 0 <= q < |players| + 1 ==> (players + [h])[q] == DealtHole(d, q)
  {
  }

  /** The deck left by dealing and the dealt hole cards together hold the cards
      of the deck before the deal. */
  lemma DealKeepsCards(d: seq<Card>, deck: seq<Card>, players: seq<Hole>)
    requires 2 * |players| <= |d| && deck == d[..|d| - 2 * |players|]
    requires forall q :: 0 <= q < |players| ==> players[q] == DealtHole(d, q)
    ensures multiset(deck + AllHoleCards(players)) == multiset(d)
  {
    var k := |d| - 2 * |players|;
    DealtCardsFromEnd(d, players);
    assert d == d[..k] + d[k..];
  }

  /** After a deal the 52 built cards are all in play, each exactly once, and
      the deck holds 52 - 2n of them. */
  lemma DealConservesCards(deck: seq<Card>, players: seq<Hole>, community: seq<Card>, n: nat, choices: seq<int>)
    requires ValidChoices(choices, 52) && 2 * n <= 52
    requires IsDeal(deck, players, community, n, choices)
    ensures |deck| == 52 - 2 * n
    ensures multiset(deck + AllHoleCards(players) + community) == multiset(FullDeck())
    ensures Distinct(deck + AllHoleCards(players) + community)
  {
    var d := ShuffledDeck(choices);
    DealKeepsCards(d, deck, players);
    var all := deck + AllHoleCards(players) + community;
    assert all == deck + AllHoleCards(players);
    PermutationOfDeckIsDistinct(all);
  }

  /** What flipStreet does to the deck and the board: with an empty deck
      nothing; a flop on an empty board pops three cards, a turn on three
      cards and a river on four pop one each; any other call changes nothing. */
  function Flip(deck: seq<Card>, community: seq<Card>, street: string): (seq<Card>, seq<Card>)
    requires street == "flop" && |community| == 0 && |deck| > 0 ==> |deck| >= 3
  {
    var n := |deck|;
    if n == 0 then (deck, community)
    else if street == "flop" && |community| == 0 then
      (deck[..n - 3], community + [deck[n - 1], deck[n - 2], deck[n - 3]])
    else if street == "turn" && |community| == 3 then (deck[..n - 1], community + [deck[n - 1]])
    else if street == "river" && |community| == 4 then (deck[..n - 1], community + [deck[n - 1]])
    else (deck, community)
  }

  lemma PopThree<T>(p: seq<T>, c: seq<T>)
    requires |p| >= 3
    ensures multiset(p[..|p| - 3] + (c + [p[|p| - 1], p[|p| - 2], p[|p| - 3]])) == multiset(p + c)
  {
    var n := |p|;
    var rest, top := p[..n - 3], p[n - 3..];
    var pushed := [p[n - 1], p[n - 2], p[n - 3]];
    assert p == rest + top;
    assert top == [p[n - 3], p[n - 2], p[n - 1]];
    assert multiset(pushed) == multiset(top);
    assert multiset(rest + (c + pushed)) == multiset(rest) + multiset(c) + multiset(pushed);
  }

  lemma PopOne<T>(p: seq<T>, c: seq<T>)
    requires |p| >= 1
    ensures multiset(p[..|p| - 1] + (c + [p[|p| - 1]])) == multiset(p + c)
  {
    assert p == p[..|p| - 1] + [p[|p| - 1]];
  }

  /** A flip moves cards from the deck to the board and loses or adds none. */
  lemma FlipKeepsCards(deck: seq<Card>, community: seq<Card>, street: string)
    requires street == "flop" && |community| == 0 && |deck| > 0 ==> |deck| >= 3
    ensures var r := Flip(deck, community, street);
      multiset(r.0 + r.1) == multiset(deck + community)
  {
    var n := |deck|;
    if n > 0 {
      if street == "flop" && |community| == 0 {
        PopThree(deck, community);
      } else if (street == "turn" && |community| == 3) || (street == "river" && |community| == 4) {
        PopOne(deck, community);
      }
    }
  }

  /** Flip only takes cards from the end of the deck and only appends them to
      the board, in the order they are popped. */
  lemma FlipTakesFromEnd(deck: seq<Card>, community: seq<Card>, street: string)
    requires street == "flop" && |community| == 0 && |deck| > 0 ==> |deck| >= 3
    ensures var r := Flip(deck, community, street);
      r.0 <= deck && |r.1| >= |community| && r.1[..|community|] == community &&
      |r.1| - |community| == |deck| - |r.0| &&
      forall k :: |community| <= k < |r.1| ==> r.1[k] == deck[|deck| - 1 - (k - |community|)]
  {
  }

  /** The board only grows 0 to 3 (flop), 3 to 4 (turn) or 4 to 5 (river),
      and only when the deck is not empty and the street names the next stage. */
  lemma FlipStages(deck: seq<Card>, community: seq<Card>, street: string)
    requires street == "flop" && |community| == 0 && |deck| > 0 ==> |deck| >= 3
    ensures var r := Flip(deck, community, street);
      if |deck| > 0 && street == "flop" && |community| == 0 then |r.1| == 3
      else if |deck| > 0 && street == "turn" && |community| == 3 then |r.1| == 4
      else if |deck| > 0 && street == "river" && |community| == 4 then |r.1| == 5
      else r == (deck, community)
    ensures |community| in {0, 3, 4, 5} ==> |Flip(deck, community, street).1| in {0, 3, 4, 5}
  {
  }

  /** The three streets in order take an empty board from a deal to five cards. */
  lemma StreetsInOrder(deck: seq<Card>)
    requires |deck| >= 5
    ensures var f := Flip(deck, [], "flop");
      var t := Flip(f.0, f.1, "turn");
      var r := Flip(t.0, t.1, "river");
      |r.1| == 5 && |r.0| == |deck| - 5 && multiset(r.0 + r.1) == multiset(deck)
  {
    assert "turn" != "flop" && "river" != "flop" && "river" != "turn";
    var f := Flip(deck, [], "flop");
    assert |f.1| == 3 && |f.0| == |deck| - 3;
    FlipKeepsCards(deck, [], "flop");
    var t := Flip(f.0, f.1, "turn");
    assert |t.1| == 4 && |t.0| == |deck| - 4;
    FlipKeepsCards(f.0, f.1, "turn");
    FlipKeepsCards(t.0, t.1, "river");
    assert deck + [] == deck;
  }

  /** A flip keeps every built card in play, each exactly once: the cards
      move from the deck to the board and the seats keep theirs. */
  lemma FlipConserves(deck: seq<Card>, players: seq<Hole>, community: seq<Card>, street: string)
    requires street == "flop" && |community| == 0 && |deck| > 0 ==> |deck| >= 3
    requires multiset(deck + AllHoleCards(players) + community) == multiset(FullDeck())
    ensures var r := Flip(deck, community, street);
      multiset(r.0 + AllHoleCards(players) + r.1) == multiset(FullDeck()) &&
      Distinct(r.0 + AllHoleCards(players) + r.1)
  {
    var r := Flip(deck, community, street);
    FlipKeepsCards(deck, community, street);
    InPlayUnchanged(deck, AllHoleCards(players), community, r.0, r.1);
    PermutationOfDeckIsDistinct(r.0 + AllHoleCards(players) + r.1);
  }

  /** Moving cards between the deck and the board keeps every card in play. */
  lemma InPlayUnchanged(deck: seq<Card>, holes: seq<Card>, community: seq<Card>, deck': seq<Card>, community': seq<Card>)
    requires multiset(deck' + community') == multiset(deck + community)
    ensures multiset(deck' + holes + community') == multiset(deck + holes + community)
  {
    assert multiset(deck' + holes + community') == multiset(deck' + community') + multiset(holes);
    assert multiset(deck + holes + community) == multiset(deck + community) + multiset(holes);
  }

  /** x at least as strong as b, b at least as strong as y: x at least as strong as y. */
  lemma AtLeastTransitive(x: Evaluation, b: Evaluation, y: Evaluation)
    requires Compare(x, b) >= 0 && Compare(b, y) >= 0
    ensures Compare(x, y) >= 0
  {
    CompareAntisymmetric(x, b);
    CompareAntisymmetric(b, y);
    CompareAntisymmetric(x, y);
    CompareTransitive(y, b, x);
  }

  /** shuffle(buildDeck()): the built deck, copied into an array and shuffled there. */
  method ShuffleBuiltDeck(choices: seq<int>) returns (deck: seq<Card>)
    requires ValidChoices(choices, 52)
    ensures deck == ShuffledDeck(choices)
  {
    var built := BuildDeck();
    FullDeckHasEveryCard(Card(Spade, 1));
    var a := new Card[52](i requires 0 <= i < 52 => built[i]);
    assert a[..] == FullDeck();
    var shuffled := Shuffle(a, choices);
    deck := shuffled[..];
  }

  /** The evaluation of every seat's hole cards with the board, seat by seat. */
  ghost function SeatEvals(players: seq<Hole>, community: seq<Card>): seq<Evaluation>
  {
    seq(|players|, k requires 0 <= k < |players| => Evaluate(HoleCards(players[k]) + community))
  }

  /** Among the first n seats, seat w is at least as strong as every seat and
      stronger than every later one. */
  ghost predicate BestSoFar(evals: seq<Evaluation>, w: nat, n: nat)
  {
    w < n <= |evals| &&
    (forall k :: 0 <= k < n ==> Compare(evals[w], evals[k]) >= 0) &&
    (forall k :: w < k < n ==> Compare(evals[w], evals[k]) > 0)
  }

  /** The seat showdown marks as winner among all seats. */
  ghost predicate IsShowdownWinner(evals: seq<Evaluation>, w: nat)
  {
    BestSoFar(evals, w, |evals|)
  }

  /** One step of the selection: the next seat takes over when it is at least
      as strong as the best so far. */
  lemma BestStep(evals: seq<Evaluation>, best: nat, i: nat)
    requires BestSoFar(evals, best, i) && i < |evals|
    ensures Compare(evals[i], evals[best]) >= 0 ==> BestSoFar(evals, i, i + 1)
    ensures Compare(evals[i], evals[best]) < 0 ==> BestSoFar(evals, best, i + 1)
  {
    CompareAntisymmetric(evals[i], evals[best]);
    if Compare(evals[i], evals[best]) >= 0 {
      forall k | 0 <= k < i
        ensures Compare(evals[i], evals[k]) >= 0
      {
        AtLeastTransitive(evals[i], evals[best], evals[k]);
      }
    }
  }

  lemma {:induction false} AllHoleCardsConcat(a: seq<Hole>, b: seq<Hole>)
    ensures AllHoleCards(a + b) == AllHoleCards(a) + AllHoleCards(b)
  {
    if a == [] {
      assert a + b == b;
    } else {
      assert (a + b)[1..] == a[1..] + b;
      AllHoleCardsConcat(a[1..], b);
    }
  }

  /** The hole cards of one seat sit between those of the seats before it and
      those of the seats after it. */
  lemma SeatHoleInAll(players: seq<Hole>, k: nat)
    requires k < |players|
    ensures AllHoleCards(players) ==
      AllHoleCards(players[..k]) + (HoleCards(players[k]) + AllHoleCards(players[k + 1..]))
  {
    assert players == players[..k] + players[k..];
    AllHoleCardsConcat(players[..k], players[k..]);
    assert players[k..][0] == players[k] && players[k..][1..] == players[k + 1..];
  }

  /** While the 52 cards are conserved, every seat's hand at showdown holds no
      card twice, so the category evaluateSeven gives it is the one named by
      the rank counts, the flush test and the straight test. */
  lemma SeatCategoryMatchesReference(deck: seq<Card>, players: seq<Hole>, community: seq<Card>, k: nat)
    requires multiset(deck + AllHoleCards(players) + community) == multiset(FullDeck())
    requires k < |players|
    ensures Evaluate(HoleCards(players[k]) + community).category == HandCategory(HoleCards(players[k]) + community)
  {
    var hand := HoleCards(players[k]) + community;
    var all := deck + AllHoleCards(players) + community;
    assert multiset(hand) <= multiset(all) by {
      SeatHoleInAll(players, k);
      var before, after := AllHoleCards(players[..k]), AllHoleCards(players[k + 1..]);
      assert AllHoleCards(players) == before + (HoleCards(players[k]) + after);
      assert multiset(all) == multiset(deck) + multiset(before) + multiset(HoleCards(players[k])) + multiset(after) + multiset(community);
    }
    forall c: Card
      ensures multiset(hand)[c] <= 1
    {
      FullDeckExactlyOnce(c);
    }
    NoRepeatAtMostFour(hand);
    CategoryMatchesReference(hand);
  }

  /** At most one seat satisfies the winner condition, so the result of
      showdown is determined by the evaluations alone. */
  lemma ShowdownWinnerUnique(evals: seq<Evaluation>, w1: nat, w2: nat)
    requires IsShowdownWinner(evals, w1) && IsShowdownWinner(evals, w2)
    ensures w1 == w2
  {
    if w1 < w2 {
      CompareAntisymmetric(evals[w1], evals[w2]);
    } else if w2 < w1 {
      CompareAntisymmetric(evals[w2], evals[w1]);
    }
  }

  /** The outcome of showdown: nothing while the board is incomplete, else the
      one seat marked as winner. */
  datatype ShowdownResult = NotReady | Winner(seat: nat)

  class GameState {
    var deck: seq<Card>
    var players: seq<Hole>
    var community: seq<Card>

    /** The initial gameState: everything empty. */
    constructor ()
      ensures deck == [] && players == [] && community == []
    {
      deck := [];
      players := [];
      community := [];
    }

    /** The board holds 0, 3, 4 or 5 cards. */
    ghost predicate StageOk()
      reads this
    {
      |community| in {0, 3, 4, 5}
    }

    /** dealCard: pop the last card of the deck; nothing when it is empty. */
    method DealCard() returns (c: Option<Card>)
      modifies this`deck
      ensures old(deck) == [] ==> c == None && deck == []
      ensures old(deck) != [] ==> c == Some(old(deck)[|old(deck)| - 1]) && deck == old(deck)[..|old(deck)| - 1]
    {
      if |deck| == 0 {
        return None;
      }
      c := Some(deck[|deck| - 1]);
      deck := deck[..|deck| - 1];
    }

    /** startNewHand: shuffle a freshly built deck, give each of the n seats
        two cards popped from its end, and clear the board. */
    method StartNewHand(numPlayers: nat, choices: seq<int>)
      requires ValidChoices(choices, 52) && 2 * numPlayers <= 52
      modifies this
      ensures IsDeal(deck, players, community, numPlayers, choices)
    {
      deck := ShuffleBuiltDeck(choices);
      ghost var d := ShuffledDeck(choices);
      assert deck == d[..52];
      players := [];
      var p := 0;
      while p < numPlayers
        invariant 0 <= p <= numPlayers
        invariant deck == d[..52 - 2 * p]
        invariant |players| == p
        invariant forall q :: 0 <= q < p ==> players[q] == DealtHole(d, q)
      {
        var first := DealCard();
        assert first == Some(d[51 - 2 * p]);
        var second := DealCard();
        assert second == Some(d[50 - 2 * p]);
        assert deck == d[..52 - 2 * (p + 1)];
        assert Hole(first.value, second.value) == DealtHole(d, p);
        DealtNextSeat(d, players, Hole(first.value, second.value));
        players := players + [Hole(first.value, second.value)];
        p := p + 1;
      }
      community := [];
    }

    /** nextHand: a new hand with the given number of seats, or with as many
        seats as before when that number is 0 (absent). */
    method NextHand(numPlayers: nat, choices: seq<int>)
      requires ValidChoices(choices, 52)
      requires 2 * (if numPlayers == 0 then |players| else numPlayers) <= 52
      modifies this
      ensures IsDeal(deck, players, community, if numPlayers == 0 then old(|players|) else numPlayers, choices)
    {
      var n := if numPlayers == 0 then |players| else numPlayers;
      StartNewHand(n, choices);
    }

    /** flipStreet: move the next street from the end of the deck to the board. */
    method FlipStreet(street: string)
      requires street == "flop" && |community| == 0 && |deck| > 0 ==> |deck| >= 3
      modifies this`deck, this`community
      ensures (deck, community) == Flip(old(deck), old(community), street)
      ensures old(StageOk()) ==> StageOk()
    {
      ghost var before := deck;
      FlipStages(deck, community, street);
      if |deck| == 0 {
        return;
      }
      if street == "flop" && |community| == 0 {
        var a := DealCard();
        var b := DealCard();
        var c := DealCard();
        assert deck == before[..|before| - 3];
        community := community + [a.value, b.value, c.value];
      } else if street == "turn" && |community| == 3 {
        var a := DealCard();
        community := community + [a.value];
      } else if street == "river" && |community| == 4 {
        var a := DealCard();
        community := community + [a.value];
      }
    }

    /** showdown: nothing before the river; otherwise the seat whose
        evaluation is highest under compareHands, the last such seat when
        several tie (the stable ascending sort, reversed, puts it first). */
    method Showdown() returns (r: ShowdownResult)
      requires |community| >= 5 ==> |players| > 0
      ensures r == NotReady <==> |community| < 5
      ensures r.Winner? ==> IsShowdownWinner(SeatEvals(players, community), r.seat)
    {
      if |community| < 5 {
        return NotReady;
      }
      ghost var evals := SeatEvals(players, community);
      assert |evals| == |players|;
      var best := 0;
      var bestEval := EvaluateSeven(players[0], community);
      assert bestEval == evals[0];
      CompareAntisymmetric(bestEval, bestEval);
      var i := 1;
      while i < |players|
        invariant 1 <= i <= |players|
        invariant BestSoFar(evals, best, i) && bestEval == evals[best]
      {
        var e := EvaluateSeven(players[i], community);
        assert e == evals[i];
        var c := CompareHands(e, bestEval);
        BestStep(evals, best, i);
        if c >= 0 {
          best := i;
          bestEval := e;
        }
        i := i + 1;
      }
      return Winner(best);
    }
  }
}
