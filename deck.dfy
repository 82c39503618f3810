/** The in-place Fisher-Yates shuffle. The random index drawn at each step
    is an explicit input: choices[i] is the j picked when the loop is at i. */
module Deck {

  /** The choices a run of the shuffle may make: for every i >= 1, 0 <= choices[i] <= i. */
  ghost predicate ValidChoices(choices: seq<int>, n: nat)
  {
    |choices| == n && forall i :: 0 < i < n ==> 0 <= choices[i] <= i
  }

  /** s with the elements at i and j exchanged. */
  function Swap<T>(s: seq<T>, i: nat, j: nat): (r: seq<T>)
    requires i < |s| && j < |s|
    ensures |r| == |s|
  {
    s[i := s[j]][j := s[i]]
  }

  lemma SwapPermutes<T>(s: seq<T>, i: nat, j: nat)
    requires i < |s| && j < |s|
    ensures multiset(Swap(s, i, j)) == multiset(s)
  {
  }

  /** The swaps the loop still has to do when it stands at index i, done on s. */
  function FisherYates<T>(s: seq<T>, choices: seq<int>, i: int): seq<T>
    requires ValidChoices(choices, |s|) && i < |s|
    decreases i
  {
    if i <= 0 then s else FisherYates(Swap(s, i, choices[i]), choices, i - 1)
  }

  /** Whatever the random choices, the shuffle only rearranges its input. */
  lemma {:induction false} FisherYatesPermutes<T>(s: seq<T>, choices: seq<int>, i: int)
    requires ValidChoices(choices, |s|) && i < |s|
    ensures |FisherYates(s, choices, i)| == |s|
    ensures multiset(FisherYates(s, choices, i)) == multiset(s)
    decreases i
  {
    if i > 0 {
      var t := Swap(s, i, choices[i]);
      SwapPermutes(s, i, choices[i]);
      FisherYatesPermutes(t, choices, i - 1);
    }
  }

  /** shuffle: for i from length-1 down to 1, swap a[i] with a[choices[i]];
      the same array is returned. */
  method Shuffle<T>(a: array<T>, choices: seq<int>) returns (r: array<T>)
    requires ValidChoices(choices, a.Length)
    modifies a
    ensures r == a
    ensures a[..] == FisherYates(old(a[..]), choices, a.Length - 1)
    ensures multiset(a[..]) == multiset(old(a[..]))
  {
    var i := a.Length - 1;
    while i > 0
      invariant -1 <= i < a.Length
      invariant FisherYates(a[..], choices, i) == FisherYates(old(a[..]), choices, a.Length - 1)
    {
      var j := choices[i];
      ghost var before := a[..];
      assert FisherYates(before, choices, i) == FisherYates(Swap(before, i, j), choices, i - 1);
      var held := a[i];
      a[i] := a[j];
      assert a[..] == before[i := before[j]];
      a[j] := held;
      assert a[..] == Swap(before, i, j);
      i := i - 1;
    }
    assert FisherYates(a[..], choices, i) == a[..];
    FisherYatesPermutes(old(a[..]), choices, a.Length - 1);
    r := a;
  }
}
