/** Lists of ranks as the evaluator and the describer build them:
    a descending sort, the sorted list of distinct ranks, the list with the
    ace also read as 1 (the "wheel" list), and runs of five consecutive ranks. */
module RankLists {

  function Elems(s: seq<int>): set<int>
  {
    set x | x in s
  }

  ghost predicate Descending(s: seq<int>)
  {
    forall i, j :: 0 <= i < j < |s| ==> s[i] >= s[j]
  }

  ghost predicate StrictlyIncreasing(s: seq<int>)
  {
    forall i, j :: 0 <= i < j < |s| ==> s[i] < s[j]
  }

  lemma ElemsConcat(a: seq<int>, b: seq<int>)
    ensures Elems(a + b) == Elems(a) + Elems(b)
  {
    assert forall v :: v in a + b <==> v in a || v in b;
  }

  // ----- Descending sort (the model of sort((a, b) => b - a)) -----

  /** Every element of a list holding the tail of s and one value x at most
      s[0] is itself at most s[0]. */
  lemma BoundedByHead(s: seq<int>, x: int, t: seq<int>)
    requires Descending(s) && s != [] && x <= s[0]
    requires multiset(t) == multiset(s[1..]) + multiset{x}
    ensures forall k :: 0 <= k < |t| ==> t[k] <= s[0]
  {
    forall k | 0 <= k < |t|
      ensures t[k] <= s[0]
    {
      assert t[k] in multiset(t);
      if t[k] != x {
        assert t[k] in multiset(s[1..]);
        var m :| 0 <= m < |s[1..]| && s[1..][m] == t[k];
        assert s[m + 1] == t[k];
      }
    }
  }

  /** Putting v in front of a descending list whose elements are all at most v. */
  lemma ConsDescending(v: int, t: seq<int>)
    requires Descending(t) && forall k :: 0 <= k < |t| ==> t[k] <= v
    ensures Descending([v] + t)
  {
    forall i, j | 0 <= i < j < |[v] + t|
      ensures ([v] + t)[i] >= ([v] + t)[j]
    {
      assert ([v] + t)[j] == t[j - 1];
      if i > 0 {
        assert ([v] + t)[i] == t[i - 1];
      }
    }
  }

  function InsertDesc(x: int, s: seq<int>): (r: seq<int>)
    requires Descending(s)
    ensures Descending(r) && multiset(r) == multiset(s) + multiset{x}
  {
    if s == [] || x >= s[0] then
      assert forall k :: 0 <= k < |s| ==> s[k] <= x by {
        if s != [] {
          assert forall k :: 0 <= k < |s| ==> s[k] <= s[0];
        }
      }
      ConsDescending(x, s);
      [x] + s
    else
      DescendingTail(s);
      var t := InsertDesc(x, s[1..]);
      assert s == [s[0]] + s[1..];
      BoundedByHead(s, x, t);
      ConsDescending(s[0], t);
      [s[0]] + t
  }

  /** The elements of s, largest first. */
  function SortDesc(s: seq<int>): (r: seq<int>)
    ensures Descending(r) && multiset(r) == multiset(s)
  {
    if s == [] then []
    else
      assert s == [s[0]] + s[1..];
      InsertDesc(s[0], SortDesc(s[1..]))
  }

  /** The first entry of a descending list is its largest element. */
  lemma DescendingHead(s: seq<int>, x: int)
    requires Descending(s) && x in multiset(s)
    ensures s[0] >= x
  {
    var i :| 0 <= i < |s| && s[i] == x;
  }

  lemma TailMultiset<T>(a: seq<T>)
    requires a != []
    ensures multiset(a[1..]) == multiset(a) - multiset{a[0]}
  {
    assert a == [a[0]] + a[1..];
  }

  lemma DescendingTail(a: seq<int>)
    requires Descending(a) && a != []
    ensures Descending(a[1..])
  {
    forall i, j | 0 <= i < j < |a[1..]|
      ensures a[1..][i] >= a[1..][j]
    {
      assert a[1..][i] == a[i + 1] && a[1..][j] == a[j + 1];
    }
  }

  /** Two descending lists holding the same elements are equal: the sorted
      order of a collection does not depend on the order it came in. */
  lemma {:induction false} DescendingUnique(a: seq<int>, b: seq<int>)
    requires Descending(a) && Descending(b) && multiset(a) == multiset(b)
    ensures a == b
  {
    assert |a| == |b| by {
      assert |a| == |multiset(a)| && |b| == |multiset(b)|;
    }
    if a != [] {
      assert a[0] in multiset(a) && b[0] in multiset(b);
      DescendingHead(b, a[0]);
      DescendingHead(a, b[0]);
      TailMultiset(a);
      TailMultiset(b);
      DescendingTail(a);
      DescendingTail(b);
      assert a[0] == b[0];
      DescendingUnique(a[1..], b[1..]);
    }
  }

  // ----- Sorted distinct values (the model of [...new Set(s)].sort((a, b) => a - b)) -----

  /** Every later entry of a strictly increasing list is above its first one. */
  lemma TailAbove(s: seq<int>)
    requires StrictlyIncreasing(s) && s != []
    ensures forall v :: v in Elems(s[1..]) ==> v > s[0]
  {
    forall v | v in Elems(s[1..])
      ensures v > s[0]
    {
      var m :| 0 <= m < |s[1..]| && s[1..][m] == v;
      assert s[m + 1] == v;
    }
  }

  /** Putting v in front of a strictly increasing list whose elements are all above v. */
  lemma ConsIncreasing(v: int, t: seq<int>)
    requires StrictlyIncreasing(t) && forall w :: w in Elems(t) ==> w > v
    ensures StrictlyIncreasing([v] + t)
  {
    forall i, j | 0 <= i < j < |[v] + t|
      ensures ([v] + t)[i] < ([v] + t)[j]
    {
      assert ([v] + t)[j] == t[j - 1];
      assert t[j - 1] in Elems(t);
      if i > 0 {
        assert ([v] + t)[i] == t[i - 1];
      }
    }
  }

  function InsertAsc(x: int, s: seq<int>): (r: seq<int>)
    requires StrictlyIncreasing(s)
    ensures StrictlyIncreasing(r) && Elems(r) == Elems(s) + {x}
  {
    if s == [] then [x]
    else
      assert s == [s[0]] + s[1..];
      ElemsConcat([s[0]], s[1..]);
      TailAbove(s);
      if x < s[0] then
        ElemsConcat([x], s);
        ConsIncreasing(x, s);
        [x] + s
      else if x == s[0] then s
      else
        var t := InsertAsc(x, s[1..]);
        ElemsConcat([s[0]], t);
        ConsIncreasing(s[0], t);
        [s[0]] + t
  }

  /** The distinct values of s in increasing order. */
  function SortedDistinct(s: seq<int>): (r: seq<int>)
    ensures StrictlyIncreasing(r) && Elems(r) == Elems(s)
  {
    if s == [] then []
    else
      assert s == [s[0]] + s[1..];
      ElemsConcat([s[0]], s[1..]);
      InsertAsc(s[0], SortedDistinct(s[1..]))
  }

  /** A strictly increasing list is determined by its set of elements. */
  lemma {:induction false} IncreasingUnique(a: seq<int>, b: seq<int>)
    requires StrictlyIncreasing(a) && StrictlyIncreasing(b) && Elems(a) == Elems(b)
    ensures a == b
  {
    assert a == [] || a[0] in Elems(a);
    assert b == [] || b[0] in Elems(b);
    if a != [] && b != [] {
      assert a[0] == b[0] by {
        var i :| 0 <= i < |b| && b[i] == a[0];
        var j :| 0 <= j < |a| && a[j] == b[0];
        assert b[0] <= b[i] && a[0] <= a[j];
      }
      assert a == [a[0]] + a[1..] && b == [b[0]] + b[1..];
      ElemsConcat([a[0]], a[1..]);
      ElemsConcat([b[0]], b[1..]);
      TailAbove(a);
      TailAbove(b);
      assert Elems(a[1..]) == Elems(a) - {a[0]};
      assert Elems(b[1..]) == Elems(b) - {b[0]};
      IncreasingUnique(a[1..], b[1..]);
    }
  }

  // ----- The wheel list -----

  /** s without the value x (the model of s.filter(v => v !== x)). */
  function Without(s: seq<int>, x: int): (r: seq<int>)
    ensures Elems(r) == Elems(s) - {x}
    ensures StrictlyIncreasing(s) ==> StrictlyIncreasing(r)
  {
    if s == [] then []
    else
      assert s == [s[0]] + s[1..];
      ElemsConcat([s[0]], s[1..]);
      var t := Without(s[1..], x);
      if s[0] == x then t
      else
        ElemsConcat([s[0]], t);
        assert StrictlyIncreasing(s) ==> StrictlyIncreasing([s[0]] + t) by {
          if StrictlyIncreasing(s) {
            TailAbove(s);
            ConsIncreasing(s[0], t);
          }
        }
        [s[0]] + t
  }

  /** withWheel: when an ace (14) is present, it is also put in front as 1. */
  function WithWheel(u: seq<int>): (r: seq<int>)
    requires StrictlyIncreasing(u)
    requires forall v :: v in u ==> 2 <= v <= 14
    ensures StrictlyIncreasing(r)
    ensures Elems(r) == Elems(u) + (if 14 in u then {1} else {})
  {
    if 14 in u then
      var w := Without(u, 14);
      assert forall v :: v in Elems(w) ==> 2 <= v <= 13;
      ElemsConcat(w, [14]);
      ElemsConcat([1], w + [14]);
      assert StrictlyIncreasing(w + [14]) by {
        forall i, j | 0 <= i < j < |w + [14]|
          ensures (w + [14])[i] < (w + [14])[j]
        {
          assert (w + [14])[i] == w[i];
          assert w[i] in Elems(w);
          if j < |w| {
            assert (w + [14])[j] == w[j];
          }
        }
      }
      ConsIncreasing(1, w + [14]);
      [1] + (w + [14])
    else u
  }

  // ----- Runs of five -----

  /** Five consecutive values lo .. lo+4 are all in S. */
  ghost predicate FiveRunFrom(S: set<int>, lo: int)
  {
    lo in S && lo + 1 in S && lo + 2 in S && lo + 3 in S && lo + 4 in S
  }

  ghost predicate HasFiveRun(S: set<int>)
  {
    exists lo :: FiveRunFrom(S, lo)
  }

  /** arr[k] to arr[k+4] go up by one at each step. */
  ghost predicate RunAt(arr: seq<int>, k: int)
  {
    0 <= k && k + 4 < |arr| &&
    arr[k + 1] == arr[k] + 1 && arr[k + 2] == arr[k + 1] + 1 &&
    arr[k + 3] == arr[k + 2] + 1 && arr[k + 4] == arr[k + 3] + 1
  }

  /** Some five adjacent entries of arr go up by one at each step. */
  ghost predicate RunOfFive(arr: seq<int>)
  {
    exists k :: RunAt(arr, k)
  }

  /** In a strictly increasing list, the value right after v (when v+1 is present) is v+1. */
  lemma NextIsSuccessor(arr: seq<int>, p: int)
    requires StrictlyIncreasing(arr) && 0 <= p < |arr| && arr[p] + 1 in Elems(arr)
    ensures p + 1 < |arr| && arr[p + 1] == arr[p] + 1
  {
    var q :| 0 <= q < |arr| && arr[q] == arr[p] + 1;
    assert q > p;
  }

  /** Five consecutive values in a strictly increasing list sit in five adjacent entries. */
  lemma FiveRunGivesRunAt(arr: seq<int>, lo: int)
    requires StrictlyIncreasing(arr) && FiveRunFrom(Elems(arr), lo)
    ensures RunOfFive(arr)
  {
    var p :| 0 <= p < |arr| && arr[p] == lo;
    NextIsSuccessor(arr, p);
    NextIsSuccessor(arr, p + 1);
    NextIsSuccessor(arr, p + 2);
    NextIsSuccessor(arr, p + 3);
    assert RunAt(arr, p);
  }

  /** For a strictly increasing list, five adjacent steps of one are the same
      as five consecutive values among its elements. */
  lemma RunOfFiveIffFiveRun(arr: seq<int>)
    requires StrictlyIncreasing(arr)
    ensures RunOfFive(arr) <==> HasFiveRun(Elems(arr))
  {
    if RunOfFive(arr) {
      var k :| RunAt(arr, k);
      assert arr[k] in Elems(arr) && arr[k + 1] in Elems(arr) && arr[k + 2] in Elems(arr);
      assert arr[k + 3] in Elems(arr) && arr[k + 4] in Elems(arr);
      assert FiveRunFrom(Elems(arr), arr[k]);
    }
    if HasFiveRun(Elems(arr)) {
      var lo :| FiveRunFrom(Elems(arr), lo);
      FiveRunGivesRunAt(arr, lo);
    }
  }
}
