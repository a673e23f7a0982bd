/** Duplicate-free sequences: the order a JavaScript `Map` or `Set` keeps its keys in. */
module Seqs {
  ghost predicate Distinct<T(!new)>(s: seq<T>) {
    forall i, j :: 0 <= i < j < |s| ==> s[i] != s[j]
  }

  function Elems<T>(s: seq<T>): set<T> {
    set x | x in s
  }

  /** `map.delete(x)`: the other keys keep their order. */
  function Without<T(==, !new)>(s: seq<T>, x: T): (r: seq<T>)
    ensures forall y :: y in r <==> y in s && y != x
    ensures |r| <= |s|
  {
    if s == [] then [] else (if s[0] == x then [] else [s[0]]) + Without(s[1..], x)
  }

  lemma {:induction false} WithoutDistinct<T(!new)>(s: seq<T>, x: T)
    requires Distinct(s)
    ensures Distinct(Without(s, x))
  {
    if s != [] {
      assert Distinct(s[1..]);
      WithoutDistinct(s[1..], x);
      assert s[0] !in s[1..];
    }
  }

  lemma {:induction false} WithoutAppended<T(!new)>(s: seq<T>, x: T)
    requires x !in s
    ensures Without(s + [x], x) == s
  {
    if s == [] {
      assert s + [x] == [x];
    } else {
      WithoutAppended(s[1..], x);
      assert (s + [x])[1..] == s[1..] + [x];
    }
  }

  /** The last `n` elements, or all of them when there are fewer. */
  function LastN<T>(s: seq<T>, n: nat): (r: seq<T>)
    ensures |r| == if |s| < n then |s| else n
  {
    if |s| <= n then s else s[|s| - n..]
  }

  /** Appending to a window is a window over the appended history, and keeps the window duplicate-free. */
  lemma SlideWindow<T(!new)>(history: seq<T>, x: T, n: nat)
    requires n > 0
    ensures LastN(LastN(history, n) + [x], n) == LastN(history + [x], n)
    ensures Elems(LastN(history, n) + [x]) == Elems(LastN(history, n)) + {x}
    ensures forall y :: y in LastN(history, n) ==> y in history
    ensures Distinct(history + [x]) ==> x !in history && Distinct(LastN(history, n) + [x])
  {
    var w := LastN(history, n);
    assert w + [x] == (history + [x])[|history| - |w|..];
    assert (history + [x])[|history|] == x;
    assert forall i :: 0 <= i < |history| ==> (history + [x])[i] == history[i];
  }

  lemma DistinctAppend<T(!new)>(s: seq<T>, t: seq<T>)
    requires Distinct(s) && Distinct(t) && Elems(s) !! Elems(t)
    ensures Distinct(s + t)
  {
    forall i, j | 0 <= i < j < |s + t|
      ensures (s + t)[i] != (s + t)[j]
    {
      if i < |s| && j >= |s| {
        assert s[i] in Elems(s) && t[j - |s|] in Elems(t);
      }
    }
  }

  lemma {:induction false} DistinctCounts<T(!new)>(s: seq<T>, x: T)
    requires Distinct(s)
    ensures multiset(s)[x] == if x in s then 1 else 0
  {
    if s != [] {
      assert s == [s[0]] + s[1..];
      DistinctCounts(s[1..], x);
    }
  }

  lemma {:induction false} DistinctSize<T(!new)>(s: seq<T>)
    requires Distinct(s)
    ensures |Elems(s)| == |s|
  {
    if s != [] {
      DistinctSize(s[1..]);
      assert Elems(s) == {s[0]} + Elems(s[1..]);
    }
  }

  /** The positions among the first `n` whose elements are kept, in order. */
  function PositionsWhere<T>(s: seq<T>, keep: T -> bool, n: nat): (ps: seq<nat>)
    requires n <= |s|
    ensures forall a :: 0 <= a < |ps| ==> ps[a] < n && keep(s[ps[a]])
    ensures forall p: nat :: p < n && keep(s[p]) ==> p in ps
    ensures forall a, b :: 0 <= a < b < |ps| ==> ps[a] < ps[b]
  {
    if n == 0 then []
    else
      var front := PositionsWhere(s, keep, n - 1);
      if keep(s[n - 1]) then front + [n - 1] else front
  }
}
