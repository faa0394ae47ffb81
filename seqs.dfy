/** Sequence helpers for the list operations the Python code performs. */
module Seqs {
  import opened Wrappers

  /** `[x for x in s if keep(x)]`, built left to right so that it lines up with index loops. */
  function Filter<T>(s: seq<T>, keep: T -> bool): (r: seq<T>)
    ensures |r| <= |s|
    ensures forall x :: x in r ==> x in s && keep(x)
    decreases |s|
  {
    if s == [] then []
    else Filter(s[..|s| - 1], keep) + (if keep(s[|s| - 1]) then [s[|s| - 1]] else [])
  }

  lemma {:induction false} FilterComplete<T>(s: seq<T>, keep: T -> bool, x: T)
    requires x in s && keep(x)
    ensures x in Filter(s, keep)
    decreases |s|
  {
    if x != s[|s| - 1] {
      assert s == s[..|s| - 1] + [s[|s| - 1]];
      FilterComplete(s[..|s| - 1], keep, x);
    }
  }

  lemma AppendAssoc<T>(a: seq<T>, b: seq<T>, c: seq<T>)
    ensures (a + b) + c == a + (b + c)
  {
  }

  lemma {:induction false} FilterAppend<T>(s: seq<T>, t: seq<T>, keep: T -> bool)
    ensures Filter(s + t, keep) == Filter(s, keep) + Filter(t, keep)
    decreases |t|
  {
    if t == [] {
      assert s + t == s;
    } else {
      var init, x := t[..|t| - 1], t[|t| - 1];
      var last := if keep(x) then [x] else [];
      assert (s + t)[..|s + t| - 1] == s + init && (s + t)[|s + t| - 1] == x;
      FilterAppend(s, init, keep);
      AppendAssoc(Filter(s, keep), Filter(init, keep), last);
    }
  }

  /** `[x for x in s if x is not None]`. */
  function Compact<T>(s: seq<Option<T>>): (r: seq<T>)
    ensures |r| <= |s|
    ensures forall x :: x in r ==> Some(x) in s
    ensures forall i :: 0 <= i < |s| && s[i].Some? ==> s[i].value in r
    decreases |s|
  {
    if s == [] then []
    else
      var init := Compact(s[..|s| - 1]);
      assert s == s[..|s| - 1] + [s[|s| - 1]];
      match s[|s| - 1]
      case Some(x) => init + [x]
      case None => init
  }

  /** Every element of `s` wrapped in `Some`. */
  function Wrap<T>(s: seq<T>): (r: seq<Option<T>>)
    ensures |r| == |s|
    ensures forall k :: 0 <= k < |s| ==> r[k] == Some(s[k])
    decreases |s|
  {
    if s == [] then [] else Wrap(s[..|s| - 1]) + [Some(s[|s| - 1])]
  }

  lemma {:induction false} CompactAppend<T>(s: seq<Option<T>>, t: seq<Option<T>>)
    ensures Compact(s + t) == Compact(s) + Compact(t)
    decreases |t|
  {
    if t == [] {
      assert s + t == s;
    } else {
      assert (s + t)[..|s + t| - 1] == s + t[..|t| - 1];
      CompactAppend(s, t[..|t| - 1]);
    }
  }

  /** Wrapping every element in Some and compacting gives the sequence back. */
  lemma {:induction false} CompactAllSome<T>(s: seq<Option<T>>, t: seq<T>)
    requires |s| == |t|
    requires forall k :: 0 <= k < |s| ==> s[k] == Some(t[k])
    ensures Compact(s) == t
    decreases |s|
  {
    if s != [] {
      CompactAllSome(s[..|s| - 1], t[..|t| - 1]);
      assert t == t[..|t| - 1] + [t[|t| - 1]];
    }
  }

  function Reverse<T>(s: seq<T>): (r: seq<T>)
    ensures |r| == |s|
    ensures forall i :: 0 <= i < |s| ==> r[i] == s[|s| - 1 - i]
    decreases |s|
  {
    if s == [] then [] else [s[|s| - 1]] + Reverse(s[..|s| - 1])
  }

  /** Reversing a suffix one element longer puts that element last. */
  lemma ReverseSuffixStep<T>(s: seq<T>, n: int)
    requires 0 < n <= |s|
    ensures Reverse(s[n - 1..]) == Reverse(s[n..]) + [s[n - 1]]
  {
    var a, b := Reverse(s[n - 1..]), Reverse(s[n..]) + [s[n - 1]];
    assert |a| == |b|;
    forall i | 0 <= i < |a|
      ensures a[i] == b[i]
    {
      if i < |s| - n {
        assert b[i] == s[n..][|s| - n - 1 - i];
      }
    }
  }

  /** Reversing a concatenation reverses the order of its parts. */
  lemma ReverseAppend<T>(a: seq<T>, b: seq<T>)
    ensures Reverse(a + b) == Reverse(b) + Reverse(a)
  {
    var l, r := Reverse(a + b), Reverse(b) + Reverse(a);
    assert |l| == |r|;
    forall i | 0 <= i < |l|
      ensures l[i] == r[i]
    {
      if i < |b| {
        assert r[i] == Reverse(b)[i];
      } else {
        assert r[i] == Reverse(a)[i - |b|];
      }
    }
  }

  /** Reversing twice gives the sequence back. */
  lemma ReverseReverse<T>(s: seq<T>)
    ensures Reverse(Reverse(s)) == s
  {
    var r := Reverse(Reverse(s));
    assert |r| == |s|;
    forall i | 0 <= i < |s|
      ensures r[i] == s[i]
    {
      assert r[i] == Reverse(s)[|s| - 1 - i];
    }
  }

  /** The concatenation of a sequence of sequences, in order. */
  function Flatten<T>(ss: seq<seq<T>>): seq<T>
    decreases |ss|
  {
    if ss == [] then [] else Flatten(ss[..|ss| - 1]) + ss[|ss| - 1]
  }

  predicate NoDuplicates<T(==)>(s: seq<T>) {
    forall i, j :: 0 <= i < |s| && 0 <= j < |s| && s[i] == s[j] ==> i == j
  }

  /** The distinct elements of `s`, in order of first occurrence. */
  function Dedup<T(==)>(s: seq<T>): (r: seq<T>)
    ensures forall x :: x in r ==> x in s
    ensures forall i :: 0 <= i < |s| ==> s[i] in r
    ensures NoDuplicates(r)
    ensures |r| <= |s|
    decreases |s|
  {
    if s == [] then []
    else
      var d := Dedup(s[..|s| - 1]);
      assert s == s[..|s| - 1] + [s[|s| - 1]];
      if s[|s| - 1] in d then d else d + [s[|s| - 1]]
  }

  /** `s` is a merge of `a` and `b` that keeps the order of each. */
  predicate Interleaving<T(==)>(s: seq<T>, a: seq<T>, b: seq<T>)
    decreases |s|
  {
    if s == [] then a == [] && b == []
    else
      (a != [] && a[|a| - 1] == s[|s| - 1] && Interleaving(s[..|s| - 1], a[..|a| - 1], b)) ||
      (b != [] && b[|b| - 1] == s[|s| - 1] && Interleaving(s[..|s| - 1], a, b[..|b| - 1]))
  }

  lemma {:induction false} InterleavingMultiset<T>(s: seq<T>, a: seq<T>, b: seq<T>)
    requires Interleaving(s, a, b)
    ensures multiset(a) + multiset(b) == multiset(s)
    ensures |a| + |b| == |s|
    decreases |s|
  {
    if s != [] {
      var init, x := s[..|s| - 1], s[|s| - 1];
      assert s == init + [x];
      assert multiset(s) == multiset(init) + multiset{x};
      if a != [] && a[|a| - 1] == x && Interleaving(init, a[..|a| - 1], b) {
        InterleavingMultiset(init, a[..|a| - 1], b);
        assert a == a[..|a| - 1] + [x];
        assert multiset(a) == multiset(a[..|a| - 1]) + multiset{x};
      } else {
        InterleavingMultiset(init, a, b[..|b| - 1]);
        assert b == b[..|b| - 1] + [x];
        assert multiset(b) == multiset(b[..|b| - 1]) + multiset{x};
      }
    }
  }

  /** Filtering by a predicate and by its negation splits the sequence into two ordered parts. */
  lemma {:induction false} FilterInterleaving<T>(s: seq<T>, keep: T -> bool, drop: T -> bool)
    requires forall x :: drop(x) == !keep(x)
    ensures Interleaving(s, Filter(s, keep), Filter(s, drop))
    decreases |s|
  {
    if s != [] {
      var init, x := s[..|s| - 1], s[|s| - 1];
      FilterInterleaving(init, keep, drop);
      var a, b := Filter(s, keep), Filter(s, drop);
      if keep(x) {
        assert a == Filter(init, keep) + [x];
        assert a[..|a| - 1] == Filter(init, keep);
        assert b == Filter(init, drop);
      } else {
        assert b == Filter(init, drop) + [x];
        assert b[..|b| - 1] == Filter(init, drop);
        assert a == Filter(init, keep);
      }
    }
  }
}
