/**
 * The two list operations the directory view is built from: a stable filter
 * (JavaScript's Array.prototype.filter) and the minimum of a list of
 * numbers (Math.min applied to a spread array), the latter returning None on
 * the empty list instead of a non-finite number.
 */
module Seqs {
  import opened Wrappers

  /** The elements of `s` that satisfy `p`, in their original order. */
  function Filter<T(!new)>(s: seq<T>, p: T -> bool): (r: seq<T>)
    ensures |r| <= |s|
    ensures forall x :: x in r <==> x in s && p(x)
  {
    if s == [] then []
    else
      var init, last := s[..|s| - 1], s[|s| - 1];
      assert s == init + [last];
      var kept := Filter(init, p);
      if p(last) then kept + [last] else kept
  }

  /**
   * `idx` lists, in strictly increasing order, exactly the positions of `s`
   * whose element satisfies `p`, and `r` is the sequence of those elements.
   */
  ghost predicate Selects<T(!new)>(r: seq<T>, s: seq<T>, p: T -> bool, idx: seq<int>) {
    && |idx| == |r|
    && (forall k :: 0 <= k < |idx| ==> 0 <= idx[k] < |s| && s[idx[k]] == r[k])
    && (forall k, l :: 0 <= k < l < |idx| ==> idx[k] < idx[l])
    && (forall i :: 0 <= i < |s| ==> (p(s[i]) <==> i in idx))
  }

  /**
   * Filtering keeps every position that satisfies the predicate and no other,
   * each element once, in the input's relative order.
   */
  lemma {:induction false} FilterSelects<T(!new)>(s: seq<T>, p: T -> bool)
    ensures exists idx :: Selects(Filter(s, p), s, p, idx)
  {
    if s == [] {
      assert Selects(Filter(s, p), s, p, []);
    } else {
      var n := |s| - 1;
      var init := s[..n];
      assert s == init + [s[n]];
      FilterSelects(init, p);
      var idx :| Selects(Filter(init, p), init, p, idx);
      SelectsAppend(Filter(init, p), init, p, idx, s[n]);
      if p(s[n]) {
        assert Selects(Filter(s, p), s, p, idx + [n]);
      } else {
        assert Selects(Filter(s, p), s, p, idx);
      }
    }
  }

  /** One step of FilterSelects: appending an element to the input. */
  lemma SelectsAppend<T(!new)>(r: seq<T>, s: seq<T>, p: T -> bool, idx: seq<int>, x: T)
    requires Selects(r, s, p, idx)
    ensures p(x) ==> Selects(r + [x], s + [x], p, idx + [|s|])
    ensures !p(x) ==> Selects(r, s + [x], p, idx)
  {
    var s' := s + [x];
    assert forall i :: 0 <= i < |s| ==> s'[i] == s[i];
    if p(x) {
      var r', idx' := r + [x], idx + [|s|];
      forall k | 0 <= k < |idx'|
        ensures 0 <= idx'[k] < |s'| && s'[idx'[k]] == r'[k]
      {
        if k < |idx| {
          assert idx'[k] == idx[k] && r'[k] == r[k];
        }
      }
      forall i | 0 <= i < |s'|
        ensures p(s'[i]) <==> i in idx'
      {
        if i < |s| {
          assert (i in idx') == (i in idx);
        }
      }
    } else {
      forall i | 0 <= i < |s'|
        ensures p(s'[i]) <==> i in idx
      {
        if i == |s| {
          assert forall k :: 0 <= k < |idx| ==> idx[k] < |s|;
        }
      }
    }
  }

  /** The positions of `s` whose element satisfies `p`. */
  ghost function Positions<T(!new)>(s: seq<T>, p: T -> bool): set<int> {
    set i | 0 <= i < |s| && p(s[i])
  }

  /** The length of the filtered list is the number of positions that satisfy the predicate. */
  lemma {:induction false} FilterLength<T(!new)>(s: seq<T>, p: T -> bool)
    ensures |Filter(s, p)| == |Positions(s, p)|
  {
    if s == [] {
      assert Positions(s, p) == {};
    } else {
      var init, last := s[..|s| - 1], s[|s| - 1];
      assert s == init + [last];
      FilterLength(init, p);
      FilterSnoc(init, last, p);
      PositionsSnoc(init, last, p);
    }
  }

  lemma PositionsSnoc<T(!new)>(s: seq<T>, x: T, p: T -> bool)
    ensures Positions(s + [x], p) == Positions(s, p) + (if p(x) then {|s|} else {})
    ensures |s| !in Positions(s, p)
  {
    var s' := s + [x];
    assert forall i :: 0 <= i < |s| ==> s'[i] == s[i];
  }

  /** Filtering a list extended by one element extends the result by that element when it is kept. */
  lemma FilterSnoc<T(!new)>(s: seq<T>, x: T, p: T -> bool)
    ensures Filter(s + [x], p) == Filter(s, p) + (if p(x) then [x] else [])
  {
    assert (s + [x])[..|s|] == s;
  }

  /** Filtering a five-element list of which only the second and the fifth element are kept. */
  lemma FilterKeepsSecondAndFifth<T(!new)>(m: seq<T>, p: T -> bool)
    requires |m| == 5
    requires !p(m[0]) && p(m[1]) && !p(m[2]) && !p(m[3]) && p(m[4])
    ensures Filter(m, p) == [m[1], m[4]]
  {
    var a, b, c, d, e := m[0], m[1], m[2], m[3], m[4];
    assert m == [a, b, c, d] + [e];
    FilterSnoc([a, b, c], d, p);
    FilterSnoc([a, b], c, p);
    FilterSnoc([a], b, p);
    FilterSnoc([], a, p);
    assert [a, b, c] + [d] == [a, b, c, d] && [a, b] + [c] == [a, b, c] && [a] + [b] == [a, b];
    FilterSnoc([a, b, c, d], e, p);
  }

  /** When every element satisfies the predicate, filtering changes nothing. */
  lemma {:induction false} FilterKeepsAll<T(!new)>(s: seq<T>, p: T -> bool)
    requires forall x :: x in s ==> p(x)
    ensures Filter(s, p) == s
  {
    if s != [] {
      var n := |s| - 1;
      assert s == s[..n] + [s[n]];
      FilterKeepsAll(s[..n], p);
    }
  }

  /** Predicates that agree on every element of `s` filter it alike. */
  lemma {:induction false} FilterCongruent<T(!new)>(s: seq<T>, p: T -> bool, q: T -> bool)
    requires forall x :: x in s ==> p(x) == q(x)
    ensures Filter(s, p) == Filter(s, q)
  {
    if s != [] {
      var n := |s| - 1;
      assert s == s[..n] + [s[n]];
      FilterCongruent(s[..n], p, q);
    }
  }

  /** `Math.min(...xs)`, except that the empty list yields None rather than Infinity. */
  function Minimum(xs: seq<real>): (m: Option<real>)
    ensures m.None? <==> xs == []
    ensures m.Some? ==> m.value in xs && forall x :: x in xs ==> m.value <= x
  {
    if xs == [] then None
    else
      var init, last := xs[..|xs| - 1], xs[|xs| - 1];
      assert xs == init + [last];
      match Minimum(init)
      case None => Some(last)
      case Some(v) => Some(if last < v then last else v)
  }

  /** A real number or positive infinity, the value JavaScript's Math.min gives for no arguments. */
  datatype Extended = Finite(value: real) | PlusInfinity

  /** `Math.min(...xs)` as JavaScript evaluates it: Infinity on the empty list. */
  function MathMin(xs: seq<real>): (m: Extended)
    ensures m.PlusInfinity? <==> xs == []
  {
    if xs == [] then PlusInfinity
    else
      var last := xs[|xs| - 1];
      match MathMin(xs[..|xs| - 1])
      case PlusInfinity => Finite(last)
      case Finite(v) => Finite(if last < v then last else v)
  }

  /** Math.min and Minimum agree on every non-empty list; on the empty one Math.min gives Infinity. */
  lemma {:induction false} MathMinIsGuardedByMinimum(xs: seq<real>)
    ensures MathMin(xs) == match Minimum(xs) case None => PlusInfinity case Some(v) => Finite(v)
  {
    if xs != [] {
      MathMinIsGuardedByMinimum(xs[..|xs| - 1]);
    }
  }
}
