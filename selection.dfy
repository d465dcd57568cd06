/**
 * The shape shared by every loop in the source that walks a list and appends
 * to a fresh result list: each item is mapped to an optional output, and the
 * outputs that exist are kept in order. The lemmas characterise exactly which
 * items are kept and where they come from.
 */
module Selection {
  import opened Wrappers

  /** The list `[v]` for `Some(v)`, the empty list for None. */
  function Lift<U>(o: Option<U>): (r: seq<U>)
    ensures o.Some? ==> r == [o.value]
    ensures o.None? ==> r == []
  {
    if o.Some? then [o.value] else []
  }

  /** Applies `f` to every item in order and keeps the values it returns. */
  function FilterMap<T, U>(f: T -> Option<U>, s: seq<T>): (r: seq<U>)
    ensures |r| <= |s|
  {
    if |s| == 0 then [] else FilterMap(f, s[..|s| - 1]) + Lift(f(s[|s| - 1]))
  }

  /** The positions of `s` at which `f` returns a value, in increasing order. */
  function KeptPositions<T, U>(f: T -> Option<U>, s: seq<T>): seq<nat> {
    if |s| == 0 then []
    else KeptPositions(f, s[..|s| - 1]) + (if f(s[|s| - 1]).Some? then [|s| - 1] else [])
  }

  /** One more item appended to the input appends at most one output. */
  lemma FilterMapSnoc<T, U>(f: T -> Option<U>, s: seq<T>, x: T)
    ensures FilterMap(f, s + [x]) == FilterMap(f, s) + Lift(f(x))
  {
    assert (s + [x])[..|s|] == s;
  }

  /** One step of a loop that builds `FilterMap(f, s)` from the front. */
  lemma FilterMapStep<T, U>(f: T -> Option<U>, s: seq<T>, i: nat, acc: seq<U>, c: Option<U>)
    requires i < |s| && acc == FilterMap(f, s[..i]) && c == f(s[i])
    ensures acc + Lift(c) == FilterMap(f, s[..i + 1])
  {
    FilterMapSnoc(f, s[..i], s[i]);
    assert s[..i + 1] == s[..i] + [s[i]];
  }

  /**
   * The output is exactly the values of `f` at the kept positions: the k-th
   * output comes from the k-th kept item, kept items stay in input order, and
   * an item is kept iff `f` returns a value for it.
   */
  lemma FilterMapPositions<T, U>(f: T -> Option<U>, s: seq<T>)
    ensures |KeptPositions(f, s)| == |FilterMap(f, s)|
    ensures forall k :: 0 <= k < |KeptPositions(f, s)| ==>
      KeptPositions(f, s)[k] < |s| && f(s[KeptPositions(f, s)[k]]) == Some(FilterMap(f, s)[k])
    ensures forall k, l :: 0 <= k < l < |KeptPositions(f, s)| ==>
      KeptPositions(f, s)[k] < KeptPositions(f, s)[l]
    ensures forall i :: 0 <= i < |s| ==> (f(s[i]).Some? <==> i in KeptPositions(f, s))
  {
    KeptPositionsOrdered(f, s);
    KeptPositionsMembership(f, s);
    FilterMapAtPositions(f, s);
  }

  lemma {:induction false} KeptPositionsOrdered<T, U>(f: T -> Option<U>, s: seq<T>)
    ensures forall k :: 0 <= k < |KeptPositions(f, s)| ==> KeptPositions(f, s)[k] < |s|
    ensures forall k, l :: 0 <= k < l < |KeptPositions(f, s)| ==>
      KeptPositions(f, s)[k] < KeptPositions(f, s)[l]
  {
    if |s| > 0 {
      var n := |s| - 1;
      KeptPositionsOrdered(f, s[..n]);
      var p0, p := KeptPositions(f, s[..n]), KeptPositions(f, s);
      assert p == p0 + (if f(s[n]).Some? then [n] else []);
      forall k, l | 0 <= k < l < |p|
        ensures p[k] < p[l]
      {
        if l >= |p0| {
          assert p[k] == p0[k] && p[l] == n;
        }
      }
    }
  }

  lemma {:induction false} KeptPositionsMembership<T, U>(f: T -> Option<U>, s: seq<T>)
    ensures forall i :: 0 <= i < |s| ==> (f(s[i]).Some? <==> i in KeptPositions(f, s))
  {
    if |s| > 0 {
      var n := |s| - 1;
      var init := s[..n];
      KeptPositionsMembership(f, init);
      KeptPositionsOrdered(f, init);
      var p0, p := KeptPositions(f, init), KeptPositions(f, s);
      assert p == p0 + (if f(s[n]).Some? then [n] else []);
      forall i | 0 <= i < |s|
        ensures f(s[i]).Some? <==> i in p
      {
        if i < n {
          assert s[i] == init[i];
          assert n !in p0;
          assert i in p <==> i in p0;
        }
      }
    }
  }

  lemma {:induction false} FilterMapAtPositions<T, U>(f: T -> Option<U>, s: seq<T>)
    ensures |KeptPositions(f, s)| == |FilterMap(f, s)|
    ensures forall k :: 0 <= k < |KeptPositions(f, s)| ==>
      KeptPositions(f, s)[k] < |s| && f(s[KeptPositions(f, s)[k]]) == Some(FilterMap(f, s)[k])
  {
    if |s| > 0 {
      var n := |s| - 1;
      var init := s[..n];
      FilterMapAtPositions(f, init);
      var p0, r0 := KeptPositions(f, init), FilterMap(f, init);
      var p, r := KeptPositions(f, s), FilterMap(f, s);
      assert p == p0 + (if f(s[n]).Some? then [n] else []);
      assert r == r0 + Lift(f(s[n]));
      forall k | 0 <= k < |p|
        ensures p[k] < |s| && f(s[p[k]]) == Some(r[k])
      {
        if k < |p0| {
          assert p[k] == p0[k] && r[k] == r0[k];
          assert s[p0[k]] == init[p0[k]];
        }
      }
    }
  }

  /** When `f` returns a value for every item, nothing is dropped. */
  lemma {:induction false} FilterMapKeepsAll<T, U>(f: T -> Option<U>, s: seq<T>)
    requires forall i :: 0 <= i < |s| ==> f(s[i]).Some?
    ensures |FilterMap(f, s)| == |s|
    ensures forall k :: 0 <= k < |s| ==> f(s[k]) == Some(FilterMap(f, s)[k])
  {
    if |s| > 0 {
      var init := s[..|s| - 1];
      assert forall i :: 0 <= i < |init| ==> init[i] == s[i];
      FilterMapKeepsAll(f, init);
    }
  }

  /** A property of every input that `f` carries to its output holds of every output. */
  lemma {:induction false} FilterMapPreserves<T, U>(f: T -> Option<U>, s: seq<T>, P: T -> bool, Q: U -> bool)
    requires forall i :: 0 <= i < |s| ==> P(s[i])
    requires forall x :: P(x) && f(x).Some? ==> Q(f(x).value)
    ensures forall k :: 0 <= k < |FilterMap(f, s)| ==> Q(FilterMap(f, s)[k])
  {
    if |s| > 0 {
      var init := s[..|s| - 1];
      assert forall i :: 0 <= i < |init| ==> init[i] == s[i];
      FilterMapPreserves(f, init, P, Q);
    }
  }

  /** A property of every item survives reordering. */
  lemma PermutationPreserves<T>(a: seq<T>, b: seq<T>, Q: T -> bool)
    requires multiset(a) == multiset(b)
    requires forall i :: 0 <= i < |b| ==> Q(b[i])
    ensures forall k :: 0 <= k < |a| ==> Q(a[k])
  {
    forall k | 0 <= k < |a|
      ensures Q(a[k])
    {
      assert a[k] in multiset(b);
      var i :| 0 <= i < |b| && b[i] == a[k];
    }
  }
}
