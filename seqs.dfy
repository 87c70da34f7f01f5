/** Sequence helpers shared by the scanner model. */
module Seqs {

  datatype Option<T> = None | Some(value: T)

  /** The elements of s that satisfy p, in the order in which they occur in s:
      the list comprehension `[x for x in s if p(x)]`. */
  function Filter<T>(s: seq<T>, p: T -> bool): (r: seq<T>)
    ensures |r| <= |s|
    ensures forall k :: 0 <= k < |r| ==> p(r[k])
  {
    if s == [] then []
    else Filter(s[..|s| - 1], p) + (if p(s[|s| - 1]) then [s[|s| - 1]] else [])
  }

  /** An element is kept by Filter exactly when it occurs in s and satisfies p. */
  lemma {:induction false} FilterMembership<T>(s: seq<T>, p: T -> bool, x: T)
    ensures x in Filter(s, p) <==> x in s && p(x)
  {
    if s != [] {
      var n := |s| - 1;
      FilterMembership(s[..n], p, x);
      assert s == s[..n] + [s[n]];
    }
  }

  /** Filter keeps exactly the positions of s whose element satisfies p,
      listed in increasing order: it drops elements and never reorders them. */
  lemma {:induction false} FilterKeepsOrder<T>(s: seq<T>, p: T -> bool) returns (idx: seq<nat>)
    ensures |idx| == |Filter(s, p)|
    ensures forall k :: 0 <= k < |idx| ==> idx[k] < |s| && Filter(s, p)[k] == s[idx[k]] && p(s[idx[k]])
    ensures forall a, b :: 0 <= a < b < |idx| ==> idx[a] < idx[b]
    ensures forall j :: 0 <= j < |s| && p(s[j]) ==> j in idx
  {
    if s == [] {
      idx := [];
    } else {
      var n := |s| - 1;
      var front := FilterKeepsOrder(s[..n], p);
      if p(s[n]) {
        idx := front + [n];
      } else {
        idx := front;
      }
      forall j | 0 <= j < |s| && p(s[j])
        ensures j in idx
      {
        if j < n {
          assert s[..n][j] == s[j];
        }
      }
      assert forall k :: 0 <= k < |front| ==> Filter(s, p)[k] == Filter(s[..n], p)[k];
    }
  }

  /** Filtering a concatenation filters each part. */
  lemma {:induction false} FilterAppend<T>(s: seq<T>, t: seq<T>, p: T -> bool)
    ensures Filter(s + t, p) == Filter(s, p) + Filter(t, p)
  {
    if t == [] {
      assert s + t == s;
    } else {
      var n := |t| - 1;
      FilterAppend(s, t[..n], p);
      var st := s + t;
      assert st[..|st| - 1] == s + t[..n];
      assert st[|st| - 1] == t[n];
      calc {
        Filter(st, p);
        Filter(s + t[..n], p) + (if p(t[n]) then [t[n]] else []);
        Filter(s, p) + Filter(t[..n], p) + (if p(t[n]) then [t[n]] else []);
        Filter(s, p) + Filter(t, p);
      }
    }
  }

  /** Filter leaves a sequence alone when every element satisfies p,
      and empties it when none does. */
  lemma {:induction false} FilterAllOrNone<T>(s: seq<T>, p: T -> bool)
    ensures (forall k :: 0 <= k < |s| ==> p(s[k])) ==> Filter(s, p) == s
    ensures (forall k :: 0 <= k < |s| ==> !p(s[k])) ==> Filter(s, p) == []
  {
    if s != [] {
      var n := |s| - 1;
      FilterAllOrNone(s[..n], p);
      assert s == s[..n] + [s[n]];
    }
  }

  /** f applied to each element of xs, the results joined in order. */
  function ConcatMap<A, B>(xs: seq<A>, f: A -> seq<B>): seq<B>
  {
    if xs == [] then [] else ConcatMap(xs[..|xs| - 1], f) + f(xs[|xs| - 1])
  }

  /** An element of ConcatMap(xs, f) is an element of f(x) for some x of xs, and conversely. */
  lemma {:induction false} ConcatMapMembership<A, B>(xs: seq<A>, f: A -> seq<B>, y: B)
    ensures y in ConcatMap(xs, f) <==> exists k :: 0 <= k < |xs| && y in f(xs[k])
  {
    if xs != [] {
      var n := |xs| - 1;
      ConcatMapMembership(xs[..n], f, y);
      assert ConcatMap(xs, f) == ConcatMap(xs[..n], f) + f(xs[n]);
      if exists k :: 0 <= k < n && y in f(xs[..n][k]) {
        var k :| 0 <= k < n && y in f(xs[..n][k]);
        assert xs[..n][k] == xs[k];
      }
      if exists k :: 0 <= k < |xs| && y in f(xs[k]) {
        var k :| 0 <= k < |xs| && y in f(xs[k]);
        if k < n {
          assert xs[..n][k] == xs[k];
        }
      }
    }
  }

  /** ConcatMap over a concatenation joins the two results. */
  lemma {:induction false} ConcatMapAppend<A, B>(xs: seq<A>, ys: seq<A>, f: A -> seq<B>)
    ensures ConcatMap(xs + ys, f) == ConcatMap(xs, f) + ConcatMap(ys, f)
  {
    if ys == [] {
      assert xs + ys == xs;
    } else {
      var n := |ys| - 1;
      ConcatMapAppend(xs, ys[..n], f);
      assert (xs + ys)[..|xs + ys| - 1] == xs + ys[..n];
      assert (xs + ys)[|xs + ys| - 1] == ys[n];
    }
  }

  /** ConcatMap around one chosen element. */
  lemma ConcatMapSplit<A, B>(xs: seq<A>, i: nat, f: A -> seq<B>)
    requires i < |xs|
    ensures ConcatMap(xs, f) == ConcatMap(xs[..i], f) + f(xs[i]) + ConcatMap(xs[i + 1..], f)
  {
    var front, back := xs[..i], xs[i + 1..];
    assert xs == (front + [xs[i]]) + back;
    ConcatMapAppend(front + [xs[i]], back, f);
    ConcatMapAppend(front, [xs[i]], f);
    ConcatMapSingle(xs[i], f);
  }

  lemma ConcatMapSingle<A, B>(x: A, f: A -> seq<B>)
    ensures ConcatMap([x], f) == f(x)
  {
    assert [x][..0] == [];
  }
}
