/**
 * Order-preserving selection from a sequence: the list comprehensions
 * `[x for x in s if p(x)]` that both operators use, and the positions of the
 * selected elements in the original sequence.
 */
module Sequences {

  /** The elements of `s` that satisfy `p`, in their original order. */
  function Filter<T>(s: seq<T>, p: T -> bool): (r: seq<T>)
    ensures |r| <= |s|
  {
    if s == [] then []
    else Filter(s[..|s| - 1], p) + (if p(s[|s| - 1]) then [s[|s| - 1]] else [])
  }

  /** `Filter` keeps exactly the elements that satisfy `p`. */
  lemma {:induction false} FilterMembers<T>(s: seq<T>, p: T -> bool)
    ensures forall x :: x in Filter(s, p) ==> x in s && p(x)
    ensures forall x :: x in s && p(x) ==> x in Filter(s, p)
  {
    if s != [] {
      var init := s[..|s| - 1];
      FilterMembers(init, p);
      assert forall x :: x in s ==> x in init || x == s[|s| - 1];
    }
  }

  /** The indices of the elements of `s` that satisfy `p`, ascending. */
  function Positions<T>(s: seq<T>, p: T -> bool): (r: seq<nat>)
    ensures |r| == |Filter(s, p)|
    ensures forall k :: 0 <= k < |r| ==> r[k] < |s|
  {
    if s == [] then []
    else
      var n := |s| - 1;
      Positions(s[..n], p) + (if p(s[n]) then [n] else [])
  }

  /**
   * `Filter` is an order-preserving selection of exactly the elements that
   * satisfy `p`: its k-th element is `s[Positions(s, p)[k]]`, the positions
   * ascend strictly, and every index whose element satisfies `p` is listed.
   */
  lemma FilterAtPositions<T>(s: seq<T>, p: T -> bool)
    ensures forall k :: 0 <= k < |Positions(s, p)| ==>
      p(s[Positions(s, p)[k]]) && Filter(s, p)[k] == s[Positions(s, p)[k]]
    ensures forall k, l :: 0 <= k < l < |Positions(s, p)| ==> Positions(s, p)[k] < Positions(s, p)[l]
    ensures forall j :: 0 <= j < |s| && p(s[j]) ==> j in Positions(s, p)
  {
    SelectedAtPositions(s, p);
    PositionsAscend(s, p);
    PositionsComplete(s, p);
  }

  lemma {:induction false} SelectedAtPositions<T>(s: seq<T>, p: T -> bool)
    ensures forall k :: 0 <= k < |Positions(s, p)| ==>
      p(s[Positions(s, p)[k]]) && Filter(s, p)[k] == s[Positions(s, p)[k]]
  {
    if s != [] {
      var n := |s| - 1;
      var init := s[..n];
      SelectedAtPositions(init, p);
      var rest, r := Positions(init, p), Positions(s, p);
      var f := Filter(s, p);
      assert r == rest + (if p(s[n]) then [n] else []);
      assert f == Filter(init, p) + (if p(s[n]) then [s[n]] else []);
      forall k | 0 <= k < |r|
        ensures p(s[r[k]]) && f[k] == s[r[k]]
      {
        if k < |rest| {
          assert r[k] == rest[k] && init[rest[k]] == s[rest[k]];
        }
      }
    }
  }

  lemma {:induction false} PositionsAscend<T>(s: seq<T>, p: T -> bool)
    ensures forall k, l :: 0 <= k < l < |Positions(s, p)| ==> Positions(s, p)[k] < Positions(s, p)[l]
  {
    if s != [] {
      var n := |s| - 1;
      var init := s[..n];
      PositionsAscend(init, p);
      var rest, r := Positions(init, p), Positions(s, p);
      assert r == rest + (if p(s[n]) then [n] else []);
      forall k, l | 0 <= k < l < |r|
        ensures r[k] < r[l]
      {
        if l < |rest| {
          assert r[k] == rest[k] && r[l] == rest[l];
        } else {
          assert r[k] == rest[k] && rest[k] < |init|;
        }
      }
    }
  }

  lemma {:induction false} PositionsComplete<T>(s: seq<T>, p: T -> bool)
    ensures forall j :: 0 <= j < |s| && p(s[j]) ==> j in Positions(s, p)
  {
    if s != [] {
      var n := |s| - 1;
      var init := s[..n];
      PositionsComplete(init, p);
      var rest, r := Positions(init, p), Positions(s, p);
      assert r == rest + (if p(s[n]) then [n] else []);
      forall j | 0 <= j < |s| && p(s[j])
        ensures j in r
      {
        if j < n {
          assert init[j] == s[j];
          assert j in rest;
        } else {
          assert r[|r| - 1] == n;
        }
      }
    }
  }

  /** Selections by predicates that agree position by position happen at the same positions. */
  lemma {:induction false} PositionsAgree<T, U>(s: seq<T>, p: T -> bool, t: seq<U>, q: U -> bool)
    requires |s| == |t|
    requires forall j :: 0 <= j < |s| ==> p(s[j]) == q(t[j])
    ensures Positions(s, p) == Positions(t, q)
  {
    if s != [] {
      var n := |s| - 1;
      PositionsAgree(s[..n], p, t[..n], q);
    }
  }

  lemma {:induction false} FilterAppend<T>(a: seq<T>, b: seq<T>, p: T -> bool)
    ensures Filter(a + b, p) == Filter(a, p) + Filter(b, p)
    decreases |b|
  {
    if b == [] {
      assert a + b == a;
    } else {
      var n := |b| - 1;
      assert (a + b)[..|a + b| - 1] == a + b[..n];
      FilterAppend(a, b[..n], p);
    }
  }

  /** Selecting with a predicate that every element satisfies keeps everything. */
  lemma {:induction false} FilterAll<T>(s: seq<T>, p: T -> bool)
    requires forall i :: 0 <= i < |s| ==> p(s[i])
    ensures Filter(s, p) == s
  {
    if s != [] {
      FilterAll(s[..|s| - 1], p);
    }
  }

  /** Selecting with a predicate that no element satisfies keeps nothing. */
  lemma {:induction false} FilterNone<T>(s: seq<T>, p: T -> bool)
    requires forall i :: 0 <= i < |s| ==> !p(s[i])
    ensures Filter(s, p) == []
  {
    if s != [] {
      FilterNone(s[..|s| - 1], p);
    }
  }

  /** `f` applied to every element of `s` together with its position. */
  function MapIndexed<T, R>(s: seq<T>, f: (nat, T) -> R): (r: seq<R>)
    ensures |r| == |s|
  {
    if s == [] then [] else MapIndexed(s[..|s| - 1], f) + [f(|s| - 1, s[|s| - 1])]
  }

  lemma {:induction false} MapIndexedAt<T, R>(s: seq<T>, f: (nat, T) -> R, i: nat)
    requires i < |s|
    ensures MapIndexed(s, f)[i] == f(i, s[i])
  {
    var n := |s| - 1;
    if i < n {
      MapIndexedAt(s[..n], f, i);
    }
  }
}
