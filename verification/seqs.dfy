/** The three list idioms the client uses on its in-memory lists, stated once
    and reused for transactions and debts: a filtered running sum, a removal
    by predicate, a conditional in-place update, and a first-match search. */
module Seqs {
  import opened Wrappers

  /** What one element adds to a filtered sum. */
  function Contribution<T>(x: T, keep: T -> bool, value: T -> real): real {
    if keep(x) then value(x) else 0.0
  }

  /** The left fold `acc + value(x)`, starting from zero, over the elements of
      `s` that satisfy `keep`, taken in list order. */
  function SumWhere<T>(s: seq<T>, keep: T -> bool, value: T -> real): (r: real)
    ensures (forall i :: 0 <= i < |s| && keep(s[i]) ==> value(s[i]) >= 0.0) ==> r >= 0.0
  {
    if |s| == 0 then 0.0
    else SumWhere(s[..|s| - 1], keep, value) + Contribution(s[|s| - 1], keep, value)
  }

  /** The list without the elements that satisfy `drop`, in the original order. */
  function RemoveWhere<T>(s: seq<T>, drop: T -> bool): (r: seq<T>)
    ensures |r| <= |s|
    ensures forall i :: 0 <= i < |r| ==> r[i] in s && !drop(r[i])
    ensures forall i :: 0 <= i < |s| && !drop(s[i]) ==> s[i] in r
    ensures (forall i :: 0 <= i < |s| ==> !drop(s[i])) ==> r == s
  {
    if |s| == 0 then []
    else (if drop(s[0]) then [] else [s[0]]) + RemoveWhere(s[1..], drop)
  }

  /** The list with `f` applied to every element that satisfies `hit`. */
  function MapWhere<T>(s: seq<T>, hit: T -> bool, f: T -> T): (r: seq<T>)
    ensures |r| == |s|
    ensures forall i :: 0 <= i < |s| && hit(s[i]) ==> r[i] == f(s[i])
    ensures forall i :: 0 <= i < |s| && !hit(s[i]) ==> r[i] == s[i]
  {
    if |s| == 0 then []
    else [if hit(s[0]) then f(s[0]) else s[0]] + MapWhere(s[1..], hit, f)
  }

  /** The position of the first element that satisfies `p`, if any. */
  function FindFirst<T>(s: seq<T>, p: T -> bool): (r: Option<nat>)
    ensures r.Some? ==> r.value < |s| && p(s[r.value])
    ensures r.Some? ==> forall j :: 0 <= j < r.value ==> !p(s[j])
    ensures r.None? <==> forall j :: 0 <= j < |s| ==> !p(s[j])
  {
    if |s| == 0 then None
    else if p(s[0]) then Some(0)
    else match FindFirst(s[1..], p)
      case None => None
      case Some(k) => Some(k + 1)
  }

  /** A filtered sum splits over concatenation. */
  lemma {:induction false} SumWhereAppend<T>(a: seq<T>, b: seq<T>, keep: T -> bool, value: T -> real)
    ensures SumWhere(a + b, keep, value) == SumWhere(a, keep, value) + SumWhere(b, keep, value)
    decreases |b|
  {
    if |b| == 0 {
      assert a + b == a;
    } else {
      var b' := b[..|b| - 1];
      assert (a + b)[..|a + b| - 1] == a + b';
      assert (a + b)[|a + b| - 1] == b[|b| - 1];
      SumWhereAppend(a, b', keep, value);
    }
  }

  /** A one-element list sums to that element's contribution. */
  lemma SumWhereSingleton<T>(x: T, keep: T -> bool, value: T -> real)
    ensures SumWhere([x], keep, value) == Contribution(x, keep, value)
  {
    assert [x][..0] == [];
  }

  /** Replacing one element changes the sum by exactly the difference of the
      two elements' contributions. */
  lemma SumWhereUpdate<T>(s: seq<T>, k: nat, x: T, keep: T -> bool, value: T -> real)
    requires k < |s|
    ensures SumWhere(s[k := x], keep, value)
         == SumWhere(s, keep, value) - Contribution(s[k], keep, value) + Contribution(x, keep, value)
  {
    var pre, post := s[..k], s[k + 1..];
    assert s == pre + [s[k]] + post;
    assert s[k := x] == pre + [x] + post;
    SumWhereAppend(pre + [s[k]], post, keep, value);
    SumWhereAppend(pre, [s[k]], keep, value);
    SumWhereAppend(pre + [x], post, keep, value);
    SumWhereAppend(pre, [x], keep, value);
    SumWhereSingleton(s[k], keep, value);
    SumWhereSingleton(x, keep, value);
  }

  /** Elements that never contribute can be removed without changing the sum. */
  lemma {:induction false} SumWhereIgnoresDropped<T>(s: seq<T>, drop: T -> bool, keep: T -> bool, value: T -> real)
    requires forall i :: 0 <= i < |s| && drop(s[i]) ==> !keep(s[i])
    ensures SumWhere(RemoveWhere(s, drop), keep, value) == SumWhere(s, keep, value)
  {
    if |s| > 0 {
      var head := if drop(s[0]) then [] else [s[0]];
      assert RemoveWhere(s, drop) == head + RemoveWhere(s[1..], drop);
      SumWhereAppend(head, RemoveWhere(s[1..], drop), keep, value);
      SumWhereIgnoresDropped(s[1..], drop, keep, value);
      assert s == [s[0]] + s[1..];
      SumWhereAppend([s[0]], s[1..], keep, value);
      SumWhereSingleton(s[0], keep, value);
    }
  }

  /** With strictly positive contributions, the sum is zero exactly when no
      element is kept. */
  lemma {:induction false} SumWherePositiveZeroIff<T>(s: seq<T>, keep: T -> bool, value: T -> real)
    requires forall i :: 0 <= i < |s| && keep(s[i]) ==> value(s[i]) > 0.0
    ensures SumWhere(s, keep, value) == 0.0 <==> forall i :: 0 <= i < |s| ==> !keep(s[i])
  {
    if |s| > 0 {
      var s' := s[..|s| - 1];
      assert forall i :: 0 <= i < |s'| ==> s'[i] == s[i];
      SumWherePositiveZeroIff(s', keep, value);
      if SumWhere(s, keep, value) == 0.0 {
        assert SumWhere(s', keep, value) >= 0.0;
        assert !keep(s[|s| - 1]);
        assert forall i :: 0 <= i < |s| ==> !keep(s[i]) by {
          forall i | 0 <= i < |s|
            ensures !keep(s[i])
          {
            if i < |s| - 1 {
              assert s'[i] == s[i];
            }
          }
        }
      }
    }
  }

  /** Removal distributes over concatenation, so it keeps the survivors in
      their original relative order. */
  lemma {:induction false} RemoveWhereAppend<T>(a: seq<T>, b: seq<T>, drop: T -> bool)
    ensures RemoveWhere(a + b, drop) == RemoveWhere(a, drop) + RemoveWhere(b, drop)
  {
    if |a| > 0 {
      assert (a + b)[0] == a[0];
      assert (a + b)[1..] == a[1..] + b;
      RemoveWhereAppend(a[1..], b, drop);
    } else {
      assert a + b == b;
    }
  }

  /** Removing twice by the same predicate removes nothing more. */
  lemma {:induction false} RemoveWhereIdempotent<T>(s: seq<T>, drop: T -> bool)
    ensures RemoveWhere(RemoveWhere(s, drop), drop) == RemoveWhere(s, drop)
  {
    var r := RemoveWhere(s, drop);
    assert forall i :: 0 <= i < |r| ==> !drop(r[i]);
  }

  /** Removals by two predicates commute. */
  lemma {:induction false} RemoveWhereCommutes<T>(s: seq<T>, d1: T -> bool, d2: T -> bool)
    ensures RemoveWhere(RemoveWhere(s, d1), d2) == RemoveWhere(RemoveWhere(s, d2), d1)
  {
    if |s| > 0 {
      var h1 := if d1(s[0]) then [] else [s[0]];
      var h2 := if d2(s[0]) then [] else [s[0]];
      RemoveWhereAppend(h1, RemoveWhere(s[1..], d1), d2);
      RemoveWhereAppend(h2, RemoveWhere(s[1..], d2), d1);
      RemoveWhereCommutes(s[1..], d1, d2);
      if !d1(s[0]) {
        assert RemoveWhere(h1, d2) == h2 by { assert h1[1..] == []; }
      }
      if !d2(s[0]) {
        assert RemoveWhere(h2, d1) == h1 by { assert h2[1..] == []; }
      }
    }
  }

  /** No two elements share a key. */
  predicate DistinctBy<T, K(==)>(s: seq<T>, key: T -> K) {
    forall i, j :: 0 <= i < |s| && 0 <= j < |s| && i != j ==> key(s[i]) != key(s[j])
  }

  /** Removal keeps distinct keys distinct. */
  lemma {:induction false} RemoveWherePreservesDistinct<T, K>(s: seq<T>, drop: T -> bool, key: T -> K)
    requires DistinctBy(s, key)
    ensures DistinctBy(RemoveWhere(s, drop), key)
  {
    if |s| > 0 {
      var rest := RemoveWhere(s[1..], drop);
      assert DistinctBy(s[1..], key) by {
        forall i, j | 0 <= i < |s[1..]| && 0 <= j < |s[1..]| && i != j
          ensures key(s[1..][i]) != key(s[1..][j])
        {
          assert s[1..][i] == s[i + 1] && s[1..][j] == s[j + 1];
        }
      }
      RemoveWherePreservesDistinct(s[1..], drop, key);
      if !drop(s[0]) {
        var r := [s[0]] + rest;
        assert RemoveWhere(s, drop) == r;
        forall j | 0 <= j < |rest|
          ensures key(s[0]) != key(rest[j])
        {
          assert rest[j] in s[1..];
          var m :| 0 <= m < |s[1..]| && s[1..][m] == rest[j];
          assert s[m + 1] == rest[j];
        }
        forall i, j | 0 <= i < |r| && 0 <= j < |r| && i != j
          ensures key(r[i]) != key(r[j])
        {
          if i > 0 && j > 0 {
            assert r[i] == rest[i - 1] && r[j] == rest[j - 1];
          } else if i == 0 {
            assert r[j] == rest[j - 1];
          } else {
            assert r[i] == rest[i - 1];
          }
        }
      }
    }
  }

  /** When exactly one element is hit, the conditional update is a single
      point update. */
  lemma MapWhereSingle<T>(s: seq<T>, hit: T -> bool, f: T -> T, k: nat)
    requires k < |s| && hit(s[k])
    requires forall j :: 0 <= j < |s| && j != k ==> !hit(s[j])
    ensures MapWhere(s, hit, f) == s[k := f(s[k])]
  {
  }

  /** Applying an idempotent update that keeps its target selected a second
      time changes nothing. */
  lemma MapWhereIdempotent<T>(s: seq<T>, hit: T -> bool, f: T -> T)
    requires forall x :: hit(x) ==> hit(f(x)) && f(f(x)) == f(x)
    ensures MapWhere(MapWhere(s, hit, f), hit, f) == MapWhere(s, hit, f)
  {
  }
}
