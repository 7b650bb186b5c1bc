/** Queries over a table held as a sequence of rows: `where` clauses (Filter),
    `select ... limit 1` (FirstWhere) and row-wise updates (MapRows). */
module Seqs {
  import opened Wrappers

  /** The rows of `s` that satisfy `p`, in table order. */
  function Filter<T(!new)>(s: seq<T>, p: T -> bool): (r: seq<T>)
    ensures |r| <= |s|
    ensures forall x :: x in r <==> x in s && p(x)
    ensures forall i :: 0 <= i < |r| ==> p(r[i])
    ensures multiset(r) <= multiset(s)
  {
    if s == [] then []
    else
      var rest := Filter(s[1..], p);
      assert s == [s[0]] + s[1..];
      if p(s[0]) then [s[0]] + rest else rest
  }

  lemma {:induction false} FilterAppend<T(!new)>(s: seq<T>, t: seq<T>, p: T -> bool)
    ensures Filter(s + t, p) == Filter(s, p) + Filter(t, p)
  {
    if s == [] {
      assert s + t == t;
    } else {
      assert (s + t)[1..] == s[1..] + t;
      FilterAppend(s[1..], t, p);
    }
  }

  /** The first row of `s` that satisfies `p`, or `None`. */
  function FirstWhere<T>(s: seq<T>, p: T -> bool): (r: Option<T>)
    ensures r.Some? <==> exists i :: 0 <= i < |s| && p(s[i])
    ensures r.Some? ==> r.value in s && p(r.value)
  {
    if s == [] then None
    else if p(s[0]) then Some(s[0])
    else
      var r := FirstWhere(s[1..], p);
      assert forall i :: 1 <= i < |s| ==> s[i] == s[1..][i - 1];
      r
  }

  /** `f` applied to every row of `s`. */
  function MapRows<T, U>(s: seq<T>, f: T -> U): (r: seq<U>)
    ensures |r| == |s|
    ensures forall i :: 0 <= i < |s| ==> r[i] == f(s[i])
  {
    seq(|s|, i requires 0 <= i < |s| => f(s[i]))
  }

  /** Keys are pairwise distinct and all below `bound`: the primary-key
      invariant of a table whose ids come from a counter at `bound`. */
  ghost predicate KeyedBelow<T>(s: seq<T>, key: T -> int, bound: int) {
    && (forall i :: 0 <= i < |s| ==> key(s[i]) < bound)
    && (forall i, j :: 0 <= i < j < |s| ==> key(s[i]) != key(s[j]))
  }

  predicate HasKey<T>(s: seq<T>, key: T -> int, k: int) {
    exists i :: 0 <= i < |s| && key(s[i]) == k
  }

  lemma KeyedAppend<T>(s: seq<T>, x: T, key: T -> int, bound: int, bound': int)
    requires KeyedBelow(s, key, bound) && bound <= bound' && key(x) < bound'
    requires !HasKey(s, key, key(x))
    ensures KeyedBelow(s + [x], key, bound')
  {
  }

  lemma HasKeyGrow<T>(s: seq<T>, t: seq<T>, key: T -> int, k: int)
    requires HasKey(s, key, k)
    ensures HasKey(s + t, key, k)
  {
    var i :| 0 <= i < |s| && key(s[i]) == k;
    assert (s + t)[i] == s[i];
  }

  /** Rows keyed by a counter's next values extend a keyed table. */
  lemma KeyedExtend<T>(s: seq<T>, t: seq<T>, key: T -> int, bound: int)
    requires KeyedBelow(s, key, bound)
    requires forall i :: 0 <= i < |t| ==> key(t[i]) == bound + i
    ensures KeyedBelow(s + t, key, bound + |t|)
  {
    var u := s + t;
    forall i, j | 0 <= i < j < |u| ensures key(u[i]) != key(u[j]) {
      if j >= |s| {
        assert key(u[j]) == bound + (j - |s|);
        if i >= |s| {
          assert key(u[i]) == bound + (i - |s|);
        }
      }
    }
    forall i | 0 <= i < |u| ensures key(u[i]) < bound + |t| {
      if i >= |s| {
        assert key(u[i]) == bound + (i - |s|);
      }
    }
  }

  /** A table rewritten row by row without touching keys keeps them. */
  lemma KeyedSameKeys<T>(s: seq<T>, r: seq<T>, key: T -> int, bound: int)
    requires KeyedBelow(s, key, bound)
    requires |r| == |s| && forall i :: 0 <= i < |s| ==> key(r[i]) == key(s[i])
    ensures KeyedBelow(r, key, bound)
    ensures forall k :: HasKey(r, key, k) <==> HasKey(s, key, k)
  {
    forall k | HasKey(s, key, k) ensures HasKey(r, key, k) {
      var i :| 0 <= i < |s| && key(s[i]) == k;
      assert key(r[i]) == k;
    }
  }

  /** A filter every row passes keeps the whole table. */
  lemma {:induction false} FilterAll<T(!new)>(s: seq<T>, p: T -> bool)
    requires forall i :: 0 <= i < |s| ==> p(s[i])
    ensures Filter(s, p) == s
  {
    if s != [] {
      FilterAll(s[1..], p);
    }
  }

  /** A filter no row passes leaves nothing. */
  lemma {:induction false} FilterNone<T(!new)>(s: seq<T>, p: T -> bool)
    requires forall i :: 0 <= i < |s| ==> !p(s[i])
    ensures Filter(s, p) == []
  {
    if s != [] {
      FilterNone(s[1..], p);
    }
  }

  lemma KeyedRaise<T>(s: seq<T>, key: T -> int, bound: int, bound': int)
    requires KeyedBelow(s, key, bound) && bound <= bound'
    ensures KeyedBelow(s, key, bound')
  {
  }

  lemma {:induction false} KeyedFilter<T(!new)>(s: seq<T>, key: T -> int, bound: int, p: T -> bool)
    requires KeyedBelow(s, key, bound)
    ensures KeyedBelow(Filter(s, p), key, bound)
  {
    if s != [] {
      KeyedFilter(s[1..], key, bound, p);
      var rest := Filter(s[1..], p);
      if p(s[0]) {
        forall j | 0 <= j < |rest| ensures key(s[0]) != key(rest[j]) {
          assert rest[j] in s[1..];
        }
      }
    }
  }

  /** The row keyed `k`, or `None`: `SELECT ... WHERE key = k` on a keyed table. */
  function FindKey<T>(s: seq<T>, key: T -> int, k: int): (r: Option<T>)
    ensures r.Some? <==> HasKey(s, key, k)
    ensures r.Some? ==> r.value in s && key(r.value) == k
  {
    FirstWhere(s, (x: T) => key(x) == k)
  }

  /** Keys are pairwise distinct: a unique column with no counter behind it. */
  ghost predicate UniqueKeys<T>(s: seq<T>, key: T -> int) {
    forall i, j :: 0 <= i < j < |s| ==> key(s[i]) != key(s[j])
  }

  /** A table with unique keys has all of them below some bound. */
  lemma {:induction false} UniqueKeysBelow<T>(s: seq<T>, key: T -> int) returns (bound: int)
    requires UniqueKeys(s, key)
    ensures KeyedBelow(s, key, bound)
  {
    if s == [] {
      bound := 0;
    } else {
      var b := UniqueKeysBelow(s[1..], key);
      bound := if key(s[0]) >= b then key(s[0]) + 1 else b;
      forall i | 1 <= i < |s| ensures key(s[i]) < bound {
        assert s[i] == s[1..][i - 1];
      }
    }
  }

  /** In a table with unique keys, the row found under a stored row's key
      is that row. */
  lemma FindKeyStored<T>(s: seq<T>, key: T -> int, x: T)
    requires UniqueKeys(s, key) && x in s
    ensures FindKey(s, key, key(x)) == Some(x)
  {
    var i :| 0 <= i < |s| && s[i] == x;
    assert HasKey(s, key, key(x)) by {
      assert key(s[i]) == key(x);
    }
    var found := FindKey(s, key, key(x));
    var j :| 0 <= j < |s| && s[j] == found.value;
    assert key(s[j]) == key(s[i]);
  }

  /** The table with the row keyed like `x` replaced by `x`. */
  function ReplaceKey<T>(s: seq<T>, key: T -> int, x: T): (r: seq<T>)
    ensures |r| == |s|
    ensures forall i :: 0 <= i < |s| && key(s[i]) == key(x) ==> r[i] == x
    ensures forall i :: 0 <= i < |s| && key(s[i]) != key(x) ==> r[i] == s[i]
  {
    MapRows(s, (y: T) => if key(y) == key(x) then x else y)
  }

  /** Replacing a row under its own key keeps the keys. */
  lemma ReplaceKeyKeyed<T>(s: seq<T>, key: T -> int, x: T, bound: int)
    requires KeyedBelow(s, key, bound)
    ensures KeyedBelow(ReplaceKey(s, key, x), key, bound)
    ensures forall k :: HasKey(ReplaceKey(s, key, x), key, k) <==> HasKey(s, key, k)
  {
    KeyedSameKeys(s, ReplaceKey(s, key, x), key, bound);
  }

  /** The table without the row keyed `k`: `DELETE ... WHERE key = k`. */
  function DropKey<T(!new)>(s: seq<T>, key: T -> int, k: int): (r: seq<T>)
    ensures forall x :: x in r <==> x in s && key(x) != k
  {
    Filter(s, (x: T) => key(x) != k)
  }

  /** Deleting by key keeps the other keys unique and leaves no row keyed `k`. */
  lemma DropKeyKeyed<T(!new)>(s: seq<T>, key: T -> int, k: int, bound: int)
    requires KeyedBelow(s, key, bound)
    ensures KeyedBelow(DropKey(s, key, k), key, bound)
    ensures !HasKey(DropKey(s, key, k), key, k)
  {
    var r := DropKey(s, key, k);
    KeyedFilter(s, key, bound, (x: T) => key(x) != k);
    assert r == Filter(s, (x: T) => key(x) != k);
    assert forall i :: 0 <= i < |r| ==> r[i] in r;
  }
}
