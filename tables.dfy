/**
 * A table is a sequence of rows in rowid (insertion) order, with a primary key
 * given by a key function. These are the table operations the services need:
 * key lookup, the next INTEGER PRIMARY KEY, insert-or-replace (`merge`), and
 * deletion by key.
 */
module Tables {
  import opened Wrappers
  import Ordering

  /** No two rows share a primary key. */
  ghost predicate Unique<T, K>(s: seq<T>, key: T -> K) {
    forall i, j :: 0 <= i < j < |s| ==> key(s[i]) != key(s[j])
  }

  /** Some row has primary key `k`. */
  predicate HasKey<T, K(==)>(s: seq<T>, key: T -> K, k: K) {
    exists i | 0 <= i < |s| :: key(s[i]) == k
  }

  /** The position of the first row with key `k`. */
  function IndexOfKey<T, K(==)>(s: seq<T>, key: T -> K, k: K): (r: Option<nat>)
    ensures r.Some? <==> HasKey(s, key, k)
    ensures r.Some? ==> r.value < |s| && key(s[r.value]) == k
    ensures r.Some? ==> forall i :: 0 <= i < r.value ==> key(s[i]) != k
    ensures r.None? ==> forall i :: 0 <= i < |s| ==> key(s[i]) != k
  {
    if s == [] then None
    else if key(s[0]) == k then Some(0)
    else
      var t := IndexOfKey(s[1..], key, k);
      if t.None? then
        assert forall i :: 1 <= i < |s| ==> key(s[i]) == key(s[1..][i - 1]);
        None
      else Some(t.value + 1)
  }

  /** `session.get(Model, k)`: the row with primary key `k`, if any. */
  function Get<T, K(==)>(s: seq<T>, key: T -> K, k: K): (r: Option<T>)
    ensures r.Some? <==> HasKey(s, key, k)
    ensures r.Some? ==> r.value in s && key(r.value) == k
  {
    var i := IndexOfKey(s, key, k);
    if i.Some? then Some(s[i.value]) else None
  }

  /** In a table with unique keys, a row with key `k` is the one `Get` finds. */
  lemma GetUnique<T, K>(s: seq<T>, key: T -> K, x: T)
    requires Unique(s, key) && x in s
    ensures Get(s, key, key(x)) == Some(x)
  {
    var j :| 0 <= j < |s| && s[j] == x;
    var i := IndexOfKey(s, key, key(x)).value;
    assert i == j;
  }

  /** The rowid SQLite gives a new row of an INTEGER PRIMARY KEY table: one more than the largest, or 1. */
  function NextId<T>(s: seq<T>, id: T -> int): (r: int)
    ensures forall i :: 0 <= i < |s| ==> id(s[i]) < r
    ensures s == [] ==> r == 1
    ensures s != [] ==> exists i :: 0 <= i < |s| && r == id(s[i]) + 1
  {
    if s == [] then 1
    else
      var m := NextId(s[..|s| - 1], id);
      assert forall i :: 0 <= i < |s| - 1 ==> id(s[i]) == id(s[..|s| - 1][i]);
      if |s| == 1 || id(s[|s| - 1]) + 1 > m then id(s[|s| - 1]) + 1 else m
  }

  /** Appending a row whose key is new keeps the keys unique. */
  lemma AppendUnique<T, K>(s: seq<T>, key: T -> K, x: T)
    requires Unique(s, key) && !HasKey(s, key, key(x))
    ensures Unique(s + [x], key)
  {
    var r := s + [x];
    forall i, j | 0 <= i < j < |r|
      ensures key(r[i]) != key(r[j])
    {
      if j == |s| {
        assert r[i] == s[i];
      }
    }
  }

  /** A row with the next rowid has a key no row has. */
  lemma NextIdFresh<T>(s: seq<T>, id: T -> int)
    ensures !HasKey(s, id, NextId(s, id))
  {
  }

  /** Replacing a row by one with the same key keeps the keys unique. */
  lemma UpdateUnique<T, K>(s: seq<T>, key: T -> K, i: nat, x: T)
    requires Unique(s, key) && i < |s| && key(x) == key(s[i])
    ensures Unique(s[i := x], key)
  {
    var r := s[i := x];
    forall a, b | 0 <= a < b < |r|
      ensures key(r[a]) != key(r[b])
    {
      assert key(r[a]) == key(s[a]) && key(r[b]) == key(s[b]);
    }
  }

  /** `DELETE ... WHERE key = k`: the rows whose key is not `k`, in order. */
  function RemoveKey<T(!new), K(==)>(s: seq<T>, key: T -> K, k: K): (r: seq<T>)
    ensures |r| <= |s|
    ensures !HasKey(r, key, k)
    ensures forall x :: x in r <==> x in s && key(x) != k
    ensures HasKey(s, key, k) <==> |r| < |s|
  {
    if s == [] then []
    else
      var t := RemoveKey(s[..|s| - 1], key, k);
      assert s == s[..|s| - 1] + [s[|s| - 1]];
      assert forall i :: 0 <= i < |s| - 1 ==> s[..|s| - 1][i] == s[i];
      if key(s[|s| - 1]) == k then t
      else
        var r := t + [s[|s| - 1]];
        assert forall i :: 0 <= i < |t| ==> r[i] == t[i];
        r
  }

  /** Removing rows keeps the remaining keys unique. */
  lemma {:induction false} RemoveKeyUnique<T(!new), K>(s: seq<T>, key: T -> K, k: K)
    requires Unique(s, key)
    ensures Unique(RemoveKey(s, key, k), key)
    decreases |s|
  {
    if s != [] {
      var init := s[..|s| - 1];
      assert Unique(init, key) by {
        forall i, j | 0 <= i < j < |init|
          ensures key(init[i]) != key(init[j])
        {
          assert init[i] == s[i] && init[j] == s[j];
        }
      }
      RemoveKeyUnique(init, key, k);
      var t := RemoveKey(init, key, k);
      var last := s[|s| - 1];
      if key(last) != k {
        assert forall j :: 0 <= j < |init| ==> init[j] == s[j];
        AppendUnique(t, key, last);
      }
    }
  }

  /**
   * `session.merge(row)`: replaces the row with the same key, or appends the row
   * when there is none.
   */
  function Merge<T(!new), K(==)>(s: seq<T>, key: T -> K, x: T): (r: seq<T>)
    ensures x in r
    ensures HasKey(s, key, key(x)) ==> |r| == |s|
    ensures !HasKey(s, key, key(x)) ==> r == s + [x]
    ensures forall y :: y in s && key(y) != key(x) ==> y in r
  {
    var i := IndexOfKey(s, key, key(x));
    if i.Some? then
      var r := s[i.value := x];
      assert key(s[i.value]) == key(x) && r[i.value] == x;
      assert forall y :: y in s && key(y) != key(x) ==> y in r by {
        forall y | y in s && key(y) != key(x)
          ensures y in r
        {
          var j :| 0 <= j < |s| && s[j] == y;
          assert r[j] == y;
        }
      }
      r
    else s + [x]
  }

  /** Merging keeps the keys unique. */
  lemma MergeUnique<T(!new), K>(s: seq<T>, key: T -> K, x: T)
    requires Unique(s, key)
    ensures Unique(Merge(s, key, x), key)
  {
    var i := IndexOfKey(s, key, key(x));
    if i.Some? {
      UpdateUnique(s, key, i.value, x);
    } else {
      AppendUnique(s, key, x);
    }
  }

  /** `session.merge` of each row of `xs` in turn. */
  function MergeAll<T(!new), K(==)>(s: seq<T>, key: T -> K, xs: seq<T>): seq<T>
    decreases |xs|
  {
    if xs == [] then s else Merge(MergeAll(s, key, xs[..|xs| - 1]), key, xs[|xs| - 1])
  }

  lemma MergeAllSnoc<T(!new), K>(s: seq<T>, key: T -> K, xs: seq<T>, x: T)
    ensures MergeAll(s, key, xs + [x]) == Merge(MergeAll(s, key, xs), key, x)
  {
    assert (xs + [x])[..|xs|] == xs;
  }

  /** Merging row after row keeps the keys unique. */
  lemma {:induction false} MergeAllUnique<T(!new), K>(s: seq<T>, key: T -> K, xs: seq<T>)
    requires Unique(s, key)
    ensures Unique(MergeAll(s, key, xs), key)
    decreases |xs|
  {
    if xs != [] {
      MergeAllUnique(s, key, xs[..|xs| - 1]);
      MergeUnique(MergeAll(s, key, xs[..|xs| - 1]), key, xs[|xs| - 1]);
    }
  }

  /** No later row of `xs` has the key of `xs[i]`. */
  predicate LastOfKey<T, K(==)>(xs: seq<T>, key: T -> K, i: nat) {
    i < |xs| && forall j :: i < j < |xs| ==> key(xs[j]) != key(xs[i])
  }

  /** The last row merged for a key is the one the table keeps. */
  lemma {:induction false} MergeAllLastWins<T(!new), K>(s: seq<T>, key: T -> K, xs: seq<T>, i: nat)
    requires LastOfKey(xs, key, i)
    ensures xs[i] in MergeAll(s, key, xs)
    decreases |xs|
  {
    var init := xs[..|xs| - 1];
    var x := xs[|xs| - 1];
    if i < |xs| - 1 {
      assert init[i] == xs[i];
      assert forall j :: i < j < |init| ==> init[j] == xs[j];
      MergeAllLastWins(s, key, init, i);
      assert key(x) != key(xs[i]);
    }
  }

  /** A row whose key no merged row has stays in the table. */
  lemma {:induction false} MergeAllKeeps<T(!new), K>(s: seq<T>, key: T -> K, xs: seq<T>, y: T)
    requires y in s && forall j :: 0 <= j < |xs| ==> key(xs[j]) != key(y)
    ensures y in MergeAll(s, key, xs)
    decreases |xs|
  {
    if xs != [] {
      var init := xs[..|xs| - 1];
      assert forall j :: 0 <= j < |init| ==> init[j] == xs[j];
      MergeAllKeeps(s, key, init, y);
      assert key(xs[|xs| - 1]) != key(y);
    }
  }

  /** The position of the first row that satisfies `p`: the row `.first()` returns without ORDER BY. */
  function FirstWhere<T>(s: seq<T>, p: T -> bool): (r: Option<nat>)
    ensures r.Some? <==> exists i :: 0 <= i < |s| && p(s[i])
    ensures r.Some? ==> r.value < |s| && p(s[r.value])
    ensures r.Some? ==> forall i :: 0 <= i < r.value ==> !p(s[i])
  {
    if s == [] then None
    else if p(s[0]) then Some(0)
    else
      var t := FirstWhere(s[1..], p);
      assert forall i :: 1 <= i < |s| ==> s[i] == s[1..][i - 1];
      if t.None? then None else Some(t.value + 1)
  }

  /** `.first()` on a table that only grew finds the same row when the old table had one. */
  lemma FirstWhereAppend<T>(s: seq<T>, extra: seq<T>, p: T -> bool)
    requires FirstWhere(s, p).Some?
    ensures FirstWhere(s + extra, p) == FirstWhere(s, p)
  {
    assert forall k :: 0 <= k < |s| ==> (s + extra)[k] == s[k];
  }

  /** A WHERE-filtered table keeps its keys unique: a bulk DELETE of the rows failing `p` leaves a valid table. */
  lemma {:induction false} FilterUnique<T(!new), K>(s: seq<T>, key: T -> K, p: T -> bool)
    requires Unique(s, key)
    ensures Unique(Ordering.Filter(s, p), key)
    decreases |s|
  {
    if s != [] {
      var init := s[..|s| - 1];
      var last := s[|s| - 1];
      var f := Ordering.Filter(init, p);
      FilterUnique(init, key, p);
      if p(last) {
        forall x | x in f
          ensures key(x) != key(last)
        {
          var j :| 0 <= j < |init| && init[j] == x;
          assert s[j] == x;
        }
        AppendUnique(f, key, last);
      }
    }
  }
}
