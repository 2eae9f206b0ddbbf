/**
 * The query shapes the services compose: WHERE as a filter, ORDER BY as a stable
 * sort on a key, LIMIT/OFFSET as a page. Sort keys follow SQLite's rules: NULL
 * sorts before every number and every number before every text, and text is
 * compared code point by code point (the BINARY collation on UTF-8 text).
 */
module Ordering {
  import opened Wrappers

  // ---------------------------------------------------------------------------
  // Sort keys and their comparison

  /** One sortable column value. */
  datatype Value = Null | Int(i: int) | Text(s: string)

  /** One ORDER BY term: the value and whether it sorts ascending (`ASC`) or descending (`DESC`). */
  datatype Part = Asc(v: Value) | Desc(v: Value)

  /** An ORDER BY clause evaluated on one row. */
  type Key = seq<Part>

  /** Code-point lexicographic comparison: negative, zero or positive. */
  function CmpStr(a: string, b: string): int
    decreases |a|
  {
    if a == [] && b == [] then 0
    else if a == [] then -1
    else if b == [] then 1
    else if a[0] < b[0] then -1
    else if a[0] > b[0] then 1
    else CmpStr(a[1..], b[1..])
  }

  function CmpInt(a: int, b: int): int {
    if a < b then -1 else if a > b then 1 else 0
  }

  function Rank(v: Value): int {
    match v
    case Null => 0
    case Int(_) => 1
    case Text(_) => 2
  }

  function CmpValue(a: Value, b: Value): int {
    if Rank(a) != Rank(b) then CmpInt(Rank(a), Rank(b))
    else match a
      case Null => 0
      case Int(x) => CmpInt(x, b.i)
      case Text(x) => CmpStr(x, b.s)
  }

  function CmpPart(a: Part, b: Part): int {
    if a.Asc? && b.Asc? then CmpValue(a.v, b.v)
    else if a.Desc? && b.Desc? then CmpValue(b.v, a.v)
    else if a.Asc? then -1
    else 1
  }

  /** Lexicographic comparison of two evaluated ORDER BY clauses. */
  function CmpKey(a: Key, b: Key): int
    decreases |a|
  {
    if a == [] && b == [] then 0
    else if a == [] then -1
    else if b == [] then 1
    else if CmpPart(a[0], b[0]) != 0 then CmpPart(a[0], b[0])
    else CmpKey(a[1..], b[1..])
  }

  /** `a` sorts no later than `b`. */
  predicate KeyLe(a: Key, b: Key) {
    CmpKey(a, b) <= 0
  }

  lemma {:induction false} CmpStrLaws(a: string, b: string, c: string)
    ensures CmpStr(a, b) == -CmpStr(b, a)
    ensures CmpStr(a, b) == 0 <==> a == b
    ensures CmpStr(a, b) <= 0 && CmpStr(b, c) <= 0 ==> CmpStr(a, c) <= 0
    ensures -1 <= CmpStr(a, b) <= 1
    decreases |a|
  {
    if a != [] && b != [] && c != [] {
      CmpStrLaws(a[1..], b[1..], c[1..]);
      if a[0] == b[0] && CmpStr(a[1..], b[1..]) == 0 {
        assert a == [a[0]] + a[1..] && b == [b[0]] + b[1..];
      }
    } else if a != [] && b != [] {
      CmpStrLaws(a[1..], b[1..], a[1..]);
      if a[0] == b[0] && CmpStr(a[1..], b[1..]) == 0 {
        assert a == [a[0]] + a[1..] && b == [b[0]] + b[1..];
      }
    }
  }

  lemma CmpValueLaws(a: Value, b: Value, c: Value)
    ensures CmpValue(a, b) == -CmpValue(b, a)
    ensures CmpValue(a, b) == 0 <==> a == b
    ensures CmpValue(a, b) <= 0 && CmpValue(b, c) <= 0 ==> CmpValue(a, c) <= 0
    ensures -1 <= CmpValue(a, b) <= 1
  {
    if a.Text? && b.Text? && c.Text? {
      CmpStrLaws(a.s, b.s, c.s);
    } else if a.Text? && b.Text? {
      CmpStrLaws(a.s, b.s, a.s);
    }
  }

  lemma CmpPartLaws(a: Part, b: Part, c: Part)
    ensures CmpPart(a, b) == -CmpPart(b, a)
    ensures CmpPart(a, b) == 0 <==> a == b
    ensures CmpPart(a, b) <= 0 && CmpPart(b, c) <= 0 ==> CmpPart(a, c) <= 0
  {
    CmpValueLaws(a.v, b.v, c.v);
    CmpValueLaws(c.v, b.v, a.v);
  }

  /** The key order is a total order: antisymmetric, transitive, and equal only on equal keys. */
  lemma {:induction false} CmpKeyLaws(a: Key, b: Key, c: Key)
    ensures CmpKey(a, b) == -CmpKey(b, a)
    ensures CmpKey(a, b) == 0 <==> a == b
    ensures KeyLe(a, b) && KeyLe(b, c) ==> KeyLe(a, c)
    decreases |a|
  {
    if a != [] && b != [] && c != [] {
      CmpPartLaws(a[0], b[0], c[0]);
      CmpKeyLaws(a[1..], b[1..], c[1..]);
      CmpPartLaws(a[0], c[0], b[0]);
      if CmpPart(a[0], b[0]) == 0 && CmpKey(a[1..], b[1..]) == 0 {
        assert a == [a[0]] + a[1..] && b == [b[0]] + b[1..];
      }
    } else if a != [] && b != [] {
      CmpPartLaws(a[0], b[0], a[0]);
      CmpKeyLaws(a[1..], b[1..], a[1..]);
      if CmpPart(a[0], b[0]) == 0 && CmpKey(a[1..], b[1..]) == 0 {
        assert a == [a[0]] + a[1..] && b == [b[0]] + b[1..];
      }
    }
  }

  /** A nullable text column as a sort value. */
  function OptText(o: Option<string>): Value {
    match o
    case None => Null
    case Some(s) => Text(s)
  }

  /** A nullable integer column as a sort value. */
  function OptInt(o: Option<int>): Value {
    match o
    case None => Null
    case Some(i) => Int(i)
  }

  // ---------------------------------------------------------------------------
  // ORDER BY

  /** `s` is in ORDER BY order for the clause `key`. */
  ghost predicate SortedBy<T>(s: seq<T>, key: T -> Key) {
    forall i, j :: 0 <= i < j < |s| ==> KeyLe(key(s[i]), key(s[j]))
  }

  /** Places `x` after every element of the sorted `s` that does not sort after it. */
  function Insert<T>(x: T, s: seq<T>, key: T -> Key): (r: seq<T>)
    ensures multiset(r) == multiset(s) + multiset{x}
    ensures |r| == |s| + 1
  {
    if s == [] then [x]
    else if KeyLe(key(s[|s| - 1]), key(x)) then s + [x]
    else
      assert s == s[..|s| - 1] + [s[|s| - 1]];
      Insert(x, s[..|s| - 1], key) + [s[|s| - 1]]
  }

  /** A stable insertion sort: the rows of an ORDER BY result. */
  function SortBy<T>(s: seq<T>, key: T -> Key): (r: seq<T>)
    ensures multiset(r) == multiset(s)
    ensures |r| == |s|
  {
    if s == [] then []
    else
      assert s == s[..|s| - 1] + [s[|s| - 1]];
      Insert(s[|s| - 1], SortBy(s[..|s| - 1], key), key)
  }

  lemma {:induction false} InsertSorted<T>(x: T, s: seq<T>, key: T -> Key)
    requires SortedBy(s, key)
    ensures SortedBy(Insert(x, s, key), key)
    decreases |s|
  {
    if s == [] {
    } else if KeyLe(key(s[|s| - 1]), key(x)) {
      var r := s + [x];
      forall i, j | 0 <= i < j < |r|
        ensures KeyLe(key(r[i]), key(r[j]))
      {
        if j == |s| && i < |s| - 1 {
          CmpKeyLaws(key(s[i]), key(s[|s| - 1]), key(x));
        }
      }
    } else {
      var init := s[..|s| - 1];
      var last := s[|s| - 1];
      InsertSorted(x, init, key);
      CmpKeyLaws(key(last), key(x), key(last));
      var t := Insert(x, init, key);
      var r := t + [last];
      forall i, j | 0 <= i < j < |r|
        ensures KeyLe(key(r[i]), key(r[j]))
      {
        if j == |t| {
          assert r[i] in multiset(t);
          assert r[i] in multiset(init) + multiset{x};
          if r[i] != x {
            assert r[i] in init;
            var k :| 0 <= k < |init| && init[k] == r[i];
            assert s[k] == r[i];
          }
        }
      }
    }
  }

  /** ORDER BY yields the rows in key order. */
  lemma {:induction false} SortBySorted<T>(s: seq<T>, key: T -> Key)
    ensures SortedBy(SortBy(s, key), key)
    decreases |s|
  {
    if s != [] {
      var init := s[..|s| - 1];
      SortBySorted(init, key);
      InsertSorted(s[|s| - 1], SortBy(init, key), key);
    }
  }

  // ---------------------------------------------------------------------------
  // WHERE and LIMIT/OFFSET

  /** The rows of `s` that satisfy `p`, in their order in `s`. */
  function Filter<T(!new)>(s: seq<T>, p: T -> bool): (r: seq<T>)
    ensures |r| <= |s|
    ensures forall x :: x in r <==> x in s && p(x)
    ensures forall x | p(x) :: multiset(r)[x] == multiset(s)[x]
  {
    if s == [] then []
    else
      assert s == s[..|s| - 1] + [s[|s| - 1]];
      Filter(s[..|s| - 1], p) + (if p(s[|s| - 1]) then [s[|s| - 1]] else [])
  }

  /** The first row of `s` the page keeps: SQLite treats a negative OFFSET as 0. */
  function PageStart(n: nat, offset: int): (start: nat)
    ensures start <= n
  {
    if offset < 0 then 0 else if offset > n then n else offset
  }

  /**
   * How many of `n` rows `LIMIT limit OFFSET offset` keeps: `limit` of them when
   * that many follow the offset, otherwise all that follow.
   */
  function PageLength(n: nat, limit: int, offset: int): (len: nat)
    ensures PageStart(n, offset) + len <= n
    ensures limit < 0 ==> len == n - PageStart(n, offset)
    ensures 0 <= limit ==> len <= limit
    ensures 0 <= limit <= n - PageStart(n, offset) ==> len == limit
  {
    var start := PageStart(n, offset);
    if limit < 0 || start + limit > n then n - start else limit
  }

  /**
   * `LIMIT limit OFFSET offset`: skip `offset` rows, then keep at most `limit`;
   * SQLite treats a negative LIMIT as no limit.
   */
  function Page<T>(s: seq<T>, limit: int, offset: int): (r: seq<T>)
    ensures PageStart(|s|, offset) + |r| <= |s|
    ensures r == s[PageStart(|s|, offset)..PageStart(|s|, offset) + |r|]
    ensures limit >= 0 ==> |r| == if limit < |s| - PageStart(|s|, offset) then limit else |s| - PageStart(|s|, offset)
    ensures limit < 0 ==> |r| == |s| - PageStart(|s|, offset)
    ensures |r| == PageLength(|s|, limit, offset)
  {
    var start := PageStart(|s|, offset);
    if limit < 0 || start + limit > |s| then s[start..] else s[start..start + limit]
  }

  /** A page of an ordered result is ordered. */
  lemma PageSorted<T>(s: seq<T>, key: T -> Key, limit: int, offset: int)
    requires SortedBy(s, key)
    ensures SortedBy(Page(s, limit, offset), key)
  {
    var r := Page(s, limit, offset);
    var start := PageStart(|s|, offset);
    forall i, j | 0 <= i < j < |r|
      ensures KeyLe(key(r[i]), key(r[j]))
    {
      assert r[i] == s[start + i] && r[j] == s[start + j];
    }
  }

  /** A page keeps only rows of the input. */
  lemma PageSubset<T>(s: seq<T>, limit: int, offset: int)
    ensures forall x :: x in Page(s, limit, offset) ==> x in s
  {
    var r := Page(s, limit, offset);
    var start := PageStart(|s|, offset);
    forall x | x in r
      ensures x in s
    {
      var k :| 0 <= k < |r| && r[k] == x;
      assert s[start + k] == x;
    }
  }

  /** Without a limit and an offset the page is the whole input. */
  lemma PageAll<T>(s: seq<T>, limit: int, offset: int)
    requires limit < 0 && offset <= 0
    ensures Page(s, limit, offset) == s
  {
  }

  /** ORDER BY keeps exactly the rows it is given. */
  lemma SortByMembers<T>(s: seq<T>, key: T -> Key)
    ensures forall x :: x in SortBy(s, key) <==> x in s
  {
    var r := SortBy(s, key);
    forall x
      ensures x in r <==> x in s
    {
      assert x in r <==> x in multiset(r);
      assert x in s <==> x in multiset(s);
    }
  }

  /** `SELECT ... WHERE p ORDER BY key LIMIT limit OFFSET offset`. */
  function Query<T(!new)>(s: seq<T>, p: T -> bool, key: T -> Key, limit: int, offset: int): seq<T> {
    Page(SortBy(Filter(s, p), key), limit, offset)
  }

  /**
   * A query returns only rows that satisfy the WHERE clause, in ORDER BY order,
   * at most `limit` of them; without a limit and an offset it returns every
   * row that satisfies the clause.
   */
  lemma QuerySpec<T(!new)>(s: seq<T>, p: T -> bool, key: T -> Key, limit: int, offset: int)
    ensures forall x :: x in Query(s, p, key, limit, offset) ==> x in s && p(x)
    ensures SortedBy(Query(s, p, key, limit, offset), key)
    ensures limit >= 0 ==> |Query(s, p, key, limit, offset)| <= limit
    ensures limit < 0 && offset <= 0 ==>
      forall x :: x in s && p(x) ==> x in Query(s, p, key, limit, offset)
  {
    var f := Filter(s, p);
    var sorted := SortBy(f, key);
    SortBySorted(f, key);
    SortByMembers(f, key);
    PageSorted(sorted, key, limit, offset);
    PageSubset(sorted, limit, offset);
    if limit < 0 && offset <= 0 {
      PageAll(sorted, limit, offset);
    }
  }

  /**
   * Exactly, a query returns the window of the ordered matching rows that
   * starts at the offset and holds `PageLength` rows.
   */
  lemma QueryWindow<T(!new)>(s: seq<T>, p: T -> bool, key: T -> Key, limit: int, offset: int)
    ensures var f := SortBy(Filter(s, p), key); var st := PageStart(|f|, offset);
      Query(s, p, key, limit, offset) == f[st..st + PageLength(|f|, limit, offset)]
  {
  }

  /** An unpaged query is a permutation of the rows that satisfy the WHERE clause. */
  lemma QueryAllPermutes<T(!new)>(s: seq<T>, p: T -> bool, key: T -> Key)
    ensures multiset(Query(s, p, key, -1, 0)) == multiset(Filter(s, p))
  {
    PageAll(SortBy(Filter(s, p), key), -1, 0);
  }
}
