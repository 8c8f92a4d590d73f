/** Keyset pagination: every list endpoint orders its rows by a key, asks for one row more than the
    page holds, and hands out the last row's key as the cursor for the next page.
 */
module Keyset {
  import opened Wrappers

  datatype Row<+K, +V> = Row(key: K, value: V)

  datatype Page<+K, +V> = Page(rows: seq<Row<K, V>>, next: Option<K>)

  /** `before(a, b)` says that the list shows key `a` before key `b`. */
  ghost predicate StrictTotalOrder<K(!new)>(before: (K, K) -> bool)
  {
    && (forall a :: !before(a, a))
    && (forall a, b, c :: before(a, b) && before(b, c) ==> before(a, c))
    && (forall a, b :: a != b ==> before(a, b) || before(b, a))
  }

  /** The WHERE clause: the filters, and the rows strictly after the cursor. */
  predicate Wanted<K, V>(keep: Row<K, V> -> bool, before: (K, K) -> bool, cursor: Option<K>, r: Row<K, V>)
  {
    keep(r) && (cursor.Some? ==> before(cursor.value, r.key))
  }

  function Where<K, V>(
      table: seq<Row<K, V>>, keep: Row<K, V> -> bool, before: (K, K) -> bool, cursor: Option<K>): seq<Row<K, V>>
  {
    if table == [] then []
    else (if Wanted(keep, before, cursor, table[0]) then [table[0]] else []) + Where(table[1..], keep, before, cursor)
  }

  function Insert<K, V>(before: (K, K) -> bool, r: Row<K, V>, s: seq<Row<K, V>>): seq<Row<K, V>>
  {
    if s == [] || before(r.key, s[0].key) then [r] + s else [s[0]] + Insert(before, r, s[1..])
  }

  function OrderBy<K, V>(before: (K, K) -> bool, s: seq<Row<K, V>>): seq<Row<K, V>>
  {
    if s == [] then [] else Insert(before, s[0], OrderBy(before, s[1..]))
  }

  /** All rows after the cursor, in order. */
  function Scan<K, V>(
      table: seq<Row<K, V>>, keep: Row<K, V> -> bool, before: (K, K) -> bool, cursor: Option<K>): seq<Row<K, V>>
  {
    OrderBy(before, Where(table, keep, before, cursor))
  }

  function Limit<T>(s: seq<T>, n: nat): seq<T>
  {
    if |s| <= n then s else s[..n]
  }

  function FetchPage<K, V>(
      table: seq<Row<K, V>>, keep: Row<K, V> -> bool, before: (K, K) -> bool, limit: nat, cursor: Option<K>): Page<K, V>
  {
    var rows := Limit(Scan(table, keep, before, cursor), limit + 1);
    var page := Limit(rows, limit);
    Page(page, if |rows| > limit && page != [] then Some(page[|page| - 1].key) else None)
  }

  /** The primary key makes ordering keys distinct. */
  ghost predicate DistinctKeys<K, V>(table: seq<Row<K, V>>)
  {
    forall i, j :: 0 <= i < j < |table| ==> table[i].key != table[j].key
  }

  ghost predicate InOrder<K, V>(before: (K, K) -> bool, s: seq<Row<K, V>>)
  {
    forall i, j :: 0 <= i < j < |s| ==> before(s[i].key, s[j].key)
  }

  // ---------------------------------------------------------------------------------------------
  // What a scan returns
  // ---------------------------------------------------------------------------------------------

  lemma {:induction false} WhereHas<K, V>(
      table: seq<Row<K, V>>, keep: Row<K, V> -> bool, before: (K, K) -> bool, cursor: Option<K>, r: Row<K, V>)
    ensures r in Where(table, keep, before, cursor) <==> r in table && Wanted(keep, before, cursor, r)
    decreases |table|
  {
    if table != [] {
      WhereHas(table[1..], keep, before, cursor, r);
      assert table == [table[0]] + table[1..];
    }
  }

  lemma {:induction false} WhereIsDistinct<K, V>(
      table: seq<Row<K, V>>, keep: Row<K, V> -> bool, before: (K, K) -> bool, cursor: Option<K>)
    requires DistinctKeys(table)
    ensures DistinctKeys(Where(table, keep, before, cursor))
    decreases |table|
  {
    if table != [] {
      var rest := Where(table[1..], keep, before, cursor);
      assert forall i :: 0 <= i < |table[1..]| ==> table[1..][i] == table[i + 1];
      WhereIsDistinct(table[1..], keep, before, cursor);
      forall i | 0 <= i < |rest| ensures rest[i].key != table[0].key {
        WhereHas(table[1..], keep, before, cursor, rest[i]);
      }
    }
  }

  lemma {:induction false} InsertHas<K, V>(before: (K, K) -> bool, r: Row<K, V>, s: seq<Row<K, V>>, x: Row<K, V>)
    ensures x in Insert(before, r, s) <==> x == r || x in s
    decreases |s|
  {
    if s != [] && !before(r.key, s[0].key) {
      InsertHas(before, r, s[1..], x);
      assert s == [s[0]] + s[1..];
    }
  }

  lemma {:induction false} InsertInOrder<K(!new), V>(before: (K, K) -> bool, r: Row<K, V>, s: seq<Row<K, V>>)
    requires StrictTotalOrder(before) && InOrder(before, s)
    requires forall x :: x in s ==> x.key != r.key
    ensures InOrder(before, Insert(before, r, s))
    decreases |s|
  {
    if s != [] && !before(r.key, s[0].key) {
      assert s[0] in s;
      var rest := Insert(before, r, s[1..]);
      InsertInOrder(before, r, s[1..]);
      forall i | 0 <= i < |rest| ensures before(s[0].key, rest[i].key) {
        InsertHas(before, r, s[1..], rest[i]);
      }
    }
  }

  lemma {:induction false} OrderByHas<K, V>(before: (K, K) -> bool, s: seq<Row<K, V>>, x: Row<K, V>)
    ensures x in OrderBy(before, s) <==> x in s
    decreases |s|
  {
    if s != [] {
      OrderByHas(before, s[1..], x);
      InsertHas(before, s[0], OrderBy(before, s[1..]), x);
      assert s == [s[0]] + s[1..];
    }
  }

  lemma {:induction false} OrderByInOrder<K(!new), V>(before: (K, K) -> bool, s: seq<Row<K, V>>)
    requires StrictTotalOrder(before) && DistinctKeys(s)
    ensures InOrder(before, OrderBy(before, s))
    decreases |s|
  {
    if s != [] {
      assert forall i :: 0 <= i < |s[1..]| ==> s[1..][i] == s[i + 1];
      OrderByInOrder(before, s[1..]);
      forall x | x in OrderBy(before, s[1..]) ensures x.key != s[0].key {
        OrderByHas(before, s[1..], x);
      }
      InsertInOrder(before, s[0], OrderBy(before, s[1..]));
    }
  }

  /** A scan lists exactly the wanted rows, in strict order. */
  lemma ScanIsOrdered<K(!new), V>(
      table: seq<Row<K, V>>, keep: Row<K, V> -> bool, before: (K, K) -> bool, cursor: Option<K>)
    requires StrictTotalOrder(before) && DistinctKeys(table)
    ensures InOrder(before, Scan(table, keep, before, cursor))
  {
    WhereIsDistinct(table, keep, before, cursor);
    OrderByInOrder(before, Where(table, keep, before, cursor));
  }

  lemma ScanHas<K, V>(
      table: seq<Row<K, V>>, keep: Row<K, V> -> bool, before: (K, K) -> bool, cursor: Option<K>, r: Row<K, V>)
    ensures r in Scan(table, keep, before, cursor) <==> r in table && Wanted(keep, before, cursor, r)
  {
    WhereHas(table, keep, before, cursor, r);
    OrderByHas(before, Where(table, keep, before, cursor), r);
  }

  /** Strictly ordered lists with the same rows are the same list. */
  lemma {:induction false} OrderedListsAgree<K(!new), V>(before: (K, K) -> bool, a: seq<Row<K, V>>, b: seq<Row<K, V>>)
    requires StrictTotalOrder(before) && InOrder(before, a) && InOrder(before, b)
    requires forall r :: r in a <==> r in b
    ensures a == b
    decreases |a|
  {
    assert b != [] ==> b[0] in b;
    if a != [] {
      assert a[0] in a && a[0] in b;
      assert b[0] in a;
      FirstIsLeast(before, a, b[0]);
      FirstIsLeast(before, b, a[0]);
      assert a[0] == b[0];
      forall r ensures r in a[1..] <==> r in b[1..] {
        RestIsOthers(before, a, r);
        RestIsOthers(before, b, r);
      }
      OrderedListsAgree(before, a[1..], b[1..]);
    }
  }

  lemma FirstIsLeast<K, V>(before: (K, K) -> bool, s: seq<Row<K, V>>, r: Row<K, V>)
    requires InOrder(before, s) && r in s
    ensures r == s[0] || before(s[0].key, r.key)
  {
  }

  lemma RestIsOthers<K(!new), V>(before: (K, K) -> bool, s: seq<Row<K, V>>, r: Row<K, V>)
    requires StrictTotalOrder(before) && InOrder(before, s) && s != []
    ensures r in s[1..] <==> r in s && r != s[0]
  {
    assert s == [s[0]] + s[1..];
    if r in s[1..] {
      var i :| 0 <= i < |s[1..]| && s[1..][i] == r;
      assert before(s[0].key, s[i + 1].key);
    }
  }

  // ---------------------------------------------------------------------------------------------
  // Walking an unchanging table
  // ---------------------------------------------------------------------------------------------

  /** Scanning after the n-th row's key gives the rows after it. */
  lemma ScanAfter<K(!new), V>(
      table: seq<Row<K, V>>, keep: Row<K, V> -> bool, before: (K, K) -> bool, cursor: Option<K>, n: nat)
    requires StrictTotalOrder(before) && DistinctKeys(table)
    requires 0 < n <= |Scan(table, keep, before, cursor)|
    ensures var s := Scan(table, keep, before, cursor);
            Scan(table, keep, before, Some(s[n - 1].key)) == s[n..]
  {
    var s := Scan(table, keep, before, cursor);
    var next := Some(s[n - 1].key);
    var after := Scan(table, keep, before, next);
    ScanIsOrdered(table, keep, before, cursor);
    ScanIsOrdered(table, keep, before, next);
    forall r ensures r in after <==> r in s[n..] {
      ScanHas(table, keep, before, next, r);
      ScanHas(table, keep, before, cursor, r);
      ScanHas(table, keep, before, cursor, s[n - 1]);
      TailIsAfter(before, s, n, r);
    }
    OrderedListsAgree(before, after, s[n..]);
  }

  lemma TailIsAfter<K(!new), V>(before: (K, K) -> bool, s: seq<Row<K, V>>, n: nat, r: Row<K, V>)
    requires StrictTotalOrder(before) && InOrder(before, s) && 0 < n <= |s|
    ensures r in s[n..] <==> r in s && before(s[n - 1].key, r.key)
  {
    if r in s[n..] {
      var i :| 0 <= i < |s[n..]| && s[n..][i] == r;
      assert s[n + i] == r;
    }
    if r in s && before(s[n - 1].key, r.key) {
      var i :| 0 <= i < |s| && s[i] == r;
      assert i >= n;
      assert s[n..][i - n] == r;
    }
  }

  /** The extra row only says whether there is a next page. */
  lemma PageOfScan<K, V>(
      table: seq<Row<K, V>>, keep: Row<K, V> -> bool, before: (K, K) -> bool, limit: nat, cursor: Option<K>)
    requires limit > 0
    ensures var s, page := Scan(table, keep, before, cursor), FetchPage(table, keep, before, limit, cursor);
            && page.rows == Limit(s, limit)
            && page.next == if |s| > limit then Some(s[limit - 1].key) else None
  {
    var s := Scan(table, keep, before, cursor);
    if |s| > limit {
      assert Limit(s, limit + 1)[..limit] == s[..limit];
    }
  }

  /** Follow cursors until there is none. */
  ghost function Walk<K(!new), V>(
      table: seq<Row<K, V>>, keep: Row<K, V> -> bool, before: (K, K) -> bool, limit: nat, cursor: Option<K>): seq<Row<K, V>>
    requires StrictTotalOrder(before) && DistinctKeys(table) && limit > 0
    decreases |Scan(table, keep, before, cursor)|
  {
    var page := FetchPage(table, keep, before, limit, cursor);
    if page.next.None? then page.rows
    else
      PageOfScan(table, keep, before, limit, cursor);
      ScanAfter(table, keep, before, cursor, limit);
      page.rows + Walk(table, keep, before, limit, page.next)
  }

  /** On an unchanging table every walk ends, and its pages are the one full scan: no gap, no repeat. */
  lemma {:induction false} WalkIsScan<K(!new), V>(
      table: seq<Row<K, V>>, keep: Row<K, V> -> bool, before: (K, K) -> bool, limit: nat, cursor: Option<K>)
    requires StrictTotalOrder(before) && DistinctKeys(table) && limit > 0
    ensures Walk(table, keep, before, limit, cursor) == Scan(table, keep, before, cursor)
    decreases |Scan(table, keep, before, cursor)|
  {
    var s := Scan(table, keep, before, cursor);
    PageOfScan(table, keep, before, limit, cursor);
    if |s| > limit {
      ScanAfter(table, keep, before, cursor, limit);
      WalkIsScan(table, keep, before, limit, Some(s[limit - 1].key));
      assert s == s[..limit] + s[limit..];
    }
  }

  // ---------------------------------------------------------------------------------------------
  // Walking while the table changes
  // ---------------------------------------------------------------------------------------------

  /** Page i is fetched from the table as it then is; the walk is over at the first page without a cursor. */
  ghost predicate Completes<K, V>(
      tables: seq<seq<Row<K, V>>>, keep: Row<K, V> -> bool, before: (K, K) -> bool, limit: nat, cursor: Option<K>)
    decreases |tables|
  {
    && tables != []
    && var page := FetchPage(tables[0], keep, before, limit, cursor);
       if page.next.None? then |tables| == 1 else Completes(tables[1..], keep, before, limit, page.next)
  }

  function Collected<K, V>(
      tables: seq<seq<Row<K, V>>>, keep: Row<K, V> -> bool, before: (K, K) -> bool, limit: nat, cursor: Option<K>)
    : seq<Row<K, V>>
    decreases |tables|
  {
    if tables == [] then []
    else
      var page := FetchPage(tables[0], keep, before, limit, cursor);
      if page.next.None? then page.rows else page.rows + Collected(tables[1..], keep, before, limit, page.next)
  }

  lemma PageIsOrdered<K(!new), V>(
      table: seq<Row<K, V>>, keep: Row<K, V> -> bool, before: (K, K) -> bool, limit: nat, cursor: Option<K>)
    requires StrictTotalOrder(before) && DistinctKeys(table)
    ensures var page := FetchPage(table, keep, before, limit, cursor);
            && InOrder(before, page.rows)
            && (forall r :: r in page.rows ==> r in table && Wanted(keep, before, cursor, r))
            && (page.next.Some? ==> forall r :: r in page.rows ==> r.key == page.next.value || before(r.key, page.next.value))
  {
    ScanIsOrdered(table, keep, before, cursor);
    var page, s := FetchPage(table, keep, before, limit, cursor), Scan(table, keep, before, cursor);
    forall r | r in page.rows ensures r in table && Wanted(keep, before, cursor, r) {
      assert r in s;
      ScanHas(table, keep, before, cursor, r);
    }
  }

  lemma PagesStayInOrder<K(!new), V>(before: (K, K) -> bool, a: seq<Row<K, V>>, b: seq<Row<K, V>>, key: K)
    requires StrictTotalOrder(before) && InOrder(before, a) && InOrder(before, b)
    requires forall r :: r in a ==> r.key == key || before(r.key, key)
    requires forall r :: r in b ==> before(key, r.key)
    ensures InOrder(before, a + b)
  {
    forall i, j | 0 <= i < j < |a + b| ensures before((a + b)[i].key, (a + b)[j].key) {
      if i < |a| <= j {
        assert a[i] in a && b[j - |a|] in b;
      }
    }
  }

  /** However the table changes between pages, the pages are in strict order, so no key is repeated. */
  lemma {:induction false} CollectedInOrder<K(!new), V>(
      tables: seq<seq<Row<K, V>>>, keep: Row<K, V> -> bool, before: (K, K) -> bool, limit: nat, cursor: Option<K>)
    requires StrictTotalOrder(before) && forall t :: t in tables ==> DistinctKeys(t)
    ensures InOrder(before, Collected(tables, keep, before, limit, cursor))
    ensures forall r :: r in Collected(tables, keep, before, limit, cursor) ==> Wanted(keep, before, cursor, r)
    decreases |tables|
  {
    if tables != [] {
      var page := FetchPage(tables[0], keep, before, limit, cursor);
      PageIsOrdered(tables[0], keep, before, limit, cursor);
      if page.next.Some? {
        var rest := Collected(tables[1..], keep, before, limit, page.next);
        CollectedInOrder(tables[1..], keep, before, limit, page.next);
        PagesStayInOrder(before, page.rows, rest, page.next.value);
        assert exists r :: r in page.rows && r.key == page.next.value by {
          assert page.rows[|page.rows| - 1] in page.rows;
        }
      }
    }
  }

  /** A row that is wanted is on this page or after the page's cursor. */
  lemma OnPageOrAfter<K(!new), V>(
      table: seq<Row<K, V>>, keep: Row<K, V> -> bool, before: (K, K) -> bool, limit: nat, cursor: Option<K>, r: Row<K, V>)
    requires StrictTotalOrder(before) && DistinctKeys(table)
    requires r in table && Wanted(keep, before, cursor, r)
    ensures var page := FetchPage(table, keep, before, limit, cursor);
            limit > 0 ==> r in page.rows || (page.next.Some? && before(page.next.value, r.key))
  {
    var s := Scan(table, keep, before, cursor);
    ScanIsOrdered(table, keep, before, cursor);
    ScanHas(table, keep, before, cursor, r);
    var i :| 0 <= i < |s| && s[i] == r;
    if limit > 0 && i >= limit {
      assert before(s[limit - 1].key, s[i].key);
    }
  }

  lemma {:induction false} UnchangedRowIsCollected<K(!new), V>(
      tables: seq<seq<Row<K, V>>>, keep: Row<K, V> -> bool, before: (K, K) -> bool, limit: nat, cursor: Option<K>,
      r: Row<K, V>)
    requires StrictTotalOrder(before) && (forall t :: t in tables ==> DistinctKeys(t)) && limit > 0
    requires Completes(tables, keep, before, limit, cursor)
    requires (forall t :: t in tables ==> r in t) && Wanted(keep, before, cursor, r)
    ensures r in Collected(tables, keep, before, limit, cursor)
    decreases |tables|
  {
    var page := FetchPage(tables[0], keep, before, limit, cursor);
    OnPageOrAfter(tables[0], keep, before, limit, cursor, r);
    if page.next.Some? && r !in page.rows {
      UnchangedRowIsCollected(tables[1..], keep, before, limit, page.next, r);
    }
  }

  /** A row that stays unchanged while a walk completes is returned exactly once, whatever is inserted,
      updated or deleted around it between the pages. */
  lemma UnchangedRowExactlyOnce<K(!new), V>(
      tables: seq<seq<Row<K, V>>>, keep: Row<K, V> -> bool, before: (K, K) -> bool, limit: nat, r: Row<K, V>)
    requires StrictTotalOrder(before) && (forall t :: t in tables ==> DistinctKeys(t)) && limit > 0
    requires Completes(tables, keep, before, limit, None)
    requires (forall t :: t in tables ==> r in t) && keep(r)
    ensures var all := Collected(tables, keep, before, limit, None);
            exists i :: 0 <= i < |all| && all[i] == r && forall j :: 0 <= j < |all| && all[j].key == r.key ==> j == i
  {
    var all := Collected(tables, keep, before, limit, None);
    UnchangedRowIsCollected(tables, keep, before, limit, None, r);
    CollectedInOrder(tables, keep, before, limit, None);
    var i :| 0 <= i < |all| && all[i] == r;
    forall j | 0 <= j < |all| && all[j].key == r.key ensures j == i {
      SameKeySamePlace(before, all, i, j);
    }
  }

  lemma SameKeySamePlace<K(!new), V>(before: (K, K) -> bool, s: seq<Row<K, V>>, i: nat, j: nat)
    requires StrictTotalOrder(before) && InOrder(before, s)
    requires i < |s| && j < |s| && s[i].key == s[j].key
    ensures i == j
  {
  }

  // ---------------------------------------------------------------------------------------------
  // The keys in use
  // ---------------------------------------------------------------------------------------------

  /** ORDER BY stamp DESC, id DESC with `stamp < ? OR (stamp = ? AND id < ?)` as the cursor clause. */
  predicate NewestFirst<A(==), B>(
      stampLess: (A, A) -> bool, idLess: (B, B) -> bool, a: (A, B), b: (A, B))
  {
    stampLess(b.0, a.0) || (b.0 == a.0 && idLess(b.1, a.1))
  }

  /** The paired key orders rows strictly and totally, so the theorems above apply to every list. */
  lemma NewestFirstIsStrictTotal<A(!new), B(!new)>(stampLess: (A, A) -> bool, idLess: (B, B) -> bool)
    requires StrictTotalOrder(stampLess) && StrictTotalOrder(idLess)
    ensures StrictTotalOrder((a: (A, B), b: (A, B)) => NewestFirst(stampLess, idLess, a, b))
  {
    forall a: (A, B), b: (A, B) | a != b
      ensures NewestFirst(stampLess, idLess, a, b) || NewestFirst(stampLess, idLess, b, a)
    {
      if a.0 == b.0 {
        assert a.1 != b.1;
      }
    }
    forall a: (A, B), b: (A, B), c: (A, B) | NewestFirst(stampLess, idLess, a, b) && NewestFirst(stampLess, idLess, b, c)
      ensures NewestFirst(stampLess, idLess, a, c)
    {
    }
  }
}
