/**
 * What the two GetAll queries ask of the database, over an in-memory table:
 *
 *   SELECT COUNT(*) OVER(), ... FROM t WHERE <filter>
 *   ORDER BY <column> <direction>, id ASC LIMIT <limit> OFFSET <offset>
 *
 * and the Go loop that scans the returned rows. The window function is
 * evaluated before LIMIT/OFFSET, so every returned row carries the number of
 * rows that matched the filter.
 */
module Listing {

  import opened Wrappers
  import opened Text
  import opened Filters

  /** The value a row holds in the sort column. One column always yields one kind. */
  datatype SortValue = IntKey(i: int) | RealKey(r: real) | TextKey(t: Bytes)

  function KindRank(v: SortValue): nat
  {
    match v
    case IntKey(_) => 0
    case RealKey(_) => 1
    case TextKey(_) => 2
  }

  /** Strict order on column values: numbers numerically, text byte-wise. */
  predicate KeyLess(a: SortValue, b: SortValue)
  {
    match (a, b)
    case (IntKey(x), IntKey(y)) => x < y
    case (RealKey(x), RealKey(y)) => x < y
    case (TextKey(x), TextKey(y)) => BytesLess(x, y)
    case _ => KindRank(a) < KindRank(b)
  }

  lemma KeyLessIrreflexive(a: SortValue)
    ensures !KeyLess(a, a)
  {
    if a.TextKey? {
      BytesLessIrreflexive(a.t);
    }
  }

  lemma KeyLessTransitive(a: SortValue, b: SortValue, c: SortValue)
    requires KeyLess(a, b) && KeyLess(b, c)
    ensures KeyLess(a, c)
  {
    if a.TextKey? && b.TextKey? && c.TextKey? {
      BytesLessTransitive(a.t, b.t, c.t);
    }
  }

  lemma KeyLessTrichotomy(a: SortValue, b: SortValue)
    ensures a == b || KeyLess(a, b) || KeyLess(b, a)
  {
    if a.TextKey? && b.TextKey? {
      BytesLessTrichotomy(a.t, b.t);
    }
  }

  /** ORDER BY <column> <direction>, id ASC, for rows of type T. */
  datatype Ordering<!T> = Ordering(key: T -> SortValue, id: T -> int, descending: bool)

  /** The column order in the chosen direction. */
  predicate KeyPrecedes<T>(ord: Ordering<T>, x: SortValue, y: SortValue)
  {
    if ord.descending then KeyLess(y, x) else KeyLess(x, y)
  }

  /** `a` comes strictly before `b` in the ordering. */
  predicate Before<T>(ord: Ordering<T>, a: T, b: T)
    ensures ord.key(a) == ord.key(b) ==> (Before(ord, a, b) <==> ord.id(a) < ord.id(b))
    ensures ord.key(a) == ord.key(b) && ord.id(a) == ord.id(b) ==> !Before(ord, a, b)
    ensures Before(ord, a, b) && ord.key(a) != ord.key(b) ==> !KeyPrecedes(ord, ord.key(b), ord.key(a))
  {
    KeyPrecedesIsStrictTotal(ord, ord.key(a), ord.key(b), ord.key(a));
    KeyPrecedesIsStrictTotal(ord, ord.key(b), ord.key(a), ord.key(b));
    if ord.key(a) == ord.key(b) then ord.id(a) < ord.id(b)
    else KeyPrecedes(ord, ord.key(a), ord.key(b))
  }

  lemma KeyPrecedesIsStrictTotal<T>(ord: Ordering<T>, x: SortValue, y: SortValue, z: SortValue)
    ensures !KeyPrecedes(ord, x, x)
    ensures KeyPrecedes(ord, x, y) && KeyPrecedes(ord, y, z) ==> KeyPrecedes(ord, x, z)
    ensures x == y || KeyPrecedes(ord, x, y) || KeyPrecedes(ord, y, x)
  {
    KeyLessIrreflexive(x);
    KeyLessTrichotomy(x, y);
    if KeyPrecedes(ord, x, y) && KeyPrecedes(ord, y, z) {
      if ord.descending {
        KeyLessTransitive(z, y, x);
      } else {
        KeyLessTransitive(x, y, z);
      }
    }
  }

  lemma BeforeTransitive<T>(ord: Ordering<T>, a: T, b: T, c: T)
    requires Before(ord, a, b) && Before(ord, b, c)
    ensures Before(ord, a, c)
  {
    var ka, kb, kc := ord.key(a), ord.key(b), ord.key(c);
    KeyPrecedesIsStrictTotal(ord, ka, kb, kc);
    KeyPrecedesIsStrictTotal(ord, kc, ka, kb);
    KeyPrecedesIsStrictTotal(ord, kb, kc, ka);
  }

  /** Any two rows are ordered one way or the other unless they agree on key and id. */
  lemma BeforeTotal<T>(ord: Ordering<T>, a: T, b: T)
    ensures (ord.key(a) == ord.key(b) && ord.id(a) == ord.id(b)) || Before(ord, a, b) || Before(ord, b, a)
  {
    KeyPrecedesIsStrictTotal(ord, ord.key(a), ord.key(b), ord.key(a));
  }

  lemma BeforeAsymmetric<T>(ord: Ordering<T>, a: T, b: T)
    requires Before(ord, a, b)
    ensures !Before(ord, b, a)
  {
    if Before(ord, b, a) {
      BeforeTransitive(ord, a, b, a);
      KeyPrecedesIsStrictTotal(ord, ord.key(a), ord.key(a), ord.key(a));
    }
  }

  /** "Not after" is transitive: the ordering is a strict weak order. */
  lemma NotBeforeTransitive<T>(ord: Ordering<T>, a: T, b: T, c: T)
    requires !Before(ord, b, a) && !Before(ord, c, b)
    ensures !Before(ord, c, a)
  {
    if Before(ord, c, a) {
      BeforeTotal(ord, a, b);
      if Before(ord, a, b) {
        BeforeTransitive(ord, c, a, b);
      }
    }
  }

  /** No row is followed by one that comes strictly before it. */
  predicate Sorted<T>(ord: Ordering<T>, s: seq<T>)
  {
    forall i, j :: 0 <= i < j < |s| ==> !Before(ord, s[j], s[i])
  }

  /** Places `x` ahead of the first row it does not come after. */
  function Insert<T>(ord: Ordering<T>, x: T, s: seq<T>): (r: seq<T>)
    ensures |r| == |s| + 1
  {
    if s == [] then [x]
    else if Before(ord, s[0], x) then [s[0]] + Insert(ord, x, s[1..])
    else [x] + s
  }

  /** The rows in the order ORDER BY puts them in. */
  function SortRows<T>(ord: Ordering<T>, s: seq<T>): (r: seq<T>)
    ensures |r| == |s|
  {
    if s == [] then [] else Insert(ord, s[0], SortRows(ord, s[1..]))
  }

  lemma {:induction false} InsertPermutes<T>(ord: Ordering<T>, x: T, s: seq<T>)
    ensures multiset(Insert(ord, x, s)) == multiset(s) + multiset{x}
  {
    if s != [] && Before(ord, s[0], x) {
      InsertPermutes(ord, x, s[1..]);
      assert s == [s[0]] + s[1..];
    }
  }

  lemma {:induction false} SortPermutes<T>(ord: Ordering<T>, s: seq<T>)
    ensures multiset(SortRows(ord, s)) == multiset(s)
  {
    if s != [] {
      SortPermutes(ord, s[1..]);
      InsertPermutes(ord, s[0], SortRows(ord, s[1..]));
      assert s == [s[0]] + s[1..];
    }
  }

  lemma {:induction false} InsertSorted<T>(ord: Ordering<T>, x: T, s: seq<T>)
    requires Sorted(ord, s)
    ensures Sorted(ord, Insert(ord, x, s))
  {
    if s == [] {
    } else if Before(ord, s[0], x) {
      SortedTail(ord, s);
      InsertSorted(ord, x, s[1..]);
      HeadStaysFirst(ord, x, s);
      ConsSorted(ord, s[0], Insert(ord, x, s[1..]));
    } else {
      forall j | 0 <= j < |s|
        ensures !Before(ord, s[j], x)
      {
        if j > 0 {
          NotBeforeTransitive(ord, x, s[0], s[j]);
        }
      }
      ConsSorted(ord, x, s);
    }
  }

  /** A row that comes before `x` stays ahead of everything `x` is inserted among. */
  lemma HeadStaysFirst<T>(ord: Ordering<T>, x: T, s: seq<T>)
    requires Sorted(ord, s) && s != [] && Before(ord, s[0], x)
    ensures forall j :: 0 <= j < |Insert(ord, x, s[1..])| ==> !Before(ord, Insert(ord, x, s[1..])[j], s[0])
  {
    var t := Insert(ord, x, s[1..]);
    InsertPermutes(ord, x, s[1..]);
    BeforeAsymmetric(ord, s[0], x);
    forall j | 0 <= j < |t|
      ensures !Before(ord, t[j], s[0])
    {
      assert t[j] in multiset(t);
      if t[j] != x {
        assert t[j] in multiset(s[1..]);
        var k :| 0 <= k < |s[1..]| && s[1..][k] == t[j];
        assert s[k + 1] == t[j];
      }
    }
  }

  /** A sorted sequence stays sorted behind a row that nothing in it precedes. */
  lemma ConsSorted<T>(ord: Ordering<T>, h: T, t: seq<T>)
    requires Sorted(ord, t)
    requires forall j :: 0 <= j < |t| ==> !Before(ord, t[j], h)
    ensures Sorted(ord, [h] + t)
  {
    var r := [h] + t;
    forall i, j | 0 <= i < j < |r|
      ensures !Before(ord, r[j], r[i])
    {
      if i > 0 {
        assert r[i] == t[i - 1] && r[j] == t[j - 1];
      } else {
        assert r[j] == t[j - 1];
      }
    }
  }

  lemma {:induction false} SortSorted<T>(ord: Ordering<T>, s: seq<T>)
    ensures Sorted(ord, SortRows(ord, s))
  {
    if s != [] {
      SortSorted(ord, s[1..]);
      InsertSorted(ord, s[0], SortRows(ord, s[1..]));
    }
  }

  /** Ids do not repeat among the rows, as for a table keyed by id. */
  predicate DistinctIds<T>(ord: Ordering<T>, s: seq<T>)
  {
    forall i, j :: 0 <= i < j < |s| ==> ord.id(s[i]) != ord.id(s[j])
  }

  /**
   * The id tie-break makes the order total: two sorted arrangements of the same
   * rows with distinct ids are the same sequence, so every page is determined.
   */
  lemma {:induction false} SortedArrangementUnique<T>(ord: Ordering<T>, a: seq<T>, b: seq<T>)
    requires Sorted(ord, a) && Sorted(ord, b)
    requires multiset(a) == multiset(b) && DistinctIds(ord, a)
    ensures a == b
    decreases |a|
  {
    assert |a| == |multiset(a)| == |multiset(b)| == |b|;
    if a != [] {
      SameHead(ord, a, b);
      TailMultiset(a, b);
      SortedTail(ord, a);
      SortedTail(ord, b);
      assert DistinctIds(ord, a[1..]) by {
        forall i, j | 0 <= i < j < |a[1..]|
          ensures ord.id(a[1..][i]) != ord.id(a[1..][j])
        {
          assert a[1..][i] == a[i + 1] && a[1..][j] == a[j + 1];
        }
      }
      SortedArrangementUnique(ord, a[1..], b[1..]);
      assert a == [a[0]] + a[1..] && b == [b[0]] + b[1..];
    }
  }

  lemma SameHead<T>(ord: Ordering<T>, a: seq<T>, b: seq<T>)
    requires Sorted(ord, a) && Sorted(ord, b) && a != [] && b != []
    requires multiset(a) == multiset(b) && DistinctIds(ord, a)
    ensures a[0] == b[0]
  {
    assert a[0] in multiset(b) && b[0] in multiset(a);
    var k :| 0 <= k < |b| && b[k] == a[0];
    var m :| 0 <= m < |a| && a[m] == b[0];
    assert !Before(ord, b[0], a[0]) by {
      assert 0 < m ==> !Before(ord, a[m], a[0]);
    }
    assert !Before(ord, a[0], b[0]) by {
      assert 0 < k ==> !Before(ord, b[k], b[0]);
    }
    BeforeTotal(ord, a[0], b[0]);
    assert ord.id(a[m]) == ord.id(a[0]);
  }

  lemma TailMultiset<T>(a: seq<T>, b: seq<T>)
    requires a != [] && b != [] && a[0] == b[0] && multiset(a) == multiset(b)
    ensures multiset(a[1..]) == multiset(b[1..])
  {
    assert a == [a[0]] + a[1..] && b == [b[0]] + b[1..];
    assert multiset(a[1..]) == multiset(a) - multiset{a[0]};
    assert multiset(b[1..]) == multiset(b) - multiset{a[0]};
  }

  lemma SortedTail<T>(ord: Ordering<T>, s: seq<T>)
    requires Sorted(ord, s) && s != []
    ensures Sorted(ord, s[1..])
  {
    forall i, j | 0 <= i < j < |s[1..]|
      ensures !Before(ord, s[1..][j], s[1..][i])
    {
      assert s[1..][i] == s[i + 1] && s[1..][j] == s[j + 1];
    }
  }

  /** WHERE: the rows of `table` that satisfy `where`, in table order. */
  function Filter<T>(table: seq<T>, where: T -> bool): (r: seq<T>)
    ensures forall i :: 0 <= i < |r| ==> r[i] in table && where(r[i])
    ensures forall i :: 0 <= i < |table| && where(table[i]) ==> table[i] in r
    ensures |r| <= |table|
  {
    if table == [] then []
    else if where(table[0]) then [table[0]] + Filter(table[1..], where)
    else Filter(table[1..], where)
  }

  /** A filter every row passes leaves the table as it is. */
  lemma {:induction false} FilterAll<T>(table: seq<T>, where: T -> bool)
    requires forall i :: 0 <= i < |table| ==> where(table[i])
    ensures Filter(table, where) == table
  {
    if table != [] {
      FilterAll(table[1..], where);
    }
  }

  /** The filter drops no row exactly when every row passes it. */
  lemma {:induction false} FilterDropsNothingIff<T>(table: seq<T>, where: T -> bool)
    ensures |Filter(table, where)| == |table| <==> forall i :: 0 <= i < |table| ==> where(table[i])
  {
    if table != [] {
      FilterDropsNothingIff(table[1..], where);
      assert forall i :: 1 <= i < |table| ==> table[1..][i - 1] == table[i];
    }
  }

  /** A filter that rejects exactly one row drops exactly one row. */
  lemma {:induction false} FilterDropsOne<T>(table: seq<T>, where: T -> bool, k: int)
    requires 0 <= k < |table| && !where(table[k])
    requires forall j :: 0 <= j < |table| && j != k ==> where(table[j])
    ensures |Filter(table, where)| == |table| - 1
  {
    if k == 0 {
      FilterAll(table[1..], where);
    } else {
      FilterDropsOne(table[1..], where, k - 1);
    }
  }

  /** The first position whose row satisfies `p`. */
  function FindIndex<T>(s: seq<T>, p: T -> bool): (r: Option<nat>)
    ensures r.Some? ==> r.value < |s| && p(s[r.value]) && forall j :: 0 <= j < r.value ==> !p(s[j])
    ensures r.None? ==> forall j :: 0 <= j < |s| ==> !p(s[j])
  {
    if s == [] then None
    else if p(s[0]) then Some(0)
    else match FindIndex(s[1..], p)
      case None => None
      case Some(k) => Some(k + 1)
  }

  /** `id` is the table's primary key: positive, distinct, below the next serial value. */
  predicate KeyedBy<T>(rows: seq<T>, id: T -> int, nextID: int)
  {
    && nextID >= 1
    && (forall i :: 0 <= i < |rows| ==> 1 <= id(rows[i]) < nextID)
    && (forall i, j :: 0 <= i < j < |rows| ==> id(rows[i]) != id(rows[j]))
  }

  /** In a table keyed by `id`, at most one row satisfies `where`. */
  predicate SelectsAtMostOne<T>(rows: seq<T>, id: T -> int, nextID: int, where: T -> bool)
  {
    KeyedBy(rows, id, nextID) ==>
      forall i, j :: 0 <= i < |rows| && 0 <= j < |rows| && where(rows[i]) && where(rows[j]) ==> i == j
  }

  /** Deleting rows keeps the primary key intact. */
  lemma {:induction false} FilterKeepsKeys<T>(rows: seq<T>, id: T -> int, nextID: int, keep: T -> bool)
    requires KeyedBy(rows, id, nextID)
    ensures KeyedBy(Filter(rows, keep), id, nextID)
  {
    if rows != [] {
      TailKeepsKeys(rows, id, nextID);
      FilterKeepsKeys(rows[1..], id, nextID, keep);
      HeadIdUnused(rows, id, nextID, Filter(rows[1..], keep));
      if keep(rows[0]) {
        ConsKeepsKeys(rows[0], Filter(rows[1..], keep), id, nextID);
      }
    }
  }

  lemma TailKeepsKeys<T>(rows: seq<T>, id: T -> int, nextID: int)
    requires KeyedBy(rows, id, nextID) && rows != []
    ensures KeyedBy(rows[1..], id, nextID)
  {
    var tail := rows[1..];
    forall i, j | 0 <= i < j < |tail|
      ensures id(tail[i]) != id(tail[j])
    {
      assert tail[i] == rows[i + 1] && tail[j] == rows[j + 1];
    }
  }

  lemma HeadIdUnused<T>(rows: seq<T>, id: T -> int, nextID: int, rest: seq<T>)
    requires KeyedBy(rows, id, nextID) && rows != []
    requires forall i :: 0 <= i < |rest| ==> rest[i] in rows[1..]
    ensures forall i :: 0 <= i < |rest| ==> id(rest[i]) != id(rows[0])
  {
    forall i | 0 <= i < |rest|
      ensures id(rest[i]) != id(rows[0])
    {
      var k :| 0 <= k < |rows[1..]| && rows[1..][k] == rest[i];
      assert rows[k + 1] == rest[i];
    }
  }

  lemma ConsKeepsKeys<T>(head: T, rest: seq<T>, id: T -> int, nextID: int)
    requires KeyedBy(rest, id, nextID) && 1 <= id(head) < nextID
    requires forall i :: 0 <= i < |rest| ==> id(rest[i]) != id(head)
    ensures KeyedBy([head] + rest, id, nextID)
  {
    var r := [head] + rest;
    forall i, j | 0 <= i < j < |r|
      ensures id(r[i]) != id(r[j])
    {
      assert r[j] == rest[j - 1];
    }
  }

  /**
   * A lookup whose condition pins the key finds the one stored row that
   * meets it: the first match is that row.
   */
  lemma LocateByKey<T>(rows: seq<T>, id: T -> int, nextID: int, where: T -> bool, i: int)
    requires KeyedBy(rows, id, nextID) && 0 <= i < |rows| && where(rows[i])
    requires forall j :: 0 <= j < |rows| && where(rows[j]) ==> id(rows[j]) == id(rows[i])
    ensures FindIndex(rows, where) == Some(i)
  {
    var k := FindIndex(rows, where);
    assert k.Some? && k.value <= i;
    assert id(rows[k.value]) == id(rows[i]);
  }

  /** A stored row that meets a key-pinning condition is the row the lookup finds. */
  lemma LocateStoredRow<T>(rows: seq<T>, id: T -> int, nextID: int, where: T -> bool, x: T)
    requires KeyedBy(rows, id, nextID) && x in rows && where(x)
    requires forall j :: 0 <= j < |rows| && where(rows[j]) ==> id(rows[j]) == id(x)
    ensures FindIndex(rows, where).Some? && rows[FindIndex(rows, where).value] == x
  {
    var i :| 0 <= i < |rows| && rows[i] == x;
    LocateByKey(rows, id, nextID, where, i);
  }

  function Min(a: int, b: int): int
  {
    if a < b then a else b
  }

  /** LIMIT limit OFFSET offset. */
  function Window<T>(s: seq<T>, limit: nat, offset: nat): (w: seq<T>)
    ensures |w| == if offset >= |s| then 0 else Min(limit, |s| - offset)
    ensures forall i :: 0 <= i < |w| ==> offset + i < |s| && w[i] == s[offset + i]
  {
    if offset >= |s| then [] else s[offset..Min(offset + limit, |s|)]
  }

  /** Two consecutive windows of the same size make one window of twice the size. */
  lemma ConsecutiveWindows<T>(s: seq<T>, limit: nat, offset: nat)
    ensures Window(s, limit, offset) + Window(s, limit, offset + limit) == Window(s, 2 * limit, offset)
  {
  }

  /**
   * The rows the database returns: the filtered rows in ORDER BY order, cut by
   * LIMIT/OFFSET, each paired with COUNT(*) OVER() of the filtered rows.
   */
  function ResultSet<T>(table: seq<T>, where: T -> bool, ord: Ordering<T>, limit: nat, offset: nat): (rs: seq<(int, T)>)
    ensures |rs| <= limit
    ensures forall i :: 0 <= i < |rs| ==> rs[i].0 == |Filter(table, where)|
  {
    var matches := Filter(table, where);
    var rows := Window(SortRows(ord, matches), limit, offset);
    seq(|rows|, i requires 0 <= i < |rows| => (|matches|, rows[i]))
  }

  /** A page of rows with the metadata the handlers send along. */
  datatype Page<T> = Page(items: seq<T>, metadata: Metadata)

  /**
   * What GetAll returns for a validated-enough filter: the window of the sorted
   * matches and the metadata computed from the count the scanned rows carry
   * (none when the window is empty).
   */
  function Select<T>(table: seq<T>, where: T -> bool, ord: Ordering<T>, f: Filters): (p: Page<T>)
    requires f.pageSize >= 0 && Offset(f) >= 0
    ensures |p.items| <= f.pageSize
    ensures p.items == [] <==> Offset(f) >= |Filter(table, where)| || f.pageSize == 0
    ensures p.items == [] ==> p.metadata == EmptyMetadata
  {
    var matches := Filter(table, where);
    var items := Window(SortRows(ord, matches), f.pageSize, Offset(f));
    Page(items, if items == [] then EmptyMetadata else CalculateMetadata(|matches|, f.page, f.pageSize))
  }

  /** Every listed row is a row of the table that passes the filter. */
  lemma SelectOnlyMatches<T>(table: seq<T>, where: T -> bool, ord: Ordering<T>, f: Filters)
    requires f.pageSize >= 0 && Offset(f) >= 0
    ensures forall x :: x in Select(table, where, ord, f).items ==> x in table && where(x)
  {
    var matches := Filter(table, where);
    var sorted := SortRows(ord, matches);
    SortPermutes(ord, matches);
    forall x | x in Select(table, where, ord, f).items
      ensures x in table && where(x)
    {
      assert x in multiset(sorted);
    }
  }

  /** A page lists at most page_size rows, in ORDER BY order. */
  lemma SelectSortedAndBounded<T>(table: seq<T>, where: T -> bool, ord: Ordering<T>, f: Filters)
    requires f.pageSize >= 0 && Offset(f) >= 0
    ensures |Select(table, where, ord, f).items| <= f.pageSize
    ensures Sorted(ord, Select(table, where, ord, f).items)
  {
    var sorted := SortRows(ord, Filter(table, where));
    SortSorted(ord, Filter(table, where));
    var items := Select(table, where, ord, f).items;
    forall i, j | 0 <= i < j < |items|
      ensures !Before(ord, items[j], items[i])
    {
      assert items[i] == sorted[Offset(f) + i] && items[j] == sorted[Offset(f) + j];
    }
  }

  /**
   * A page past the last match lists nothing and carries empty metadata,
   * however many rows matched.
   */
  lemma SelectPastEnd<T>(table: seq<T>, where: T -> bool, ord: Ordering<T>, f: Filters)
    requires f.pageSize >= 0 && Offset(f) >= 0
    requires Offset(f) >= |Filter(table, where)|
    ensures Select(table, where, ord, f) == Page([], EmptyMetadata)
  {
  }

  /** A page that lists rows reports the total number of matches and the page count. */
  lemma SelectMetadata<T>(table: seq<T>, where: T -> bool, ord: Ordering<T>, f: Filters)
    requires f.pageSize >= 0 && Offset(f) >= 0
    requires Select(table, where, ord, f).items != []
    ensures var m := Select(table, where, ord, f).metadata;
      var total := |Filter(table, where)|;
      && m.totalRecords == total && m.currentPage == f.page && m.pageSize == f.pageSize
      && m.firstPage == 1 && (m.lastPage - 1) * f.pageSize < total <= m.lastPage * f.pageSize
  {
  }

  /**
   * The loop of GetAll: appends every scanned row and overwrites the running
   * total with each row's COUNT(*) OVER() column, then computes the metadata.
   */
  method ScanRows<T>(resultSet: seq<(int, T)>, page: int, pageSize: int) returns (items: seq<T>, metadata: Metadata)
    requires resultSet == [] || pageSize != 0
    ensures |items| == |resultSet| && forall i :: 0 <= i < |items| ==> items[i] == resultSet[i].1
    ensures resultSet == [] ==> metadata == EmptyMetadata
    ensures resultSet != [] ==> metadata == CalculateMetadata(resultSet[|resultSet| - 1].0, page, pageSize)
  {
    var totalRecords := 0;
    items := [];
    for i := 0 to |resultSet|
      invariant |items| == i && forall k :: 0 <= k < i ==> items[k] == resultSet[k].1
      invariant totalRecords == if i == 0 then 0 else resultSet[i - 1].0
    {
      totalRecords := resultSet[i].0;
      items := items + [resultSet[i].1];
    }
    metadata := CalculateMetadata(totalRecords, page, pageSize);
  }

  /** Scanning the result set of the query gives exactly the selected page. */
  lemma ScanOfResultSet<T>(table: seq<T>, where: T -> bool, ord: Ordering<T>, f: Filters, items: seq<T>, metadata: Metadata)
    requires f.pageSize >= 0 && Offset(f) >= 0
    requires var rs := ResultSet(table, where, ord, f.pageSize, Offset(f));
      && |items| == |rs| && (forall i :: 0 <= i < |items| ==> items[i] == rs[i].1)
      && (rs == [] ==> metadata == EmptyMetadata)
      && (rs != [] ==> f.pageSize != 0 && metadata == CalculateMetadata(rs[|rs| - 1].0, f.page, f.pageSize))
    ensures Page(items, metadata) == Select(table, where, ord, f)
  {
  }
}
