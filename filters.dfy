/**
 * Pagination, sorting and filter validation of the data layer
 * (internal/data/filters.go).
 */
module Filters {

  import opened Wrappers
  import opened Validator

  datatype Filters = Filters(page: int, pageSize: int, sort: string, sortSafeList: seq<string>)

  /** Pagination metadata; the all-zero value is what JSON omits entirely. */
  datatype Metadata = Metadata(currentPage: int, pageSize: int, firstPage: int, lastPage: int, totalRecords: int)

  const EmptyMetadata := Metadata(0, 0, 0, 0, 0)

  const MaxPage := 500
  const MaxPageSize := 100

  /** What ValidateFilters accepts, stated on its own. */
  predicate ValidFilters(f: Filters)
  {
    && 1 <= f.page <= MaxPage
    && 1 <= f.pageSize <= MaxPageSize
    && f.sort in f.sortSafeList
  }

  /** Runs the five filter checks on top of the errors already in `v`. */
  function ValidateFilters(v: Errors, f: Filters): (r: Errors)
    ensures v <= r <= v + {"page", "page_size", "sort"}
    ensures "page" in r <==> "page" in v || !(1 <= f.page <= MaxPage)
    ensures "page_size" in r <==> "page_size" in v || !(1 <= f.pageSize <= MaxPageSize)
    ensures "sort" in r <==> "sort" in v || f.sort !in f.sortSafeList
    ensures r == {} <==> v == {} && ValidFilters(f)
  {
    var v := Check(v, f.page > 0, "page");
    var v := Check(v, f.page <= MaxPage, "page");
    var v := Check(v, f.pageSize > 0, "page_size");
    var v := Check(v, f.pageSize <= MaxPageSize, "page_size");
    Check(v, f.sort in f.sortSafeList, "sort")
  }

  /** Go's `/` on integers truncates toward zero. */
  function GoDiv(a: int, b: int): (q: int)
    requires b != 0
    ensures Abs(a - q * b) < Abs(b)
    ensures a - q * b == 0 || (a - q * b < 0) == (a < 0)
    ensures a >= 0 && b > 0 ==> q == a / b
  {
    if (a >= 0) == (b > 0) then Abs(a) / Abs(b) else -(Abs(a) / Abs(b))
  }

  function Abs(a: int): nat
  {
    if a < 0 then -a else a
  }

  /**
   * calculateMetaData. Go panics on an integer division by zero, hence the
   * precondition; the callers only reach the division with a positive page size.
   */
  function CalculateMetadata(totalRecords: int, currentPage: int, pageSize: int): (m: Metadata)
    requires totalRecords == 0 || pageSize != 0
    ensures totalRecords == 0 ==> m == EmptyMetadata
    ensures totalRecords > 0 && pageSize > 0 ==>
      && m.firstPage == 1
      && m.currentPage == currentPage && m.pageSize == pageSize && m.totalRecords == totalRecords
      && (m.lastPage - 1) * pageSize < totalRecords <= m.lastPage * pageSize
  {
    if totalRecords == 0 then EmptyMetadata
    else
      var lastPage := GoDiv(totalRecords + pageSize - 1, pageSize);
      CeilingBounds(totalRecords, pageSize);
      Metadata(currentPage, pageSize, 1, lastPage, totalRecords)
  }

  /** (t + p - 1) / p is the least L with t <= L * p. */
  lemma CeilingBounds(t: int, p: int)
    ensures t > 0 && p > 0 ==> ((t + p - 1) / p - 1) * p < t <= ((t + p - 1) / p) * p
  {
    if t > 0 && p > 0 {
      var a := t + p - 1;
      var q, r := a / p, a % p;
      assert a == q * p + r && 0 <= r < p;
      assert (q - 1) * p == q * p - p;
    }
  }

  function HasPrefix(s: string, prefix: string): bool
  {
    |prefix| <= |s| && s[..|prefix|] == prefix
  }

  /** strings.TrimPrefix: removes one leading `prefix`, if there is one. */
  function TrimPrefix(s: string, prefix: string): (r: string)
    ensures HasPrefix(s, prefix) ==> prefix + r == s
    ensures !HasPrefix(s, prefix) ==> r == s
  {
    if HasPrefix(s, prefix) then s[|prefix|..] else s
  }

  /**
   * sortColumn: searches the allow-list for the sort key and strips its `-`.
   * None stands for the panic on a key outside the allow-list.
   */
  method SortColumn(f: Filters) returns (column: Option<string>)
    ensures column.Some? <==> f.sort in f.sortSafeList
    ensures column.Some? ==> column.value == TrimPrefix(f.sort, "-")
  {
    for i := 0 to |f.sortSafeList|
      invariant f.sort !in f.sortSafeList[..i]
    {
      if f.sort == f.sortSafeList[i] {
        return Some(TrimPrefix(f.sort, "-"));
      }
    }
    return None;
  }

  /** sortDirection: descending exactly when the key starts with `-`. */
  function SortDirection(f: Filters): (d: string)
    ensures d == "DESC" || d == "ASC"
    ensures d == "DESC" <==> |f.sort| > 0 && f.sort[0] == '-'
  {
    if HasPrefix(f.sort, "-") then "DESC" else "ASC"
  }

  /** The column and the direction together give back the sort key. */
  lemma SortKeyReassembles(f: Filters)
    ensures (if SortDirection(f) == "DESC" then "-" else "") + TrimPrefix(f.sort, "-") == f.sort
  {
  }

  /** LIMIT: one page's worth of rows, the distance from one page's offset to the next. */
  function Limit(f: Filters): (l: int)
    ensures 1 <= f.pageSize <= MaxPageSize ==> 1 <= l <= MaxPageSize
    ensures Offset(f) + l == Offset(f.(page := f.page + 1))
  {
    f.pageSize
  }

  function Offset(f: Filters): (o: int)
    ensures 1 <= f.page <= MaxPage && 1 <= f.pageSize <= MaxPageSize ==>
      0 <= o <= (MaxPage - 1) * MaxPageSize
  {
    OffsetBounds(f.page, f.pageSize);
    (f.page - 1) * f.pageSize
  }

  lemma OffsetBounds(page: int, pageSize: int)
    ensures 1 <= page <= MaxPage && 1 <= pageSize <= MaxPageSize ==>
      0 <= (page - 1) * pageSize <= (MaxPage - 1) * MaxPageSize
  {
    if 1 <= page <= MaxPage && 1 <= pageSize <= MaxPageSize {
      MulMonotone(0, page - 1, pageSize);
      MulMonotone(page - 1, MaxPage - 1, pageSize);
      MulMonotone(pageSize, MaxPageSize, MaxPage - 1);
    }
  }

  /** Page n + 1 starts where page n ends: the windows tile the result. */
  lemma NextPageFollows(f: Filters)
    ensures Offset(f.(page := f.page + 1)) == Offset(f) + Limit(f)
  {
  }

  /**
   * A page holds rows exactly when it is not past the last page that
   * calculateMetaData reports.
   */
  lemma PageHasRowsIffNotPastLast(f: Filters, totalRecords: int)
    requires ValidFilters(f) && totalRecords > 0
    ensures Offset(f) < totalRecords <==> f.page <= CalculateMetadata(totalRecords, f.page, f.pageSize).lastPage
  {
    var last := CalculateMetadata(totalRecords, f.page, f.pageSize).lastPage;
    var p := f.pageSize;
    if f.page <= last {
      MulMonotone(f.page - 1, last - 1, p);
    } else {
      MulMonotone(last, f.page - 1, p);
    }
  }

  lemma MulMonotone(a: int, b: int, p: int)
    requires a <= b && p >= 0
    ensures a * p <= b * p
  {
    assert b * p - a * p == (b - a) * p;
  }
}
