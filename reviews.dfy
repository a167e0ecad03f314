/**
 * The reviews data model (internal/data/review.go): record validation and the
 * SQL statements of ReviewModel, run against an in-memory reviews table.
 */
module Reviews {

  import opened Wrappers
  import opened Text
  import opened Validator
  import opened Filters
  import opened Listing
  import opened DbErrors

  /** A row of the reviews table. Times are nanosecond instants. */
  datatype Review = Review(
    id: int,
    productID: int,
    content: Bytes,
    author: Bytes,
    rating: int,
    helpfulCount: int,
    createdAt: int,
    version: int)

  const MaxContentLength := 500
  const MaxAuthorLength := 100

  /** The version a freshly inserted row carries (the column's default). */
  const InitialVersion := 1

  predicate ValidReview(r: Review)
  {
    && r.content != [] && |r.content| <= MaxContentLength
    && r.author != [] && |r.author| <= MaxAuthorLength
    && 1 <= r.rating <= 5
  }

  /** ValidateReview: the five checks, adding failing keys to `v`. */
  function ValidateReview(v: Errors, r: Review): (errs: Errors)
    ensures v <= errs <= v + {"content", "author", "rating"}
    ensures "content" in errs <==> "content" in v || r.content == [] || |r.content| > MaxContentLength
    ensures "author" in errs <==> "author" in v || r.author == [] || |r.author| > MaxAuthorLength
    ensures "rating" in errs <==> "rating" in v || !(1 <= r.rating <= 5)
    ensures errs == {} <==> v == {} && ValidReview(r)
  {
    var v := Check(v, r.content != [], "content");
    var v := Check(v, |r.content| <= MaxContentLength, "content");
    var v := Check(v, r.author != [], "author");
    var v := Check(v, |r.author| <= MaxAuthorLength, "author");
    Check(v, r.rating >= 1 && r.rating <= 5, "rating")
  }

  /** The helpful count is never checked: any value passes. */
  lemma HelpfulCountUnchecked(v: Errors, r: Review, count: int)
    ensures ValidateReview(v, r.(helpfulCount := count)) == ValidateReview(v, r)
  {
  }

  function ReviewId(r: Review): int
  {
    r.id
  }

  /** WHERE product_id = $1 AND id = $2 */
  function Identifies(productID: int, reviewID: int): (sel: Review -> bool)
    ensures forall r :: sel(r) ==> ReviewId(r) == reviewID && r.productID == productID
    ensures forall r: Review :: r.productID == productID && ReviewId(r) == reviewID ==> sel(r)
    ensures forall rows, nextID :: SelectsAtMostOne(rows, ReviewId, nextID, sel)
  {
    (r: Review) => r.productID == productID && r.id == reviewID
  }

  /** The rows a DELETE ... WHERE product_id = $1 AND id = $2 leaves in place. */
  function Other(productID: int, reviewID: int): Review -> bool
  {
    (r: Review) => !Identifies(productID, reviewID)(r)
  }

  /** WHERE (product_id = $1 OR $1 = 0): product id 0 selects every product. */
  function OfProduct(productID: int): (sel: Review -> bool)
    ensures productID == 0 ==> forall r :: sel(r)
    ensures productID != 0 ==> forall r :: sel(r) <==> r.productID == productID
  {
    (r: Review) => r.productID == productID || productID == 0
  }

  /** The reviews table's columns as ORDER BY sees them; None for a name that is not a column. */
  function ReviewColumn(name: string): Option<Review -> SortValue>
  {
    if name == "id" then Some((r: Review) => IntKey(r.id))
    else if name == "product_id" then Some((r: Review) => IntKey(r.productID))
    else if name == "content" then Some((r: Review) => TextKey(r.content))
    else if name == "author" then Some((r: Review) => TextKey(r.author))
    else if name == "rating" then Some((r: Review) => IntKey(r.rating))
    else if name == "helpful_count" then Some((r: Review) => IntKey(r.helpfulCount))
    else if name == "created_at" then Some((r: Review) => IntKey(r.createdAt))
    else if name == "version" then Some((r: Review) => IntKey(r.version))
    else None
  }

  /** ORDER BY <sortColumn> <sortDirection>, id ASC */
  function ReviewOrdering(f: Filters): Option<Ordering<Review>>
  {
    match ReviewColumn(TrimPrefix(f.sort, "-"))
    case None => None
    case Some(key) => Some(Ordering(key, ReviewId, SortDirection(f) == "DESC"))
  }

  /** The UPDATE's SET list applied to a stored row. */
  function Overwrite(row: Review, review: Review): (r: Review)
    ensures ValidReview(r) <==> ValidReview(review)
    ensures ReviewId(r) == ReviewId(row) && r.productID == row.productID
  {
    row.(content := review.content, author := review.author, rating := review.rating,
         helpfulCount := review.helpfulCount, version := row.version + 1)
  }

  /** The reviews table, changed in place by Insert, Update and Delete. */
  class ReviewModel {
    var rows: seq<Review>
    var nextID: int

    ghost predicate Valid()
      reads this
    {
      KeyedBy(rows, ReviewId, nextID)
    }

    constructor ()
      ensures Valid() && rows == []
    {
      rows := [];
      nextID := 1;
    }

    /**
     * Insert: the database assigns id, created_at and version and the method
     * writes them back into the review, returned here. `broken` stands for
     * any database failure.
     */
    method Insert(review: Review, now: int, broken: bool) returns (res: Result<Review, DbError>)
      requires Valid()
      modifies this
      ensures Valid()
      ensures broken ==> res == Failure(ErrDatabase) && rows == old(rows) && nextID == old(nextID)
      ensures !broken ==> res == Success(review.(id := old(nextID), createdAt := now, version := InitialVersion))
      ensures !broken ==> rows == old(rows) + [res.value]
      ensures !broken ==> forall i :: 0 <= i < |old(rows)| ==> old(rows)[i].id != res.value.id
    {
      if broken {
        return Failure(ErrDatabase);
      }
      var stored := review.(id := nextID, createdAt := now, version := InitialVersion);
      rows := rows + [stored];
      nextID := nextID + 1;
      return Success(stored);
    }

    /** Get: the row with this product id and review id, or ErrRecordNotFound. */
    method Get(productID: int, reviewID: int, broken: bool) returns (res: Result<Review, DbError>)
      ensures broken ==> res == Failure(ErrDatabase)
      ensures !broken ==>
        (res.Success? <==> exists i :: 0 <= i < |rows| && rows[i].productID == productID && rows[i].id == reviewID)
      ensures !broken && res.Failure? ==> res.error == ErrRecordNotFound
      ensures res.Success? ==> res.value in rows && res.value.productID == productID && res.value.id == reviewID
    {
      if broken {
        return Failure(ErrDatabase);
      }
      var k := FindIndex(rows, Identifies(productID, reviewID));
      if k.None? {
        return Failure(ErrRecordNotFound);
      }
      return Success(rows[k.value]);
    }

    /**
     * Update: overwrites the four editable columns of the row with the
     * review's product id and id and bumps its version, returning the new
     * version. No matching row gives the unmapped sql.ErrNoRows.
     */
    method Update(review: Review, broken: bool) returns (res: Result<int, DbError>)
      requires Valid()
      modifies this
      ensures Valid() && nextID == old(nextID)
      ensures broken ==> res == Failure(ErrDatabase) && rows == old(rows)
      ensures !broken ==>
        match FindIndex(old(rows), Identifies(review.productID, review.id))
        case None => res == Failure(ErrNoRows) && rows == old(rows)
        case Some(k) =>
          && res == Success(old(rows)[k].version + 1)
          && rows == old(rows)[k := Overwrite(old(rows)[k], review)]
    {
      if broken {
        return Failure(ErrDatabase);
      }
      var k := FindIndex(rows, Identifies(review.productID, review.id));
      if k.None? {
        return Failure(ErrNoRows);
      }
      var updated := Overwrite(rows[k.value], review);
      rows := rows[k.value := updated];
      return Success(updated.version);
    }

    /**
     * Delete: removes the rows with this product id and review id; when the
     * statement affects no row the result is ErrRecordNotFound.
     */
    method Delete(productID: int, reviewID: int, broken: bool) returns (err: Option<DbError>)
      requires Valid()
      modifies this
      ensures Valid() && nextID == old(nextID)
      ensures broken ==> err == Some(ErrDatabase) && rows == old(rows)
      ensures !broken ==>
        (err == Some(ErrRecordNotFound) <==> forall i :: 0 <= i < |old(rows)| ==> !Identifies(productID, reviewID)(old(rows)[i]))
      ensures !broken && err.Some? ==> err == Some(ErrRecordNotFound) && rows == old(rows)
      ensures err.None? ==> rows == Filter(old(rows), Other(productID, reviewID))
      ensures err.None? ==> forall r :: r in rows <==> r in old(rows) && !(r.productID == productID && r.id == reviewID)
    {
      if broken {
        return Some(ErrDatabase);
      }
      var keep := Other(productID, reviewID);
      var remaining := Filter(rows, keep);
      FilterDropsNothingIff(rows, keep);
      FilterKeepsKeys(rows, ReviewId, nextID, keep);
      var rowsAffected := |rows| - |remaining|;
      if rowsAffected == 0 {
        return Some(ErrRecordNotFound);
      }
      rows := remaining;
      return None;
    }

    /**
     * GetAll: the reviews of one product (all products for id 0), sorted and
     * paged. The filters' sort key must be in their allow-list: sortColumn
     * panics otherwise. An unknown column, a negative LIMIT or OFFSET, or a
     * database failure is a query error.
     */
    method GetAll(productID: int, f: Filters, broken: bool) returns (res: Result<Page<Review>, DbError>)
      requires f.sort in f.sortSafeList
      ensures res.Success? <==> !broken && ReviewOrdering(f).Some? && f.pageSize >= 0 && Offset(f) >= 0
      ensures res.Failure? ==> res.error == ErrDatabase
      ensures res.Success? ==> res.value == Select(rows, OfProduct(productID), ReviewOrdering(f).value, f)
    {
      var column := SortColumn(f);
      var key := ReviewColumn(column.value);
      if broken || key.None? || Limit(f) < 0 || Offset(f) < 0 {
        return Failure(ErrDatabase);
      }
      var ord := Ordering(key.value, ReviewId, SortDirection(f) == "DESC");
      var resultSet := ResultSet(rows, OfProduct(productID), ord, Limit(f), Offset(f));
      var items, metadata := ScanRows(resultSet, f.page, f.pageSize);
      ScanOfResultSet(rows, OfProduct(productID), ord, f, items, metadata);
      return Success(Page(items, metadata));
    }
  }

  /**
   * The pair (product id, review id) of a stored row picks out that row and
   * no other, because review ids are distinct.
   */
  lemma IdentifiesOneRow(rows: seq<Review>, nextID: int, i: int)
    requires KeyedBy(rows, ReviewId, nextID) && 0 <= i < |rows|
    ensures FindIndex(rows, Identifies(rows[i].productID, rows[i].id)) == Some(i)
  {
    LocateByKey(rows, ReviewId, nextID, Identifies(rows[i].productID, rows[i].id), i);
  }

  /** Listing with product id 0 considers every review of the table. */
  lemma ProductZeroListsAll(rows: seq<Review>)
    ensures Filter(rows, OfProduct(0)) == rows
  {
    FilterAll(rows, OfProduct(0));
  }

  /** Listing with a product id other than 0 considers exactly that product's reviews. */
  lemma ProductFilterSelects(rows: seq<Review>, productID: int, r: Review)
    requires productID != 0
    ensures r in Filter(rows, OfProduct(productID)) <==> r in rows && r.productID == productID
  {
  }

  /**
   * The UPDATE's SET list: the four editable columns come from the review,
   * id, product id and created_at stay, and the version goes up by one.
   */
  lemma OverwriteKeepsIdentity(row: Review, review: Review)
    ensures var r := Overwrite(row, review);
      && r.id == row.id && r.productID == row.productID && r.createdAt == row.createdAt
      && r.content == review.content && r.author == review.author
      && r.rating == review.rating && r.helpfulCount == review.helpfulCount
      && r.version == row.version + 1
  {
  }
}
