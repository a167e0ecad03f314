/**
 * The review handlers: create, display, update, delete and the two list
 * endpoints, each an early-return method over the reviews store.
 */
module ReviewHandlers {

  import opened Wrappers
  import opened Text
  import opened Validator
  import opened Filters
  import opened Listing
  import opened DbErrors
  import opened Reviews
  import opened Http

  /**
   * The parameters of /v1/products/:id/reviews/:review_id as the router
   * hands them over: each one a positive id, or None when readIDParam
   * rejects it.
   */
  datatype ReviewRoute = ReviewRoute(id: Option<RouteId>, reviewID: Option<RouteId>)

  /** The body of a create request. */
  datatype ReviewInput = ReviewInput(content: Bytes, author: Bytes, rating: int)

  /** The body of an update request: every field optional. */
  datatype ReviewPatch = ReviewPatch(
    content: Option<Bytes>,
    author: Option<Bytes>,
    rating: Option<int>,
    helpfulCount: Option<int>)

  const ReviewSortSafeList := ["id", "rating", "-id", "-rating"]
  const DeletedMessage := "review successfully deleted"

  /** Location of a review: /v1/products/{product id}/reviews/{review id}. */
  function ReviewLocation(productID: int, reviewID: int): (loc: string)
    ensures var head := ProductsPath + FormatInt(productID) + "/reviews/";
      && |head| < |loc| && loc[..|head|] == head
      && ParseInt(loc[|ProductsPath|..|head| - |"/reviews/"|]) == Some(productID)
      && ParseInt(loc[|head|..]) == Some(reviewID)
  {
    FormatIntRoundTrip(productID);
    FormatIntRoundTrip(reviewID);
    var head := ProductsPath + FormatInt(productID) + "/reviews/";
    var loc := head + FormatInt(reviewID);
    assert loc[|ProductsPath|..|head| - |"/reviews/"|] == FormatInt(productID);
    assert loc[|head|..] == FormatInt(reviewID);
    loc
  }

  /** readIDParam reads the ":id" parameter. */
  function ReadIDParam(route: ReviewRoute): Option<RouteId>
  {
    route.id
  }

  /** The ids display, update and delete use as written: readIDParam twice. */
  function ReviewIDsAsWritten(route: ReviewRoute): (Option<RouteId>, Option<RouteId>)
  {
    (ReadIDParam(route), ReadIDParam(route))
  }

  /** The ids they evidently mean: the product from ":id", the review from ":review_id". */
  function ReviewIDs(route: ReviewRoute): (Option<RouteId>, Option<RouteId>)
  {
    (route.id, route.reviewID)
  }

  /**
   * What a GET of one review answers once its two ids are read: 500 on a
   * store failure, 404 when no row has both ids, that row otherwise.
   */
  function Displayed(rows: seq<Review>, productID: int, reviewID: int, broken: bool): (resp: Response<Review>)
    ensures resp.Ok? ==> resp.body in rows && resp.body.productID == productID && resp.body.id == reviewID
    ensures resp.NotFound? <==> !broken && forall i :: 0 <= i < |rows| ==> !Identifies(productID, reviewID)(rows[i])
    ensures resp.ServerError? <==> broken
    ensures resp.Ok? || resp.NotFound? || resp.ServerError?
  {
    if broken then ServerError
    else match FindIndex(rows, Identifies(productID, reviewID))
      case None => NotFound
      case Some(k) => Ok(rows[k])
  }

  /**
   * As written, a lookup can only find a review whose id equals its product
   * id, whatever review id the URL names.
   */
  lemma AsWrittenFindsOnlySelfNumbered(rows: seq<Review>, route: ReviewRoute, broken: bool)
    requires route.id.Some?
    ensures var (p, r) := ReviewIDsAsWritten(route);
      var resp := Displayed(rows, p.value, r.value, broken);
      resp.Ok? ==> resp.body.id == resp.body.productID == route.id.value
  {
  }

  /** GET /v1/products/1/reviews/7 misses review 7 of product 1 as written. */
  lemma AsWrittenMissesReview()
    ensures var rows := [Review(7, 1, [], [], 5, 0, 0, 1)];
      var route := ReviewRoute(Some(1), Some(7));
      var (p, r) := ReviewIDsAsWritten(route);
      var (p', r') := ReviewIDs(route);
      && Displayed(rows, p.value, r.value, false) == NotFound
      && Displayed(rows, p'.value, r'.value, false) == Ok(rows[0])
  {
    var rows := [Review(7, 1, [], [], 5, 0, 0, 1)];
    assert !Identifies(1, 1)(rows[0]);
    assert Identifies(1, 7)(rows[0]);
  }

  /** With the corrected reading, the URL of every stored review displays that review. */
  lemma ReviewIDsFindEveryReview(rows: seq<Review>, nextID: int, i: int)
    requires KeyedBy(rows, ReviewId, nextID) && 0 <= i < |rows| && rows[i].productID >= 1
    ensures var (p, r) := ReviewIDs(ReviewRoute(Some(rows[i].productID), Some(rows[i].id)));
      Displayed(rows, p.value, r.value, false) == Ok(rows[i])
  {
    IdentifiesOneRow(rows, nextID, i);
  }

  /** The review a create request describes, before the database fills in the rest. */
  function Draft(productID: int, input: ReviewInput): (r: Review)
    ensures r.productID == productID
    ensures ValidReview(r) <==>
      && input.content != [] && |input.content| <= MaxContentLength
      && input.author != [] && |input.author| <= MaxAuthorLength
      && 1 <= input.rating <= 5
  {
    Review(0, productID, input.content, input.author, input.rating, 0, 0, 0)
  }

  /** The update handler's field-by-field merge of a patch into the stored review. */
  function MergeReview(stored: Review, patch: ReviewPatch): (r: Review)
    ensures patch.content.Some? ==> r.content == patch.content.value
    ensures patch.author.Some? ==> r.author == patch.author.value
    ensures patch.rating.Some? ==> r.rating == patch.rating.value
    ensures patch.helpfulCount.Some? ==> r.helpfulCount == patch.helpfulCount.value
    ensures patch.content.None? ==> r.content == stored.content
    ensures patch.author.None? ==> r.author == stored.author
    ensures patch.rating.None? ==> r.rating == stored.rating
    ensures patch.helpfulCount.None? ==> r.helpfulCount == stored.helpfulCount
  {
    stored.(
      content := if patch.content.Some? then patch.content.value else stored.content,
      author := if patch.author.Some? then patch.author.value else stored.author,
      rating := if patch.rating.Some? then patch.rating.value else stored.rating,
      helpfulCount := if patch.helpfulCount.Some? then patch.helpfulCount.value else stored.helpfulCount)
  }

  /** A patch never touches the id, product, creation time or version. */
  lemma MergeKeepsIdentity(stored: Review, patch: ReviewPatch)
    ensures var r := MergeReview(stored, patch);
      r.id == stored.id && r.productID == stored.productID
      && r.createdAt == stored.createdAt && r.version == stored.version
  {
  }

  /** An empty patch changes nothing; applying a patch twice is applying it once. */
  lemma MergeEmptyAndIdempotent(stored: Review, patch: ReviewPatch)
    ensures MergeReview(stored, ReviewPatch(None, None, None, None)) == stored
    ensures MergeReview(MergeReview(stored, patch), patch) == MergeReview(stored, patch)
  {
  }

  /** The row the UPDATE leaves behind is the merged review with the returned version. */
  lemma OverwriteWithMerge(stored: Review, patch: ReviewPatch)
    ensures Overwrite(stored, MergeReview(stored, patch))
         == MergeReview(stored, patch).(version := stored.version + 1)
  {
  }

  /** Filters that pass validation name one of the reviews table's columns. */
  lemma SafeSortHasColumn(f: Filters)
    requires f.sortSafeList == ReviewSortSafeList && f.sort in f.sortSafeList
    ensures ReviewOrdering(f).Some?
  {
    var s := f.sort;
    if s == "id" || s == "rating" {
      assert s[0] != '-' && s[..1][0] == s[0];
      assert TrimPrefix(s, "-") == s;
    } else {
      assert s == "-id" || s == "-rating";
      assert HasPrefix(s, "-");
      assert TrimPrefix(s, "-") == s[1..];
      assert s[1..] == "id" || s[1..] == "rating";
    }
  }

  method CreateReview(model: ReviewModel, route: ReviewRoute, input: Option<ReviewInput>, now: int, broken: bool)
    returns (resp: Response<Review>)
    requires model.Valid()
    modifies model
    ensures model.Valid()
    ensures !resp.Created? ==> model.rows == old(model.rows)
    ensures route.id.None? ==> resp == NotFound
    ensures route.id.Some? && input.None? ==> resp == BadRequest
    ensures route.id.Some? && input.Some? ==>
      var draft := Draft(route.id.value, input.value);
      var errs := ValidateReview(New, draft);
      && (errs != {} ==> resp == FailedValidation(errs))
      && (errs == {} && broken ==> resp == ServerError)
      && (errs == {} && !broken ==>
            && resp.Created?
            && resp.body == draft.(id := old(model.nextID), createdAt := now, version := InitialVersion)
            && resp.location == ReviewLocation(route.id.value, resp.body.id)
            && model.rows == old(model.rows) + [resp.body])
  {
    var productID := ReadIDParam(route);
    if productID.None? {
      return NotFound;
    }
    if input.None? {
      return BadRequest;
    }
    var review := Draft(productID.value, input.value);
    var v := ValidateReview(New, review);
    if v != {} {
      return FailedValidation(v);
    }
    var res := model.Insert(review, now, broken);
    if res.Failure? {
      return ServerError;
    }
    review := res.value;
    return Created(ReviewLocation(productID.value, review.id), review);
  }

  /** A created review is found again at the ids of its Location. */
  lemma CreatedReviewIsFound(rows: seq<Review>, nextID: int, created: Review)
    requires KeyedBy(rows + [created], ReviewId, nextID)
    ensures FindIndex(rows + [created], Identifies(created.productID, created.id)) == Some(|rows|)
  {
    IdentifiesOneRow(rows + [created], nextID, |rows|);
  }

  /** The displayReviewHandler body once both ids are read. */
  method DisplayReviewAt(model: ReviewModel, productID: int, reviewID: int, broken: bool) returns (resp: Response<Review>)
    requires model.Valid()
    ensures resp == Displayed(model.rows, productID, reviewID, broken)
  {
    var res := model.Get(productID, reviewID, broken);
    if res.Failure? {
      return StoreErrorResponse(res.error);
    }
    LocateStoredRow(model.rows, ReviewId, model.nextID, Identifies(productID, reviewID), res.value);
    return Ok(res.value);
  }

  /** displayReviewHandler as written: both ids come from ":id". */
  method DisplayReview(model: ReviewModel, route: ReviewRoute, broken: bool) returns (resp: Response<Review>)
    requires model.Valid()
    ensures route.id.None? ==> resp == NotFound
    ensures route.id.Some? ==> resp == Displayed(model.rows, route.id.value, route.id.value, broken)
  {
    var productID := ReadIDParam(route);
    if productID.None? {
      return NotFound;
    }
    var reviewID := ReadIDParam(route);
    if reviewID.None? {
      return NotFound;
    }
    resp := DisplayReviewAt(model, productID.value, reviewID.value, broken);
  }

  /** displayReviewHandler with the review id read from ":review_id". */
  method DisplayReviewCorrected(model: ReviewModel, route: ReviewRoute, broken: bool) returns (resp: Response<Review>)
    requires model.Valid()
    ensures route.id.None? || route.reviewID.None? ==> resp == NotFound
    ensures route.id.Some? && route.reviewID.Some? ==>
      resp == Displayed(model.rows, route.id.value, route.reviewID.value, broken)
  {
    var (productID, reviewID) := ReviewIDs(route);
    if productID.None? || reviewID.None? {
      return NotFound;
    }
    resp := DisplayReviewAt(model, productID.value, reviewID.value, broken);
  }

  /**
   * What a PATCH of one review answers, and the table it leaves, once its
   * two ids are read: the stored row is looked up, merged with the patch,
   * validated and written back with the next version.
   */
  function Updated(rows: seq<Review>, productID: int, reviewID: int, patch: Option<ReviewPatch>,
                   getBroken: bool, updateBroken: bool): (out: (Response<Review>, seq<Review>))
    ensures !out.0.Ok? ==> out.1 == rows
    ensures out.0.Ok? ==> ValidReview(out.0.body) && out.0.body.productID == productID && out.0.body.id == reviewID
    ensures out.0.Ok? ==> |out.1| == |rows| && out.0.body in out.1
    ensures out.0.Ok? ==> forall i :: 0 <= i < |rows| && rows[i].id != reviewID ==> out.1[i] == rows[i]
    ensures out.0.NotFound? <==> !getBroken && forall i :: 0 <= i < |rows| ==> !Identifies(productID, reviewID)(rows[i])
  {
    if getBroken then (ServerError, rows)
    else match FindIndex(rows, Identifies(productID, reviewID))
      case None => (NotFound, rows)
      case Some(k) =>
        if patch.None? then (BadRequest, rows)
        else
          var merged := MergeReview(rows[k], patch.value);
          var errs := ValidateReview(New, merged);
          if errs != {} then (FailedValidation(errs), rows)
          else if updateBroken then (ServerError, rows)
          else
            var review := merged.(version := rows[k].version + 1);
            assert rows[k := review][k] == review;
            (Ok(review), rows[k := review])
  }

  /**
   * An update that succeeds answers with a valid review under the requested
   * ids, replaces exactly that row, and keeps the ids of the table; any
   * other answer leaves the table as it was.
   */
  lemma UpdatedReplacesOneRow(rows: seq<Review>, nextID: int, productID: int, reviewID: int,
                              patch: Option<ReviewPatch>, getBroken: bool, updateBroken: bool)
    requires KeyedBy(rows, ReviewId, nextID)
    ensures var (resp, after) := Updated(rows, productID, reviewID, patch, getBroken, updateBroken);
      && KeyedBy(after, ReviewId, nextID)
      && (!resp.Ok? ==> after == rows)
      && (resp.Ok? ==>
            && ValidReview(resp.body) && resp.body.productID == productID && resp.body.id == reviewID
            && |after| == |rows|
            && forall i :: 0 <= i < |rows| ==> after[i] == if rows[i].id == reviewID then resp.body else rows[i])
  {
    var (resp, after) := Updated(rows, productID, reviewID, patch, getBroken, updateBroken);
    if resp.Ok? {
      var k := FindIndex(rows, Identifies(productID, reviewID)).value;
      MergeKeepsIdentity(rows[k], patch.value);
      assert after == rows[k := resp.body];
      forall i | 0 <= i < |after|
        ensures 1 <= ReviewId(after[i]) < nextID
      {
        assert ReviewId(after[i]) == ReviewId(rows[i]);
      }
      forall i, j | 0 <= i < j < |after|
        ensures ReviewId(after[i]) != ReviewId(after[j])
      {
        assert ReviewId(after[i]) == ReviewId(rows[i]) && ReviewId(after[j]) == ReviewId(rows[j]);
      }
    }
  }

  /** The updateReviewHandler body once both ids are read. */
  method UpdateReviewAt(model: ReviewModel, productID: int, reviewID: int, patch: Option<ReviewPatch>,
                        getBroken: bool, updateBroken: bool) returns (resp: Response<Review>)
    requires model.Valid()
    modifies model
    ensures model.Valid()
    ensures (resp, model.rows) == Updated(old(model.rows), productID, reviewID, patch, getBroken, updateBroken)
  {
    var res := model.Get(productID, reviewID, getBroken);
    if res.Failure? {
      return StoreErrorResponse(res.error);
    }
    LocateStoredRow(model.rows, ReviewId, model.nextID, Identifies(productID, reviewID), res.value);
    if patch.None? {
      return BadRequest;
    }
    var stored := res.value;
    var review := MergeReview(stored, patch.value);
    var v := ValidateReview(New, review);
    if v != {} {
      return FailedValidation(v);
    }
    var version := model.Update(review, updateBroken);
    if version.Failure? {
      return ServerError;
    }
    OverwriteWithMerge(stored, patch.value);
    review := review.(version := version.value);
    return Ok(review);
  }

  /** updateReviewHandler as written: both ids come from ":id". */
  method UpdateReview(model: ReviewModel, route: ReviewRoute, patch: Option<ReviewPatch>, getBroken: bool, updateBroken: bool)
    returns (resp: Response<Review>)
    requires model.Valid()
    modifies model
    ensures model.Valid()
    ensures route.id.None? ==> resp == NotFound && model.rows == old(model.rows)
    ensures route.id.Some? ==>
      (resp, model.rows) == Updated(old(model.rows), route.id.value, route.id.value, patch, getBroken, updateBroken)
  {
    var productID := ReadIDParam(route);
    if productID.None? {
      return NotFound;
    }
    var reviewID := ReadIDParam(route);
    if reviewID.None? {
      return NotFound;
    }
    resp := UpdateReviewAt(model, productID.value, reviewID.value, patch, getBroken, updateBroken);
  }

  /** updateReviewHandler with the review id read from ":review_id". */
  method UpdateReviewCorrected(model: ReviewModel, route: ReviewRoute, patch: Option<ReviewPatch>, getBroken: bool, updateBroken: bool)
    returns (resp: Response<Review>)
    requires model.Valid()
    modifies model
    ensures model.Valid()
    ensures route.id.None? || route.reviewID.None? ==> resp == NotFound && model.rows == old(model.rows)
    ensures route.id.Some? && route.reviewID.Some? ==>
      (resp, model.rows) == Updated(old(model.rows), route.id.value, route.reviewID.value, patch, getBroken, updateBroken)
  {
    var (productID, reviewID) := ReviewIDs(route);
    if productID.None? || reviewID.None? {
      return NotFound;
    }
    resp := UpdateReviewAt(model, productID.value, reviewID.value, patch, getBroken, updateBroken);
  }

  /**
   * What a DELETE of one review answers, and the table it leaves, once its
   * two ids are read: 404 when no row has both ids, otherwise those rows
   * are gone.
   */
  function Deleted(rows: seq<Review>, productID: int, reviewID: int, broken: bool): (out: (Response<string>, seq<Review>))
    ensures !out.0.Ok? ==> out.1 == rows
    ensures out.0.Ok? ==> out.0.body == DeletedMessage
    ensures out.0.Ok? ==> forall x :: x in out.1 <==> x in rows && !(x.productID == productID && x.id == reviewID)
    ensures out.0.NotFound? <==> !broken && forall i :: 0 <= i < |rows| ==> !Identifies(productID, reviewID)(rows[i])
  {
    if broken then (ServerError, rows)
    else match FindIndex(rows, Identifies(productID, reviewID))
      case None => (NotFound, rows)
      case Some(_) => (Ok(DeletedMessage), Filter(rows, Other(productID, reviewID)))
  }

  /**
   * A delete that succeeds removes the one row with both ids and keeps every
   * other row; any other answer leaves the table as it was.
   */
  lemma DeletedRemovesOneRow(rows: seq<Review>, nextID: int, productID: int, reviewID: int, broken: bool)
    requires KeyedBy(rows, ReviewId, nextID)
    ensures var (resp, after) := Deleted(rows, productID, reviewID, broken);
      && KeyedBy(after, ReviewId, nextID)
      && (!resp.Ok? ==> after == rows)
      && (resp.Ok? ==>
            && |after| == |rows| - 1
            && forall x :: x in after <==> x in rows && !(x.productID == productID && x.id == reviewID))
  {
    var (resp, after) := Deleted(rows, productID, reviewID, broken);
    FilterKeepsKeys(rows, ReviewId, nextID, Other(productID, reviewID));
    if resp.Ok? {
      var k := FindIndex(rows, Identifies(productID, reviewID)).value;
      forall j | 0 <= j < |rows| && j != k
        ensures Other(productID, reviewID)(rows[j])
      {
        assert ReviewId(rows[j]) != ReviewId(rows[k]);
      }
      FilterDropsOne(rows, Other(productID, reviewID), k);
    }
  }

  /** The deleteReviewHandler body once both ids are read. */
  method DeleteReviewAt(model: ReviewModel, productID: int, reviewID: int, broken: bool) returns (resp: Response<string>)
    requires model.Valid()
    modifies model
    ensures model.Valid()
    ensures (resp, model.rows) == Deleted(old(model.rows), productID, reviewID, broken)
  {
    var err := model.Delete(productID, reviewID, broken);
    if err.Some? {
      return StoreErrorResponse(err.value);
    }
    return Ok(DeletedMessage);
  }

  /** deleteReviewHandler as written: both ids come from ":id". */
  method DeleteReview(model: ReviewModel, route: ReviewRoute, broken: bool) returns (resp: Response<string>)
    requires model.Valid()
    modifies model
    ensures model.Valid()
    ensures route.id.None? ==> resp == NotFound && model.rows == old(model.rows)
    ensures route.id.Some? ==> (resp, model.rows) == Deleted(old(model.rows), route.id.value, route.id.value, broken)
  {
    var productID := ReadIDParam(route);
    if productID.None? {
      return NotFound;
    }
    var reviewID := ReadIDParam(route);
    if reviewID.None? {
      return NotFound;
    }
    resp := DeleteReviewAt(model, productID.value, reviewID.value, broken);
  }

  /** deleteReviewHandler with the review id read from ":review_id". */
  method DeleteReviewCorrected(model: ReviewModel, route: ReviewRoute, broken: bool) returns (resp: Response<string>)
    requires model.Valid()
    modifies model
    ensures model.Valid()
    ensures route.id.None? || route.reviewID.None? ==> resp == NotFound && model.rows == old(model.rows)
    ensures route.id.Some? && route.reviewID.Some? ==>
      (resp, model.rows) == Deleted(old(model.rows), route.id.value, route.reviewID.value, broken)
  {
    var (productID, reviewID) := ReviewIDs(route);
    if productID.None? || reviewID.None? {
      return NotFound;
    }
    resp := DeleteReviewAt(model, productID.value, reviewID.value, broken);
  }

  /**
   * The list endpoints' common path: read and validate the filters, then
   * ask the store for one product's reviews (every product for id 0).
   */
  method ListReviews(model: ReviewModel, productID: int, q: ListQuery, broken: bool) returns (resp: Response<Page<Review>>)
    ensures var (f, v) := ReadFilters(q, ReviewSortSafeList);
      var errs := ValidateFilters(v, f);
      && (errs != {} ==> resp == FailedValidation(errs))
      && (errs == {} && broken ==> resp == ServerError)
      && (errs == {} && !broken ==>
            ReviewOrdering(f).Some? && resp == Ok(Select(model.rows, OfProduct(productID), ReviewOrdering(f).value, f)))
  {
    var (filters, v) := ReadFilters(q, ReviewSortSafeList);
    v := ValidateFilters(v, filters);
    if v != {} {
      return FailedValidation(v);
    }
    SafeSortHasColumn(filters);
    var res := model.GetAll(productID, filters, broken);
    if res.Failure? {
      return ServerError;
    }
    return Ok(res.value);
  }

  method ListReviewsForProduct(model: ReviewModel, route: ReviewRoute, q: ListQuery, broken: bool)
    returns (resp: Response<Page<Review>>)
    ensures route.id.None? ==> resp == NotFound
    ensures route.id.Some? ==>
      var (f, v) := ReadFilters(q, ReviewSortSafeList);
      var errs := ValidateFilters(v, f);
      && (errs != {} ==> resp == FailedValidation(errs))
      && (errs == {} && broken ==> resp == ServerError)
      && (errs == {} && !broken ==>
            ReviewOrdering(f).Some? && resp == Ok(Select(model.rows, OfProduct(route.id.value), ReviewOrdering(f).value, f)))
  {
    var productID := ReadIDParam(route);
    if productID.None? {
      return NotFound;
    }
    resp := ListReviews(model, productID.value, q, broken);
  }

  method ListAllReviews(model: ReviewModel, q: ListQuery, broken: bool) returns (resp: Response<Page<Review>>)
    ensures var (f, v) := ReadFilters(q, ReviewSortSafeList);
      var errs := ValidateFilters(v, f);
      && (errs != {} ==> resp == FailedValidation(errs))
      && (errs == {} && broken ==> resp == ServerError)
      && (errs == {} && !broken ==>
            ReviewOrdering(f).Some? && resp == Ok(Select(model.rows, (r: Review) => true, ReviewOrdering(f).value, f)))
  {
    resp := ListReviews(model, 0, q, broken);
    ProductZeroListsAll(model.rows);
    AllRowsFilter(model.rows);
  }

  /** Filtering with a predicate that holds everywhere keeps the table. */
  lemma AllRowsFilter(rows: seq<Review>)
    ensures Filter(rows, (r: Review) => true) == rows
  {
    FilterAll(rows, (r: Review) => true);
  }
}
