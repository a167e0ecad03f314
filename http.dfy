/**
 * What the handlers write back, and the request inputs they read through
 * helpers that are not part of this model (readJSON, readIDParam,
 * getSingleIntegerParameter, getSingleQueryParameter).
 */
module Http {

  import opened Wrappers
  import opened Validator
  import opened Filters
  import opened DbErrors

  /** The response a handler writes; T is the JSON envelope's payload. */
  datatype Response<T> =
    | Ok(body: T)                          // 200
    | Created(location: string, body: T)   // 201 with a Location header
    | BadRequest                           // 400: the body did not decode
    | NotFound                             // 404
    | FailedValidation(errors: Errors)     // 422 with the failing keys
    | ServerError                          // 500

  function StatusCode<T>(r: Response<T>): (code: int)
    ensures 200 <= code < 600
    ensures code < 300 <==> r.Ok? || r.Created?
  {
    match r
    case Ok(_) => 200
    case Created(_, _) => 201
    case BadRequest => 400
    case NotFound => 404
    case FailedValidation(_) => 422
    case ServerError => 500
  }

  /** The switch on a store error: a missing record is 404, anything else 500. */
  function StoreErrorResponse<T>(e: DbError): (r: Response<T>)
    ensures r.NotFound? <==> e == ErrRecordNotFound
    ensures r.ServerError? <==> e != ErrRecordNotFound
  {
    if e == ErrRecordNotFound then NotFound else ServerError
  }

  /** The path every product and review URL starts with. */
  const ProductsPath := "/v1/products/"

  /**
   * An id read from the URL path. readIDParam answers with an error for
   * text that is not an integer and for any value below 1, so an id that
   * reaches a handler is always positive.
   */
  type RouteId = x: int | x >= 1 witness 1

  /** A query-string integer: missing, an integer, or text that is not one. */
  datatype IntParam = Absent | Given(value: int) | NotAnInteger

  /** The pagination and sort parameters of a list request; a missing or empty sort is None. */
  datatype ListQuery = ListQuery(page: IntParam, pageSize: IntParam, sort: Option<string>)

  const DefaultPage := 1
  const DefaultPageSize := 10
  const DefaultSort := "id"

  /**
   * getSingleIntegerParameter: the default when the parameter is missing;
   * the default plus an error under `key` when it is not an integer.
   */
  function ReadInt(v: Errors, p: IntParam, key: string, default: int): (r: (int, Errors))
    ensures r.0 == if p.Given? then p.value else default
    ensures key in r.1 <==> key in v || p.NotAnInteger?
    ensures r.1 - {key} == v - {key}
  {
    match p
    case Absent => (default, v)
    case Given(n) => (n, v)
    case NotAnInteger => (default, v + {key})
  }

  /**
   * The list handlers' reading of page, page_size and sort (defaults 1, 10
   * and "id") into Filters over `safeList`, with the parse errors so far.
   */
  function ReadFilters(q: ListQuery, safeList: seq<string>): (r: (Filters, Errors))
    ensures r.0.page == (if q.page.Given? then q.page.value else DefaultPage)
    ensures r.0.pageSize == (if q.pageSize.Given? then q.pageSize.value else DefaultPageSize)
    ensures r.0.sort == (if q.sort.Some? then q.sort.value else DefaultSort)
    ensures r.0.sortSafeList == safeList
    ensures r.1 <= {"page", "page_size"}
    ensures "page" in r.1 <==> q.page.NotAnInteger?
    ensures "page_size" in r.1 <==> q.pageSize.NotAnInteger?
  {
    var (page, v) := ReadInt(New, q.page, "page", DefaultPage);
    var (pageSize, v) := ReadInt(v, q.pageSize, "page_size", DefaultPageSize);
    var sort := if q.sort.Some? then q.sort.value else DefaultSort;
    (Filters(page, pageSize, sort, safeList), v)
  }

  /** A request without query parameters lists page 1 of 10 rows by id, when "id" is allowed. */
  lemma DefaultQueryIsValid(safeList: seq<string>)
    requires DefaultSort in safeList
    ensures var (f, v) := ReadFilters(ListQuery(Absent, Absent, None), safeList);
      ValidateFilters(v, f) == {} && f.page == 1 && f.pageSize == 10 && Offset(f) == 0
  {
  }
}
