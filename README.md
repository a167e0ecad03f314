# Products and reviews REST API — a Dafny model

This project models the core of a small Go JSON API for products and their
reviews. It covers:

- the pagination, sorting and filter-validation layer (`Filters`,
  `calculateMetaData`, `sortColumn`, `sortDirection`, `limit`, `offset`);
- record validation and the semantics of the SQL statements behind the two
  stores (`ReviewModel`, `ProductModel`): insert, get, update, delete and
  the filtered, sorted, paged listing with its `COUNT(*) OVER()` metadata;
- the HTTP handlers for both resources, with their early returns and
  partial-update merges;
- the per-IP rate-limit registry and the panic-recovery middleware, composed
  as `recoverPanic(rateLimit(router))`.

Each store is a class whose `rows` field stands for the database table. The
methods change `rows` the way the SQL statement changes the table. Each
handler is a method that takes the already-decoded request: route parameters,
the JSON body as an `Option`, and query parameters. A handler returns the
response it writes. Failures outside the model enter as inputs. The
`broken` flags stand for database errors. In the rate limiter, the `allow`
flag is the token bucket's answer and `host` is the result of splitting
`RemoteAddr`.

Files, one module each: `wrappers.dfy` (Option, Result), `text.dfy` (byte
strings, their order, decimal formatting), `validator.dfy` (error-key sets),
`filters.dfy`, `listing.dfy` (WHERE / ORDER BY / LIMIT / OFFSET over a table
and the row-scanning loop), `db_errors.dfy`, `reviews.dfy`, `products.dfy`,
`http.dfy` (responses, query parameters), `review_handlers.dfy`,
`product_handlers.dfy`, `middleware.dfy`.

## Model

| member | source | states |
|---|---|---|
| Validator.Check | internal/data/filters.go:28-32 | the key is in the result exactly when it was already there or the condition fails; no other key is added or removed |
| Filters.ValidateFilters | internal/data/filters.go:27-33 | "page", "page_size", "sort" are reported exactly when page is outside 1..500, page_size outside 1..100, sort outside the allow-list; no errors iff the input had none and the filters are valid |
| Filters.GoDiv | internal/data/filters.go:45 | Go's division truncates toward zero: the remainder is smaller than the divisor in magnitude and is zero or has the dividend's sign; for a non-negative dividend and positive divisor it agrees with Euclidean division |
| Filters.CalculateMetadata | internal/data/filters.go:36-48 | zero records give the empty metadata; otherwise first page 1, current page and page size echoed, and last page is the least page count that holds all records |
| Filters.TrimPrefix | internal/data/filters.go:54 | a present prefix is removed once (prefix + result is the input); otherwise the input is returned unchanged |
| Filters.SortColumn | internal/data/filters.go:51-58 | a column is returned iff the sort key is in the allow-list (None stands for the panic), and it is the key without its leading "-" |
| Filters.SortDirection | internal/data/filters.go:61-66 | "DESC" exactly when the key starts with "-", "ASC" otherwise |
| Filters.SortKeyReassembles | internal/data/filters.go:51-66 | the direction's "-" followed by the column gives back the sort key |
| Filters.Limit | internal/data/filters.go:69-71 | for a valid page size LIMIT lies in 1..100, and it is the distance from one page's offset to the next |
| Filters.Offset | internal/data/filters.go:74-76 | for valid page and page size the offset lies in 0..49900 |
| Filters.NextPageFollows | internal/data/filters.go:69-76 | page n + 1 starts where page n ends: offset(n + 1) = offset(n) + limit |
| Filters.PageHasRowsIffNotPastLast | internal/data/filters.go:36-76 | for valid filters and a non-empty result, a page starts inside the matches iff it is not past the reported last page |
| Text.FormatIntRoundTrip | cmd/api/review.go:60 | the decimal form of an id, written into a Location header, parses back to the same id |
| Text.FormatInt | cmd/api/review.go:60 | the `%d` text is non-empty, starts with "-" exactly for a negative number, and is decimal digits after that |
| Text.FormatIntInjective | cmd/api/products.go:58 | different ids have different decimal forms |
| Text.BytesLessTransitive | internal/data/review.go:129 | byte-wise ordering of text columns is transitive (with BytesLessIrreflexive and BytesLessTrichotomy: a strict total order) |
| Listing.KeyPrecedesIsStrictTotal | internal/data/review.go:129 | the column order in either direction is irreflexive, transitive and total on sort values |
| Listing.Before | internal/data/review.go:129 | irreflexive (no row precedes one with its own key and id) and asymmetric across keys (a row that precedes on the sort column is not preceded back); equal sort keys fall back to id ascending in either direction (the `, id ASC` tie-break); transitivity, totality and full asymmetry are BeforeTransitive, BeforeTotal and BeforeAsymmetric |
| Listing.BeforeTransitive | internal/data/review.go:129 | "column direction, then id ASC" is transitive |
| Listing.BeforeTotal | internal/data/review.go:129 | any two rows are ordered one way or the other unless they share key and id |
| Listing.SortRows | internal/data/review.go:129 | ORDER BY keeps the number of rows |
| Listing.SortPermutes | internal/data/review.go:129 | ORDER BY rearranges the rows: same multiset |
| Listing.SortSorted | internal/data/review.go:129 | ORDER BY yields rows in which no row precedes an earlier one |
| Listing.SortedArrangementUnique | internal/data/products.go:146 | with the id tie-break, two sorted arrangements of the same rows are identical, so every page is determined |
| Listing.Filter | internal/data/review.go:128 | the result holds exactly the table rows that satisfy the WHERE clause and is no longer than the table |
| Listing.FilterDropsNothingIff | internal/data/review.go:112-117 | the filtered table has the same length iff every row satisfies the predicate (a DELETE affects no row iff none matches) |
| Listing.FilterDropsOne | internal/data/review.go:112-117 | a DELETE whose condition rejects exactly one row affects exactly one row |
| Listing.FindIndex | internal/data/review.go:56 | the first row that matches, or None iff no row matches |
| Listing.FilterKeepsKeys | internal/data/review.go:99-103 | deleting rows keeps the primary key intact: ids positive, distinct and below the next serial value (both tables) |
| Listing.LocateByKey | internal/data/products.go:68 | a lookup whose condition pins the primary key finds the one stored row that meets it |
| Listing.Window | internal/data/review.go:130 | LIMIT/OFFSET: length min(limit, rows after offset), element i is row offset + i |
| Listing.ConsecutiveWindows | internal/data/review.go:130 | two consecutive windows of size n form the window of size 2n |
| Listing.ResultSet | internal/data/review.go:125-130 | at most limit rows, each carrying the number of rows that matched the filter (COUNT(*) OVER()) |
| Listing.Select | internal/data/review.go:124-130 | the page GetAll returns: at most page_size rows; empty iff the offset is at or past the number of matches or the page size is 0; an empty page carries empty metadata |
| Listing.SelectOnlyMatches | internal/data/products.go:140-187 | every listed row is a table row that passes the filter |
| Listing.SelectSortedAndBounded | internal/data/review.go:124-169 | a page holds at most page_size rows, in ORDER BY order |
| Listing.SelectPastEnd | internal/data/review.go:141-167 | a page past the last match is empty with empty metadata |
| Listing.SelectMetadata | internal/data/review.go:141-167 | a non-empty page reports the total of matches, the page, the page size, first page 1 and the ceiling page count |
| Listing.ScanRows | internal/data/review.go:141-167 | the scan loop appends every row in order and ends with the metadata for the count of the last row (empty metadata when no row comes back) |
| Listing.ScanOfResultSet | internal/data/review.go:124-169 | scanning the query's result set gives exactly the selected page |
| Reviews.ValidateReview | internal/data/review.go:29-35 | "content", "author", "rating" are reported exactly when content is empty or over 500 bytes, author empty or over 100 bytes, rating outside 1..5 |
| Reviews.HelpfulCountUnchecked | internal/data/review.go:29-35 | validation does not depend on helpful_count |
| Reviews.Identifies | internal/data/review.go:56 | WHERE product_id = $1 AND id = $2 selects exactly the rows with both ids, and in any table keyed by id at most one row satisfies it (see IdentifiesOneRow for the stored row it finds) |
| Reviews.OfProduct | internal/data/review.go:128 | WHERE (product_id = $1 OR $1 = 0): every row for product id 0, otherwise exactly that product's rows |
| Reviews.Overwrite | internal/data/review.go:84-89 | the SET list keeps id and product id, and the new row is valid exactly when the review whose columns it writes is valid |
| Reviews.IdentifiesOneRow | internal/data/review.go:56 | the (product id, id) pair of a stored row selects that row and no other |
| Reviews.ReviewModel.Insert | internal/data/review.go:38-49 | on success the review is appended with a fresh id, the given created_at and version 1, and returned with them; on failure nothing changes |
| Reviews.ReviewModel.Get | internal/data/review.go:52-81 | a review is returned iff a row with that product id and id exists, and it is such a row; otherwise ErrRecordNotFound, or the database error |
| Reviews.ReviewModel.Update | internal/data/review.go:84-96 | the matching row's four editable columns are overwritten and its version incremented, and the new version is returned; no matching row gives ErrNoRows and no change |
| Reviews.ReviewModel.Delete | internal/data/review.go:99-120 | ErrRecordNotFound iff no row matches (table unchanged); otherwise the table is filtered by the negated WHERE clause, so exactly the matching rows are removed |
| Reviews.ReviewModel.GetAll | internal/data/review.go:124-169 | succeeds iff the database works, the column exists and LIMIT/OFFSET are non-negative, and then returns the selected page of the product's reviews (all reviews for id 0) |
| Reviews.ProductZeroListsAll | internal/data/review.go:128 | product id 0 selects every review |
| Reviews.ProductFilterSelects | internal/data/review.go:128 | a non-zero product id selects exactly that product's reviews |
| Reviews.OverwriteKeepsIdentity | internal/data/review.go:86-88 | an update keeps id, product id and created_at and increments the version |
| Products.ValidateProduct | internal/data/products.go:34-43 | each of the six keys is reported exactly when its rule fails (name 1..100 bytes, description 1..500, category non-empty, price > 0, image URL at most 255, average rating in 0..5) |
| Products.EmptyImageURLAllowed | internal/data/products.go:41 | an empty image URL is never an error |
| Products.HasId | internal/data/products.go:68 | WHERE id = $1 selects exactly the rows with that id, and in any table keyed by id at most one row satisfies it (see HasIdOneRow) |
| Products.ProductWhere | internal/data/products.go:144-145 | empty name and category select every product; a given name admits only full-text matches; a given category admits only that category; completeness for each combination is CategoryFilterIsEquality, NameFilterSelects and BothFiltersSelect |
| Products.Overwrite | internal/data/products.go:96-101 | the SET list keeps id and created_at, and the new row is valid exactly when the product whose columns it writes is valid |
| Products.HasIdOneRow | internal/data/products.go:68 | a stored id selects its row and no other |
| Products.NoRowBelowOne | internal/data/products.go:61-63 | no stored product has an id below 1, so the early not-found answer agrees with the table |
| Products.ProductModel.Insert | internal/data/products.go:46-57 | on success the product is appended with a fresh id, created_at and version 1, and returned with them; on failure nothing changes |
| Products.ProductModel.Get | internal/data/products.go:60-93 | an id below 1 is not found without a query; otherwise a product is returned iff a row has that id, else ErrRecordNotFound or the database error |
| Products.ProductModel.Update | internal/data/products.go:96-108 | the row with the id gets its six editable columns overwritten and its version incremented; no matching row gives ErrNoRows and no change |
| Products.ProductModel.Delete | internal/data/products.go:111-136 | an id below 1 is not found; otherwise ErrRecordNotFound iff no row has the id, else exactly that row is removed |
| Products.ProductModel.GetAll | internal/data/products.go:140-187 | succeeds iff the database works, the column exists and LIMIT/OFFSET are non-negative, and then returns the selected page of products matching the name search and category |
| Products.EmptySearchListsAll | internal/data/products.go:144-145 | empty name and category select every product |
| Products.CategoryFilterIsEquality | internal/data/products.go:145 | with no name, a non-empty category selects exactly the products of that category |
| Products.NameFilterSelects | internal/data/products.go:144-145 | with no category, a product is listed iff it is in the table and the name is empty or matches it full-text |
| Products.BothFiltersSelect | internal/data/products.go:144-145 | with both a name and a category, a product is listed iff it is in the table, matches the name and has that category |
| Products.OverwriteKeepsIdentity | internal/data/products.go:98-100 | an update keeps id and created_at and increments the version |
| Http.StatusCode | cmd/api/review.go:62 | every outcome has a status in 200..599, below 300 exactly for OK and Created |
| Http.StoreErrorResponse | cmd/api/review.go:84-91 | ErrRecordNotFound becomes 404 and every other store error 500 |
| Http.ReadInt | cmd/api/review.go:227-228 | a missing parameter gives the default; a non-integer gives the default and an error under its key; other keys are untouched |
| Http.ReadFilters | cmd/api/review.go:224-230 | page, page_size and sort default to 1, 10 and "id"; the only errors are parse errors of page and page_size |
| ReviewHandlers.AsWrittenFindsOnlySelfNumbered | cmd/api/review.go:71-83 | as written, a displayed review always has id equal to its product id, both equal to :id |
| ReviewHandlers.AsWrittenMissesReview | cmd/api/review.go:76-83 | as written, GET /v1/products/1/reviews/7 misses review 7 of product 1, which the corrected reading finds |
| ReviewHandlers.ReviewIDsFindEveryReview | cmd/api/routes.go:27 | with the product id from :id and the review id from :review_id, every stored review is displayed at its own URL |
| ReviewHandlers.ReviewLocation | cmd/api/review.go:60 | the Location is /v1/products/{p}/reviews/{r}, and both ids read back from it |
| ReviewHandlers.Draft | cmd/api/review.go:35-41 | the review built from a create body carries the route's product id, and it passes validation exactly when the body's content, author and rating meet their rules |
| ReviewHandlers.MergeReview | cmd/api/review.go:143-155 | a field the patch gives is taken from it; an absent field keeps the stored value |
| ReviewHandlers.MergeKeepsIdentity | cmd/api/review.go:143-155 | a patch never changes id, product id, created_at or version |
| ReviewHandlers.MergeEmptyAndIdempotent | cmd/api/review.go:143-155 | an empty patch changes nothing; a patch applied twice equals it applied once |
| ReviewHandlers.OverwriteWithMerge | cmd/api/review.go:143-170 | the stored row after the update is the merged review with the new version, which is what the response shows |
| ReviewHandlers.SafeSortHasColumn | cmd/api/review.go:230 | every allow-listed review sort key names an existing column, so a validated list query never fails on the column |
| ReviewHandlers.CreateReview | cmd/api/review.go:13-66 | bad id 404, undecodable body 400, invalid review 422 (nothing stored), store error 500; otherwise 201 with Location /v1/products/{p}/reviews/{id} and the review appended |
| ReviewHandlers.CreatedReviewIsFound | cmd/api/review.go:52-60 | a created review is found again at the ids of its Location |
| ReviewHandlers.ReadIDParam | cmd/api/review.go:71 | readIDParam as it is called: the `:id` parameter, a positive id or None (the helper itself is not part of this model) |
| ReviewHandlers.Displayed | cmd/api/review.go:82-99 | the answer to a GET once the ids are read: a 200 carries a stored row with both ids; 404 iff no row has them; 500 iff the store fails; nothing else |
| ReviewHandlers.DisplayReviewAt | cmd/api/review.go:82-99 | after the ids are read: store error 500; otherwise 200 with the row that has both ids, or 404 when there is none |
| ReviewHandlers.DisplayReview | cmd/api/review.go:69-100 | as written: bad :id 404; otherwise the answer for product id and review id both equal to :id |
| ReviewHandlers.DisplayReviewCorrected | cmd/api/routes.go:27 | with the review id from :review_id: bad id 404; otherwise the answer for (:id, :review_id) |
| ReviewHandlers.Updated | cmd/api/review.go:116-177 | the answer to a PATCH once the ids are read, and the table after it: any answer but 200 leaves the table as it was; a 200 carries a valid review with the requested ids, present in the new table, which keeps its length and every row with another id; 404 iff no row has both ids and the store works |
| ReviewHandlers.UpdatedReplacesOneRow | cmd/api/review.go:116-177 | a successful update answers with a valid review under the requested ids and replaces exactly that row, keeping the primary key; any other answer leaves the table untouched |
| ReviewHandlers.UpdateReviewAt | cmd/api/review.go:116-177 | after the ids are read: 404 / 500 / 400 / 422 in source order with the table untouched; otherwise 200 with the merged review at version + 1, which replaces the stored row |
| ReviewHandlers.UpdateReview | cmd/api/review.go:103-178 | as written: bad :id 404 with the table untouched; otherwise the update for product id and review id both equal to :id |
| ReviewHandlers.UpdateReviewCorrected | cmd/api/routes.go:28 | with the review id from :review_id: bad id 404; otherwise the update for (:id, :review_id) |
| ReviewHandlers.Deleted | cmd/api/review.go:194-211 | the answer to a DELETE once the ids are read, and the table after it: any answer but 200 leaves the table as it was; after a 200 the table holds exactly the rows without both ids; 404 iff no row has them and the store works |
| ReviewHandlers.DeletedRemovesOneRow | cmd/api/review.go:194-211 | a successful delete removes exactly the one row with both ids and keeps every other row and the primary key; any other answer leaves the table untouched |
| ReviewHandlers.DeleteReviewAt | cmd/api/review.go:194-211 | after the ids are read: store error 500; 404 iff no row has both ids; otherwise 200 and the rows with both ids are gone |
| ReviewHandlers.DeleteReview | cmd/api/review.go:181-212 | as written: bad :id 404 with the table untouched; otherwise the delete for product id and review id both equal to :id |
| ReviewHandlers.DeleteReviewCorrected | cmd/api/routes.go:29 | with the review id from :review_id: bad id 404; otherwise the delete for (:id, :review_id) |
| ReviewHandlers.ListReviews | cmd/api/review.go:223-251 | invalid filters 422 without a query; store error 500; otherwise 200 with the selected page |
| ReviewHandlers.ListReviewsForProduct | cmd/api/review.go:215-252 | bad id 404; otherwise the product's page, or 422 / 500 as for ListReviews |
| ReviewHandlers.ListAllReviews | cmd/api/review.go:255-285 | the page over every review, or 422 / 500 |
| ProductHandlers.ProductLocationInjective | cmd/api/products.go:58 | different products get different Location headers |
| ProductHandlers.ProductLocation | cmd/api/products.go:58 | the Location is /v1/products/{id}, and the id reads back from it |
| ProductHandlers.MergeKeepsIdentity | cmd/api/products.go:131-149 | a patch never changes id, created_at or version |
| ProductHandlers.MergeEmptyAndIdempotent | cmd/api/products.go:131-149 | an empty patch changes nothing; a patch applied twice equals it applied once |
| ProductHandlers.Draft | cmd/api/products.go:31-39 | the product built from a create body passes validation exactly when the body's six fields meet their rules |
| ProductHandlers.MergeProduct | cmd/api/products.go:131-149 | a field the patch gives is taken from it; an absent field keeps the stored value |
| ProductHandlers.OverwriteWithMerge | cmd/api/products.go:131-168 | the stored row after the update is the merged product with the new version, which is what the response shows |
| ProductHandlers.SafeSortHasColumn | cmd/api/products.go:222 | every allow-listed product sort key names an existing column |
| ProductHandlers.CreateProduct | cmd/api/products.go:13-64 | undecodable body 400, invalid product 422 (nothing stored), store error 500; otherwise 201 with Location /v1/products/{id} and the product appended |
| ProductHandlers.CreatedProductIsFound | cmd/api/products.go:50-58 | a created product is found again by the id of its Location |
| ProductHandlers.DisplayProduct | cmd/api/products.go:67-93 | bad id 404; store error 500; otherwise 200 with the row with that id, or 404 |
| ProductHandlers.UpdateProduct | cmd/api/products.go:96-172 | 404 / 500 / 400 / 422 in source order with the table untouched; otherwise 200 with the merged product at version + 1, which replaces the stored row |
| ProductHandlers.DeleteProduct | cmd/api/products.go:175-201 | bad id 404; store error 500; 404 iff no row has the id; 200 iff one did, and then exactly it is gone |
| ProductHandlers.ListProducts | cmd/api/products.go:204-244 | name and category default to empty; invalid filters 422 without a query; store error 500; otherwise 200 with the selected page |
| Middleware.Swept | cmd/api/middleware.go:41-45 | a sweep keeps, unchanged, exactly the entries idle for at most three minutes |
| Middleware.Stale | cmd/api/middleware.go:42 | an entry is stale when it was last seen more than three minutes before now; it stays stale at every later time (StaleStaysStale) and exactly three minutes is not yet stale (SweepBoundary) |
| Middleware.StaleStaysStale | cmd/api/middleware.go:42 | once an entry is stale it is stale at every later time, so the sweep never has to revisit a decision |
| Middleware.SweepIdempotent | cmd/api/middleware.go:41-45 | a second sweep at the same time removes nothing |
| Middleware.LaterSweepSubsumes | cmd/api/middleware.go:36-45 | a sweep at a later time removes everything an earlier sweep would have removed |
| Middleware.SweepBoundary | cmd/api/middleware.go:42 | idle for exactly three minutes survives; one nanosecond more is removed |
| Middleware.ClientRegistry.Admit | cmd/api/middleware.go:50-78 | disabled: passes, map untouched; no host: 500, map untouched; otherwise only the IP's entry changes, a new IP gets a fresh limiter (2, 5), a known IP keeps its limiter, lastSeen becomes now before the decision, and the limiter's answer decides pass or 429 |
| Middleware.ClientRegistry.Sweep | cmd/api/middleware.go:39-46 | the loop deletes exactly the entries idle for more than three minutes and leaves the others unchanged |
| Middleware.AdmittedSurvivesSweep | cmd/api/middleware.go:42-68 | an entry seen at t survives unchanged every sweep up to t + 3 minutes |
| Middleware.RecoverPanic | cmd/api/middleware.go:12-25 | a panic becomes 500 with Connection: close; a returned response keeps its status and the connection |
| Middleware.Serve | cmd/api/routes.go:32 | recoverPanic(rateLimit(router)): a request reaches the handler only when the limiter is off or admits it; otherwise 429, or 500 for an unsplittable address |

## Left out

- Goroutines, the mutex and the once-a-minute sleep loop of the rate limiter
  (cmd/api/middleware.go:33-48) are not modelled. Each locked section is one
  atomic method, and the sweep is a method called with the time.
- The token bucket of `golang.org/x/time/rate` is not modelled. `Allow()` is
  the `allow` input. A limiter object keeps only its identity, its rate and
  its burst.
- The parsing rules of `net.SplitHostPort` are not modelled. Its result is
  the `host` input.
- In Go, `lastSeen` is written through a pointer to the client struct. Here
  the map entry is replaced by a new value that keeps the same limiter
  object. No other code holds these pointers, so nothing observable is lost.
- The helpers file (`readIDParam`, `readJSON`, `writeJSON`,
  `getSingleIntegerParameter`, `getSingleQueryParameter`, the error
  responses) is not part of this model. The handlers receive what those
  helpers produce. `readIDParam` is assumed to read the `:id` parameter and
  fail on anything that is not a positive integer, so a route id is a
  `RouteId` (an integer from 1) or None. As a consequence product id 0,
  which the review listing reads as "every product", is reached only
  through `ListAllReviews`. `getSingleQueryParameter`
  is assumed to return the default for a missing or empty value.
- A failure of `writeJSON` after a successful store call is not modelled.
  The handler would then send a 500 after the store had already changed.
- cmd/api/server.go is not part of this model: configuration, listening and
  graceful shutdown.
- The route table in cmd/api/routes.go is a registration into the router
  library and is not modelled. Only its composition line is modelled, as
  `Middleware.Serve`.
- The PostgreSQL full-text match
  `to_tsvector('simple', name) @@ plainto_tsquery('simple', $1)` is an
  abstract predicate `nameMatches`. The model does not know when a name
  matches a search.
- Text columns sort byte-wise, as under the C collation. The database's
  actual collation is not known to the model.
- `float64` prices and ratings are Dafny reals. Rounding and NaN are not
  modelled.
- Products.ProductModel.Insert, Reviews.ReviewModel.Insert: the new
  version is 1. This assumes the schema default, because the migrations are
  not part of this model.
- Reviews.ReviewModel.Update, Products.ProductModel.Update: `version` is
  `int32` and ids are `int64` in Go. Overflow of either is not modelled.
- Query timeouts and `Scan` or `rows.Err` failures during a listing are not
  modelled separately. Every database failure is the single `broken` input.
- `created_at` is an integer timestamp given to Insert, not a database
  clock.
- Filters.CalculateMetadata: states the page bounds only for a positive page
  size. A negative page size is rejected by validation before any query.

## Findings

| source | as written | input that shows it | evidently intended | confidence | as-written member | corrected member |
|---|---|---|---|---|---|---|
| cmd/api/review.go:76 (also 110 and 188) | the review id is read with `readIDParam`, the call that already read the product id, so both ids are the `:id` value | GET /v1/products/1/reviews/7 with review 7 of product 1 stored: the lookup asks for review 1 of product 1 and answers 404 | read the review id from `:review_id`, the route's second parameter (cmd/api/routes.go:27-29); the handlers model both readings, `DisplayReview` / `UpdateReview` / `DeleteReview` as written and the `…Corrected` methods as intended | not executed; assumes `readIDParam` reads `:id` | ReviewHandlers.AsWrittenMissesReview | ReviewHandlers.ReviewIDsFindEveryReview |
