/**
 * The product handlers: create, display, update, delete and the filtered,
 * sorted, paged listing, each an early-return method over the products store.
 */
module ProductHandlers {

  import opened Wrappers
  import opened Text
  import opened Validator
  import opened Filters
  import opened Listing
  import opened DbErrors
  import opened Products
  import opened Http

  /** The body of a create request; a missing average rating decodes as 0. */
  datatype ProductInput = ProductInput(
    name: Bytes,
    description: Bytes,
    category: Bytes,
    price: real,
    imageURL: Bytes,
    averageRating: real)

  /** The body of an update request: every field optional. */
  datatype ProductPatch = ProductPatch(
    name: Option<Bytes>,
    description: Option<Bytes>,
    category: Option<Bytes>,
    price: Option<real>,
    imageURL: Option<Bytes>,
    averageRating: Option<real>)

  /** The list request's search terms (None when missing or empty) and its filters. */
  datatype ProductQuery = ProductQuery(name: Option<Bytes>, category: Option<Bytes>, list: ListQuery)

  const ProductSortSafeList := ["id", "name", "-id", "-name", "price", "-price", "average_rating", "-average_rating"]
  const DeletedMessage := "product successfully deleted"

  /** Location of a product: /v1/products/{id}. */
  function ProductLocation(id: int): (loc: string)
    ensures |loc| > |ProductsPath| && loc[..|ProductsPath|] == ProductsPath
    ensures ParseInt(loc[|ProductsPath|..]) == Some(id)
  {
    FormatIntRoundTrip(id);
    var loc := ProductsPath + FormatInt(id);
    assert loc[|ProductsPath|..] == FormatInt(id);
    loc
  }

  /** Different products are created at different locations. */
  lemma ProductLocationInjective(a: int, b: int)
    requires ProductLocation(a) == ProductLocation(b)
    ensures a == b
  {
    assert FormatInt(a) == ProductLocation(a)[|ProductsPath|..];
    assert FormatInt(b) == ProductLocation(b)[|ProductsPath|..];
    FormatIntInjective(a, b);
  }

  /** The product a create request describes, before the database fills in the rest. */
  function Draft(input: ProductInput): (p: Product)
    ensures ValidProduct(p) <==>
      && input.name != [] && |input.name| <= MaxNameLength
      && input.description != [] && |input.description| <= MaxDescriptionLength
      && input.category != [] && input.price > 0.0 && |input.imageURL| <= MaxImageURLLength
      && 0.0 <= input.averageRating <= 5.0
  {
    Product(0, input.name, input.description, input.category, input.price, input.imageURL, input.averageRating, 0, 0)
  }

  /** The update handler's field-by-field merge of a patch into the stored product. */
  function MergeProduct(stored: Product, patch: ProductPatch): (p: Product)
    ensures patch.name.Some? ==> p.name == patch.name.value
    ensures patch.description.Some? ==> p.description == patch.description.value
    ensures patch.category.Some? ==> p.category == patch.category.value
    ensures patch.price.Some? ==> p.price == patch.price.value
    ensures patch.imageURL.Some? ==> p.imageURL == patch.imageURL.value
    ensures patch.averageRating.Some? ==> p.averageRating == patch.averageRating.value
    ensures patch.name.None? ==> p.name == stored.name
    ensures patch.description.None? ==> p.description == stored.description
    ensures patch.category.None? ==> p.category == stored.category
    ensures patch.price.None? ==> p.price == stored.price
    ensures patch.imageURL.None? ==> p.imageURL == stored.imageURL
    ensures patch.averageRating.None? ==> p.averageRating == stored.averageRating
  {
    stored.(
      name := if patch.name.Some? then patch.name.value else stored.name,
      description := if patch.description.Some? then patch.description.value else stored.description,
      category := if patch.category.Some? then patch.category.value else stored.category,
      price := if patch.price.Some? then patch.price.value else stored.price,
      imageURL := if patch.imageURL.Some? then patch.imageURL.value else stored.imageURL,
      averageRating := if patch.averageRating.Some? then patch.averageRating.value else stored.averageRating)
  }

  /** A patch never touches the id, creation time or version. */
  lemma MergeKeepsIdentity(stored: Product, patch: ProductPatch)
    ensures var p := MergeProduct(stored, patch);
      p.id == stored.id && p.createdAt == stored.createdAt && p.version == stored.version
  {
  }

  /** An empty patch changes nothing; applying a patch twice is applying it once. */
  lemma MergeEmptyAndIdempotent(stored: Product, patch: ProductPatch)
    ensures MergeProduct(stored, ProductPatch(None, None, None, None, None, None)) == stored
    ensures MergeProduct(MergeProduct(stored, patch), patch) == MergeProduct(stored, patch)
  {
  }

  /** The row the UPDATE leaves behind is the merged product with the returned version. */
  lemma OverwriteWithMerge(stored: Product, patch: ProductPatch)
    ensures Overwrite(stored, MergeProduct(stored, patch))
         == MergeProduct(stored, patch).(version := stored.version + 1)
  {
  }

  /** Filters that pass validation name one of the products table's columns. */
  lemma SafeSortHasColumn(f: Filters)
    requires f.sortSafeList == ProductSortSafeList && f.sort in f.sortSafeList
    ensures ProductOrdering(f).Some?
  {
    var s := f.sort;
    if s == "id" || s == "name" || s == "price" || s == "average_rating" {
      assert s[0] != '-' && s[..1][0] == s[0];
      assert TrimPrefix(s, "-") == s;
    } else {
      assert s == "-id" || s == "-name" || s == "-price" || s == "-average_rating";
      assert HasPrefix(s, "-");
      assert TrimPrefix(s, "-") == s[1..];
      assert s[1..] == "id" || s[1..] == "name" || s[1..] == "price" || s[1..] == "average_rating";
    }
  }

  method CreateProduct(model: ProductModel, input: Option<ProductInput>, now: int, broken: bool)
    returns (resp: Response<Product>)
    requires model.Valid()
    modifies model
    ensures model.Valid()
    ensures !resp.Created? ==> model.rows == old(model.rows)
    ensures input.None? ==> resp == BadRequest
    ensures input.Some? ==>
      var draft := Draft(input.value);
      var errs := ValidateProduct(New, draft);
      && (errs != {} ==> resp == FailedValidation(errs))
      && (errs == {} && broken ==> resp == ServerError)
      && (errs == {} && !broken ==>
            && resp.Created?
            && resp.body == draft.(id := old(model.nextID), createdAt := now, version := InitialVersion)
            && resp.location == ProductLocation(resp.body.id)
            && model.rows == old(model.rows) + [resp.body])
  {
    if input.None? {
      return BadRequest;
    }
    var product := Draft(input.value);
    var v := ValidateProduct(New, product);
    if v != {} {
      return FailedValidation(v);
    }
    var res := model.Insert(product, now, broken);
    if res.Failure? {
      return ServerError;
    }
    product := res.value;
    return Created(ProductLocation(product.id), product);
  }

  /** A created product is found again by the id of its Location. */
  lemma CreatedProductIsFound(rows: seq<Product>, nextID: int, created: Product)
    requires KeyedBy(rows + [created], ProductId, nextID)
    ensures FindIndex(rows + [created], HasId(created.id)) == Some(|rows|)
  {
    HasIdOneRow(rows + [created], nextID, |rows|);
  }

  method DisplayProduct(model: ProductModel, id: Option<RouteId>, broken: bool) returns (resp: Response<Product>)
    requires model.Valid()
    ensures id.None? ==> resp == NotFound
    ensures id.Some? ==>
      resp == if broken then ServerError
              else match FindIndex(model.rows, HasId(id.value))
                case None => NotFound
                case Some(k) => Ok(model.rows[k])
  {
    if id.None? {
      return NotFound;
    }
    var res := model.Get(id.value, broken);
    if res.Failure? {
      return StoreErrorResponse(res.error);
    }
    LocateStoredRow(model.rows, ProductId, model.nextID, HasId(id.value), res.value);
    return Ok(res.value);
  }

  method UpdateProduct(model: ProductModel, id: Option<RouteId>, patch: Option<ProductPatch>, getBroken: bool, updateBroken: bool)
    returns (resp: Response<Product>)
    requires model.Valid()
    modifies model
    ensures model.Valid()
    ensures !resp.Ok? ==> model.rows == old(model.rows)
    ensures id.None? ==> resp == NotFound
    ensures id.Some? && getBroken ==> resp == ServerError
    ensures id.Some? && !getBroken ==>
      match FindIndex(old(model.rows), HasId(id.value))
      case None => resp == NotFound
      case Some(k) =>
        if patch.None? then resp == BadRequest
        else
          var merged := MergeProduct(old(model.rows)[k], patch.value);
          var errs := ValidateProduct(New, merged);
          if errs != {} then resp == FailedValidation(errs)
          else if updateBroken then resp == ServerError
          else
            && resp == Ok(merged.(version := old(model.rows)[k].version + 1))
            && model.rows == old(model.rows)[k := resp.body]
  {
    if id.None? {
      return NotFound;
    }
    var res := model.Get(id.value, getBroken);
    if res.Failure? {
      return StoreErrorResponse(res.error);
    }
    LocateStoredRow(model.rows, ProductId, model.nextID, HasId(id.value), res.value);
    if patch.None? {
      return BadRequest;
    }
    var stored := res.value;
    var product := MergeProduct(stored, patch.value);
    var v := ValidateProduct(New, product);
    if v != {} {
      return FailedValidation(v);
    }
    var version := model.Update(product, updateBroken);
    if version.Failure? {
      return ServerError;
    }
    OverwriteWithMerge(stored, patch.value);
    product := product.(version := version.value);
    return Ok(product);
  }

  method DeleteProduct(model: ProductModel, id: Option<RouteId>, broken: bool) returns (resp: Response<string>)
    requires model.Valid()
    modifies model
    ensures model.Valid()
    ensures !resp.Ok? ==> model.rows == old(model.rows)
    ensures id.None? ==> resp == NotFound
    ensures id.Some? && broken ==> resp == ServerError
    ensures id.Some? && !broken ==>
      && (resp == NotFound <==> FindIndex(old(model.rows), HasId(id.value)).None?)
      && (resp.Ok? <==> FindIndex(old(model.rows), HasId(id.value)).Some?)
    ensures resp.Ok? ==> resp.body == DeletedMessage
    ensures resp.Ok? ==> forall p :: p in model.rows <==> p in old(model.rows) && p.id != id.value
  {
    if id.None? {
      return NotFound;
    }
    ghost var before := model.rows;
    var err := model.Delete(id.value, broken);
    if err == Some(ErrRecordNotFound) {
      assert forall i :: 0 <= i < |before| ==> !HasId(id.value)(before[i]);
    }
    if err.Some? {
      return StoreErrorResponse(err.value);
    }
    return Ok(DeletedMessage);
  }

  method ListProducts(model: ProductModel, q: ProductQuery, nameMatches: (Bytes, Bytes) -> bool, broken: bool)
    returns (resp: Response<Page<Product>>)
    ensures var name := if q.name.Some? then q.name.value else [];
      var category := if q.category.Some? then q.category.value else [];
      var (f, v) := ReadFilters(q.list, ProductSortSafeList);
      var errs := ValidateFilters(v, f);
      && (errs != {} ==> resp == FailedValidation(errs))
      && (errs == {} && broken ==> resp == ServerError)
      && (errs == {} && !broken ==>
            && ProductOrdering(f).Some?
            && resp == Ok(Select(model.rows, ProductWhere(name, category, nameMatches), ProductOrdering(f).value, f)))
  {
    var name := if q.name.Some? then q.name.value else [];
    var category := if q.category.Some? then q.category.value else [];
    var (filters, v) := ReadFilters(q.list, ProductSortSafeList);
    v := ValidateFilters(v, filters);
    if v != {} {
      return FailedValidation(v);
    }
    SafeSortHasColumn(filters);
    var res := model.GetAll(name, category, filters, nameMatches, broken);
    if res.Failure? {
      return ServerError;
    }
    return Ok(res.value);
  }
}
