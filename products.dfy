/**
 * The products data model (internal/data/products.go): record validation and
 * the SQL statements of ProductModel, run against an in-memory products table.
 */
module Products {

  import opened Wrappers
  import opened Text
  import opened Validator
  import opened Filters
  import opened Listing
  import opened DbErrors

  /** A row of the products table. Prices and ratings are reals; times are nanosecond instants. */
  datatype Product = Product(
    id: int,
    name: Bytes,
    description: Bytes,
    category: Bytes,
    price: real,
    imageURL: Bytes,
    averageRating: real,
    createdAt: int,
    version: int)

  const MaxNameLength := 100
  const MaxDescriptionLength := 500
  const MaxImageURLLength := 255

  /** The version a freshly inserted row carries (the column's default). */
  const InitialVersion := 1

  predicate ValidProduct(p: Product)
  {
    && p.name != [] && |p.name| <= MaxNameLength
    && p.description != [] && |p.description| <= MaxDescriptionLength
    && p.category != []
    && p.price > 0.0
    && |p.imageURL| <= MaxImageURLLength
    && 0.0 <= p.averageRating <= 5.0
  }

  /** ValidateProduct: the eight checks, adding failing keys to `v`. */
  function ValidateProduct(v: Errors, p: Product): (errs: Errors)
    ensures v <= errs <= v + {"name", "description", "category", "price", "image_url", "average_rating"}
    ensures "name" in errs <==> "name" in v || p.name == [] || |p.name| > MaxNameLength
    ensures "description" in errs <==> "description" in v || p.description == [] || |p.description| > MaxDescriptionLength
    ensures "category" in errs <==> "category" in v || p.category == []
    ensures "price" in errs <==> "price" in v || p.price <= 0.0
    ensures "image_url" in errs <==> "image_url" in v || |p.imageURL| > MaxImageURLLength
    ensures "average_rating" in errs <==> "average_rating" in v || !(0.0 <= p.averageRating <= 5.0)
    ensures errs == {} <==> v == {} && ValidProduct(p)
  {
    var v := Check(v, p.name != [], "name");
    var v := Check(v, |p.name| <= MaxNameLength, "name");
    var v := Check(v, p.description != [], "description");
    var v := Check(v, |p.description| <= MaxDescriptionLength, "description");
    var v := Check(v, p.category != [], "category");
    var v := Check(v, p.price > 0.0, "price");
    var v := Check(v, |p.imageURL| <= MaxImageURLLength, "image_url");
    Check(v, p.averageRating >= 0.0 && p.averageRating <= 5.0, "average_rating")
  }

  /** An empty image URL is allowed: only its length is checked. */
  lemma EmptyImageURLAllowed(v: Errors, p: Product)
    requires "image_url" !in v
    ensures "image_url" !in ValidateProduct(v, p.(imageURL := []))
  {
  }

  function ProductId(p: Product): int
  {
    p.id
  }

  function HasId(id: int): (sel: Product -> bool)
    ensures forall p :: sel(p) <==> ProductId(p) == id
    ensures forall rows, nextID :: SelectsAtMostOne(rows, ProductId, nextID, sel)
  {
    (p: Product) => p.id == id
  }

  /**
   * WHERE (to_tsvector('simple', name) @@ plainto_tsquery('simple', $1) OR $1 = '')
   *   AND (category = $2 OR $2 = '')
   * The full-text match is the abstract predicate `nameMatches(column, query)`.
   */
  function ProductWhere(name: Bytes, category: Bytes, nameMatches: (Bytes, Bytes) -> bool): (sel: Product -> bool)
    ensures name == [] && category == [] ==> forall p :: sel(p)
    ensures name != [] ==> forall p :: sel(p) ==> nameMatches(p.name, name)
    ensures category != [] ==> forall p :: sel(p) ==> p.category == category
  {
    (p: Product) => (nameMatches(p.name, name) || name == []) && (p.category == category || category == [])
  }

  /** The products table's columns as ORDER BY sees them; None for a name that is not a column. */
  function ProductColumn(name: string): Option<Product -> SortValue>
  {
    if name == "id" then Some((p: Product) => IntKey(p.id))
    else if name == "created_at" then Some((p: Product) => IntKey(p.createdAt))
    else if name == "name" then Some((p: Product) => TextKey(p.name))
    else if name == "description" then Some((p: Product) => TextKey(p.description))
    else if name == "category" then Some((p: Product) => TextKey(p.category))
    else if name == "price" then Some((p: Product) => RealKey(p.price))
    else if name == "image_url" then Some((p: Product) => TextKey(p.imageURL))
    else if name == "average_rating" then Some((p: Product) => RealKey(p.averageRating))
    else if name == "version" then Some((p: Product) => IntKey(p.version))
    else None
  }

  /** ORDER BY <sortColumn> <sortDirection>, id ASC */
  function ProductOrdering(f: Filters): Option<Ordering<Product>>
  {
    match ProductColumn(TrimPrefix(f.sort, "-"))
    case None => None
    case Some(key) => Some(Ordering(key, ProductId, SortDirection(f) == "DESC"))
  }

  /** The UPDATE's SET list applied to a stored row. */
  function Overwrite(row: Product, product: Product): (r: Product)
    ensures ValidProduct(r) <==> ValidProduct(product)
    ensures ProductId(r) == ProductId(row) && r.createdAt == row.createdAt
  {
    row.(name := product.name, description := product.description, category := product.category,
         price := product.price, imageURL := product.imageURL, averageRating := product.averageRating,
         version := row.version + 1)
  }

  /** The products table, changed in place by Insert, Update and Delete. */
  class ProductModel {
    var rows: seq<Product>
    var nextID: int

    ghost predicate Valid()
      reads this
    {
      KeyedBy(rows, ProductId, nextID)
    }

    constructor ()
      ensures Valid() && rows == []
    {
      rows := [];
      nextID := 1;
    }

    /**
     * Insert: the database assigns id, created_at and version and the method
     * writes them back into the product, returned here. `broken` stands for
     * any database failure.
     */
    method Insert(product: Product, now: int, broken: bool) returns (res: Result<Product, DbError>)
      requires Valid()
      modifies this
      ensures Valid()
      ensures broken ==> res == Failure(ErrDatabase) && rows == old(rows) && nextID == old(nextID)
      ensures !broken ==> res == Success(product.(id := old(nextID), createdAt := now, version := InitialVersion))
      ensures !broken ==> rows == old(rows) + [res.value]
      ensures !broken ==> forall i :: 0 <= i < |old(rows)| ==> old(rows)[i].id != res.value.id
    {
      if broken {
        return Failure(ErrDatabase);
      }
      var stored := product.(id := nextID, createdAt := now, version := InitialVersion);
      rows := rows + [stored];
      nextID := nextID + 1;
      return Success(stored);
    }

    /** Get: an id below 1 is not found without asking the database. */
    method Get(id: int, broken: bool) returns (res: Result<Product, DbError>)
      ensures id < 1 ==> res == Failure(ErrRecordNotFound)
      ensures id >= 1 && broken ==> res == Failure(ErrDatabase)
      ensures id >= 1 && !broken ==> (res.Success? <==> exists i :: 0 <= i < |rows| && rows[i].id == id)
      ensures res.Failure? && !broken ==> res.error == ErrRecordNotFound
      ensures res.Success? ==> res.value in rows && res.value.id == id
    {
      if id < 1 {
        return Failure(ErrRecordNotFound);
      }
      if broken {
        return Failure(ErrDatabase);
      }
      var k := FindIndex(rows, HasId(id));
      if k.None? {
        return Failure(ErrRecordNotFound);
      }
      return Success(rows[k.value]);
    }

    /**
     * Update: overwrites the six editable columns of the row with the
     * product's id and bumps its version, returning the new version. No
     * matching row gives the unmapped sql.ErrNoRows.
     */
    method Update(product: Product, broken: bool) returns (res: Result<int, DbError>)
      requires Valid()
      modifies this
      ensures Valid() && nextID == old(nextID)
      ensures broken ==> res == Failure(ErrDatabase) && rows == old(rows)
      ensures !broken ==>
        match FindIndex(old(rows), HasId(product.id))
        case None => res == Failure(ErrNoRows) && rows == old(rows)
        case Some(k) =>
          && res == Success(old(rows)[k].version + 1)
          && rows == old(rows)[k := Overwrite(old(rows)[k], product)]
    {
      if broken {
        return Failure(ErrDatabase);
      }
      var k := FindIndex(rows, HasId(product.id));
      if k.None? {
        return Failure(ErrNoRows);
      }
      var updated := Overwrite(rows[k.value], product);
      rows := rows[k.value := updated];
      return Success(updated.version);
    }

    /**
     * Delete: an id below 1, or a statement that affects no row, gives
     * ErrRecordNotFound.
     */
    method Delete(id: int, broken: bool) returns (err: Option<DbError>)
      requires Valid()
      modifies this
      ensures Valid() && nextID == old(nextID)
      ensures id < 1 ==> err == Some(ErrRecordNotFound) && rows == old(rows)
      ensures id >= 1 && broken ==> err == Some(ErrDatabase) && rows == old(rows)
      ensures id >= 1 && !broken ==>
        (err == Some(ErrRecordNotFound) <==> forall i :: 0 <= i < |old(rows)| ==> old(rows)[i].id != id)
      ensures err.Some? ==> rows == old(rows)
      ensures !broken && err.Some? ==> err == Some(ErrRecordNotFound)
      ensures err.None? ==> forall p :: p in rows <==> p in old(rows) && p.id != id
    {
      if id < 1 {
        return Some(ErrRecordNotFound);
      }
      if broken {
        return Some(ErrDatabase);
      }
      var keep := (p: Product) => p.id != id;
      var remaining := Filter(rows, keep);
      FilterDropsNothingIff(rows, keep);
      FilterKeepsKeys(rows, ProductId, nextID, keep);
      var rowsAffected := |rows| - |remaining|;
      if rowsAffected == 0 {
        return Some(ErrRecordNotFound);
      }
      rows := remaining;
      return None;
    }

    /**
     * GetAll: the products whose name matches the search and whose category
     * equals the given one (an empty value imposes nothing), sorted and paged.
     * The filters' sort key must be in their allow-list: sortColumn panics
     * otherwise. An unknown column, a negative LIMIT or OFFSET, or a database
     * failure is a query error.
     */
    method GetAll(name: Bytes, category: Bytes, f: Filters, nameMatches: (Bytes, Bytes) -> bool, broken: bool)
      returns (res: Result<Page<Product>, DbError>)
      requires f.sort in f.sortSafeList
      ensures res.Success? <==> !broken && ProductOrdering(f).Some? && f.pageSize >= 0 && Offset(f) >= 0
      ensures res.Failure? ==> res.error == ErrDatabase
      ensures res.Success? ==>
        res.value == Select(rows, ProductWhere(name, category, nameMatches), ProductOrdering(f).value, f)
    {
      var column := SortColumn(f);
      var key := ProductColumn(column.value);
      if broken || key.None? || Limit(f) < 0 || Offset(f) < 0 {
        return Failure(ErrDatabase);
      }
      var ord := Ordering(key.value, ProductId, SortDirection(f) == "DESC");
      var where := ProductWhere(name, category, nameMatches);
      var resultSet := ResultSet(rows, where, ord, Limit(f), Offset(f));
      var items, metadata := ScanRows(resultSet, f.page, f.pageSize);
      ScanOfResultSet(rows, where, ord, f, items, metadata);
      return Success(Page(items, metadata));
    }
  }

  /** A stored product's id picks out that row and no other, because ids are distinct. */
  lemma HasIdOneRow(rows: seq<Product>, nextID: int, i: int)
    requires KeyedBy(rows, ProductId, nextID) && 0 <= i < |rows|
    ensures FindIndex(rows, HasId(rows[i].id)) == Some(i)
  {
    LocateByKey(rows, ProductId, nextID, HasId(rows[i].id), i);
  }

  /** No stored product has an id below 1, which is why Get and Delete need not ask. */
  lemma NoRowBelowOne(rows: seq<Product>, nextID: int, id: int)
    requires KeyedBy(rows, ProductId, nextID) && id < 1
    ensures FindIndex(rows, HasId(id)).None?
  {
  }

  /** With no name and no category every product is considered. */
  lemma EmptySearchListsAll(rows: seq<Product>, nameMatches: (Bytes, Bytes) -> bool)
    ensures Filter(rows, ProductWhere([], [], nameMatches)) == rows
  {
    FilterAll(rows, ProductWhere([], [], nameMatches));
  }

  /** A non-empty category admits exactly the products of that category (name search aside). */
  lemma CategoryFilterIsEquality(rows: seq<Product>, category: Bytes, nameMatches: (Bytes, Bytes) -> bool, p: Product)
    requires category != []
    ensures p in Filter(rows, ProductWhere([], category, nameMatches)) <==> p in rows && p.category == category
  {
  }

  /** Without a category the name search alone decides: every full-text match is listed. */
  lemma NameFilterSelects(rows: seq<Product>, name: Bytes, nameMatches: (Bytes, Bytes) -> bool, p: Product)
    ensures p in Filter(rows, ProductWhere(name, [], nameMatches)) <==> p in rows && (name == [] || nameMatches(p.name, name))
  {
  }

  /** With both a name and a category, a product is listed iff it matches both. */
  lemma BothFiltersSelect(rows: seq<Product>, name: Bytes, category: Bytes, nameMatches: (Bytes, Bytes) -> bool, p: Product)
    requires name != [] && category != []
    ensures p in Filter(rows, ProductWhere(name, category, nameMatches))
        <==> p in rows && nameMatches(p.name, name) && p.category == category
  {
  }

  lemma OverwriteKeepsIdentity(row: Product, product: Product)
    ensures var r := Overwrite(row, product);
      && r.id == row.id && r.createdAt == row.createdAt
      && r.name == product.name && r.description == product.description && r.category == product.category
      && r.price == product.price && r.imageURL == product.imageURL && r.averageRating == product.averageRating
      && r.version == row.version + 1
  {
  }
}
