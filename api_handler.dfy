/**
 * The enrichment adapter: the product catalogue becomes a table from numeric
 * product id to the product's details, and each sales record whose ProductID
 * reads "P<number>" is joined with the table entry of that number.
 */
module ApiHandler {
  import opened Wrappers
  import opened Text
  import opened Transactions

  /**
   * One product of the catalogue as the product service returns it; a key the
   * JSON object lacks is None.
   */
  datatype ApiProduct = ApiProduct(
    id: Option<int>,
    title: Option<string>,
    category: Option<string>,
    brand: Option<string>,
    rating: Option<real>)

  /** The value create_product_mapping stores for one product id. */
  datatype ProductInfo = ProductInfo(title: string, category: string, brand: string, rating: real)

  /** product['id'] raised KeyError on the product at this position. */
  datatype MappingError = MissingId(index: nat)

  /** dict.get(key, default). */
  function OrDefault<T>(v: Option<T>, default: T): T {
    if v.Some? then v.value else default
  }

  /** The details of one product, 'N/A' for a missing text and 0 for a missing rating. */
  function InfoOf(p: ApiProduct): ProductInfo {
    ProductInfo(OrDefault(p.title, "N/A"), OrDefault(p.category, "N/A"), OrDefault(p.brand, "N/A"), OrDefault(p.rating, 0.0))
  }

  /** Each field of the stored details is the product's own value, or its default. */
  lemma InfoDefaults(p: ApiProduct)
    ensures p.title.None? ==> InfoOf(p).title == "N/A"
    ensures p.category.None? ==> InfoOf(p).category == "N/A"
    ensures p.brand.None? ==> InfoOf(p).brand == "N/A"
    ensures p.rating.None? ==> InfoOf(p).rating == 0.0
    ensures p.title.Some? ==> InfoOf(p).title == p.title.value
    ensures p.category.Some? ==> InfoOf(p).category == p.category.value
    ensures p.brand.Some? ==> InfoOf(p).brand == p.brand.value
    ensures p.rating.Some? ==> InfoOf(p).rating == p.rating.value
  {
  }

  /**
   * The table create_product_mapping builds from the products, one after the
   * other: each product overwrites the entry of its id, and the first product
   * without an id stops the loop with an error.
   */
  function MappingOf(products: seq<ApiProduct>): Result<map<int, ProductInfo>, MappingError> {
    if products == [] then Success(map[])
    else
      match MappingOf(products[..|products| - 1])
      case Failure(e) => Failure(e)
      case Success(table) =>
        var p := products[|products| - 1];
        if p.id.None? then Failure(MissingId(|products| - 1))
        else Success(table[p.id.value := InfoOf(p)])
  }

  /** Once a prefix of the products fails, the whole list fails with the same error. */
  lemma {:induction false} MappingFailurePersists(products: seq<ApiProduct>, n: nat)
    requires n <= |products|
    requires MappingOf(products[..n]).Failure?
    ensures MappingOf(products) == MappingOf(products[..n])
    decreases |products| - n
  {
    if n < |products| {
      var longer := products[..n + 1];
      assert longer[..n] == products[..n];
      assert MappingOf(longer) == MappingOf(products[..n]);
      MappingFailurePersists(products, n + 1);
    } else {
      assert products[..n] == products;
    }
  }

  /** create_product_mapping: the id-to-details table of the catalogue. */
  method CreateProductMapping(apiProducts: seq<ApiProduct>) returns (mapping: Result<map<int, ProductInfo>, MappingError>)
    ensures mapping == MappingOf(apiProducts)
  {
    var table: map<int, ProductInfo> := map[];
    for i := 0 to |apiProducts|
      invariant MappingOf(apiProducts[..i]) == Success(table)
    {
      var product := apiProducts[i];
      assert apiProducts[..i + 1][..i] == apiProducts[..i];
      if product.id.None? {
        MappingFailurePersists(apiProducts, i + 1);
        return Failure(MissingId(i));
      }
      table := table[product.id.value := InfoOf(product)];
    }
    assert apiProducts[..|apiProducts|] == apiProducts;
    mapping := Success(table);
  }

  /**
   * The table is built exactly when every product has an id, and then its keys
   * are the ids of the products, one entry per distinct id.
   */
  lemma {:induction false} MappingKeys(products: seq<ApiProduct>)
    ensures MappingOf(products).Success? <==> forall i :: 0 <= i < |products| ==> products[i].id.Some?
    ensures MappingOf(products).Success? ==>
      MappingOf(products).value.Keys == set i | 0 <= i < |products| && products[i].id.Some? :: products[i].id.value
  {
    if products != [] {
      var init := products[..|products| - 1];
      var p := products[|products| - 1];
      MappingKeys(init);
      assert forall i :: 0 <= i < |init| ==> init[i] == products[i];
      if MappingOf(products).Success? {
        var ids := set i | 0 <= i < |products| && products[i].id.Some? :: products[i].id.value;
        var initIds := set i | 0 <= i < |init| && init[i].id.Some? :: init[i].id.value;
        assert ids == initIds + {p.id.value} by {
          forall k | k in ids ensures k in initIds + {p.id.value} {
            var i :| 0 <= i < |products| && products[i].id.Some? && products[i].id.value == k;
            if i < |init| {
              assert init[i].id.value == k;
            }
          }
        }
      }
    }
  }

  /** When the table is not built, the error names the first product without an id. */
  lemma {:induction false} MappingFailsAtFirstMissing(products: seq<ApiProduct>)
    requires MappingOf(products).Failure?
    ensures var j := MappingOf(products).error.index;
      && j < |products|
      && products[j].id.None?
      && forall l :: 0 <= l < j ==> products[l].id.Some?
  {
    var init := products[..|products| - 1];
    if MappingOf(init).Failure? {
      MappingFailsAtFirstMissing(init);
    } else {
      MappingKeys(init);
    }
  }

  /** The entry of an id holds the details of the last product with that id. */
  lemma {:induction false} MappingLastWins(products: seq<ApiProduct>, j: nat)
    requires MappingOf(products).Success?
    requires j < |products| && products[j].id.Some?
    requires forall l :: j < l < |products| ==> products[l].id != products[j].id
    ensures products[j].id.value in MappingOf(products).value
    ensures MappingOf(products).value[products[j].id.value] == InfoOf(products[j])
  {
    var init := products[..|products| - 1];
    if j < |products| - 1 {
      assert init[j] == products[j];
      MappingLastWins(init, j);
    }
  }

  /* ---------------- enrich_sales_data ---------------- */

  /** A sales record with the four fields the enrichment adds. */
  datatype EnrichedTransaction = EnrichedTransaction(
    base: Transaction,
    apiCategory: Option<string>,
    apiBrand: Option<string>,
    apiRating: Option<real>,
    apiMatch: bool)

  /**
   * The catalogue number a ProductID names: the text after a leading "P", read
   * as int() reads it (surrounding whitespace other than U+001C to U+001F
   * allowed); None when the ProductID does not start with "P" or the rest is not
   * an integer (the ValueError swallowed).
   */
  function CatalogId(productId: string): Option<int> {
    if StartsWith(productId, "P") then IntValue(productId[1..]) else None
  }

  /**
   * One record enriched against the table: the entry's category, brand and
   * rating on a hit; None, None, None and no match otherwise. A table entry is
   * a non-empty dictionary, so it is always truthy: a hit is a present key.
   */
  function Enrich(t: Transaction, mapping: map<int, ProductInfo>): EnrichedTransaction {
    var id := CatalogId(t.productId);
    if id.Some? && id.value in mapping then
      var info := mapping[id.value];
      EnrichedTransaction(t, Some(info.category), Some(info.brand), Some(info.rating), true)
    else
      EnrichedTransaction(t, None, None, None, false)
  }

  /** enrich_sales_data: each record, in order, with its enrichment fields. */
  method EnrichSalesData(transactions: seq<Transaction>, productMapping: map<int, ProductInfo>)
    returns (enriched: seq<EnrichedTransaction>)
    ensures |enriched| == |transactions|
    ensures forall i :: 0 <= i < |transactions| ==> enriched[i] == Enrich(transactions[i], productMapping)
  {
    enriched := [];
    for i := 0 to |transactions|
      invariant |enriched| == i
      invariant forall l :: 0 <= l < i ==> enriched[l] == Enrich(transactions[l], productMapping)
    {
      var record := EnrichOne(transactions[i], productMapping);
      enriched := enriched + [record];
    }
  }

  /** The body of the loop of enrich_sales_data: defaults first, then the lookup. */
  method EnrichOne(transaction: Transaction, productMapping: map<int, ProductInfo>) returns (record: EnrichedTransaction)
    ensures record == Enrich(transaction, productMapping)
  {
    record := EnrichedTransaction(transaction, None, None, None, false);
    var productIdText := transaction.productId;
    if StartsWith(productIdText, "P") {
      var productId := IntValue(productIdText[1..]);
      if productId.Some? && productId.value in productMapping {
        var info := productMapping[productId.value];
        record := record.(apiCategory := Some(info.category), apiBrand := Some(info.brand),
                          apiRating := Some(info.rating), apiMatch := true);
      }
    }
  }

  /** "P" followed by str(n) names catalogue number n. */
  lemma CatalogIdOf(n: int)
    ensures CatalogId("P" + IntToString(n)) == Some(n)
  {
    var pid := "P" + IntToString(n);
    assert StartsWith(pid, "P");
    assert pid[1..] == IntToString(n);
    IntToStringEdges(n);
    ParseIntRoundTrip(n);
  }

  /** str(n) has no whitespace at either end, so int() reads all of it. */
  lemma IntToStringEdges(n: int)
    ensures IntCore(IntToString(n)) == IntToString(n)
  {
    var s := IntToString(n);
    ParseIntRoundTrip(n);
    assert s[0] == '-' || IsDigit(s[0]);
    assert IsDigit(s[|s| - 1]);
    assert NoEdgeSpace(s);
    IntCoreUnchanged(s);
  }

  /** A catalogue number comes only from a ProductID that starts with "P" and has more after it. */
  lemma CatalogIdShape(productId: string)
    requires CatalogId(productId).Some?
    ensures |productId| >= 2 && productId[0] == 'P'
  {
    assert StartsWith(productId, "P");
    assert productId[0] == productId[..1][0];
    var rest := productId[1..];
    assert ParseInt(IntCore(rest)).Some?;
    assert 0 < |IntCore(rest)| <= |rest|;
  }

  /**
   * The record keeps every original field; it is a match exactly when its
   * ProductID names a catalogue number the table holds, and then carries that
   * entry's category, brand and rating; otherwise all three are None.
   */
  lemma EnrichFields(t: Transaction, mapping: map<int, ProductInfo>)
    ensures Enrich(t, mapping).base == t
    ensures Enrich(t, mapping).apiMatch <==> exists n :: CatalogId(t.productId) == Some(n) && n in mapping
    ensures Enrich(t, mapping).apiMatch ==>
      var info := mapping[CatalogId(t.productId).value];
      && Enrich(t, mapping).apiCategory == Some(info.category)
      && Enrich(t, mapping).apiBrand == Some(info.brand)
      && Enrich(t, mapping).apiRating == Some(info.rating)
    ensures !Enrich(t, mapping).apiMatch ==>
      Enrich(t, mapping).apiCategory.None? && Enrich(t, mapping).apiBrand.None? && Enrich(t, mapping).apiRating.None?
  {
    var id := CatalogId(t.productId);
    if id.Some? && id.value in mapping {
      assert CatalogId(t.productId) == Some(id.value);
    }
  }

  /** A ProductID whose rest is not an integer is left unmatched, and the record is still kept. */
  lemma UnreadableIdUnmatched(t: Transaction, mapping: map<int, ProductInfo>)
    requires StartsWith(t.productId, "P") && IntValue(t.productId[1..]).None?
    ensures Enrich(t, mapping) == EnrichedTransaction(t, None, None, None, false)
  {
  }

  /**
   * A ProductID with a separator control (U+001C to U+001F) anywhere after its
   * "P" is left unmatched, because int() rejects the rest, whatever the table.
   */
  lemma SeparatorIdUnmatched(t: Transaction, mapping: map<int, ProductInfo>, k: int)
    requires 1 <= k < |t.productId| && IsSeparatorControl(t.productId[k])
    ensures Enrich(t, mapping) == EnrichedTransaction(t, None, None, None, false)
  {
    if StartsWith(t.productId, "P") {
      var rest := t.productId[1..];
      assert rest[k - 1] == t.productId[k];
      SeparatorNotInt(rest, k - 1);
    }
  }

  /**
   * Against the table of a catalogue, the record "P" + str(n) is a match
   * exactly when some product of the catalogue has id n, and then carries the
   * details of the last such product.
   */
  lemma EnrichAgainstCatalogue(t: Transaction, products: seq<ApiProduct>, n: int)
    requires MappingOf(products).Success?
    requires t.productId == "P" + IntToString(n)
    ensures Enrich(t, MappingOf(products).value).apiMatch <==>
      exists i :: 0 <= i < |products| && products[i].id == Some(n)
    ensures forall j :: (0 <= j < |products| && products[j].id == Some(n)
      && (forall l :: j < l < |products| ==> products[l].id != Some(n))) ==>
      Enrich(t, MappingOf(products).value).apiCategory == Some(InfoOf(products[j]).category)
  {
    var mapping := MappingOf(products).value;
    CatalogIdOf(n);
    MappingKeys(products);
    if n in mapping {
      var i :| 0 <= i < |products| && products[i].id.Some? && products[i].id.value == n;
      assert products[i].id == Some(n);
    }
    forall j | 0 <= j < |products| && products[j].id == Some(n)
      && (forall l :: j < l < |products| ==> products[l].id != Some(n))
      ensures Enrich(t, mapping).apiCategory == Some(InfoOf(products[j]).category)
    {
      MappingLastWins(products, j);
    }
  }
}
