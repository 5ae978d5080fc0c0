/**
 * The aggregations of utils/data_processor.py. Each fills a dictionary with
 * Grouping.Accumulate, derives one row per key in the dictionary's insertion
 * order, and orders the rows with Python's stable sort.
 */
module DataProcessor {
  import opened Wrappers
  import opened Text
  import opened Sequences
  import opened Transactions
  import opened Grouping

  /* ---------------- calculate_total_revenue ---------------- */

  /** calculate_total_revenue: the sum of Quantity * UnitPrice over all transactions. */
  method CalculateTotalRevenue(txs: seq<Transaction>) returns (total: real)
    ensures total == Revenue(txs)
  {
    total := 0.0;
    for i := 0 to |txs|
      invariant total == Revenue(txs[..i])
    {
      RevenueSnoc(txs[..i], txs[i]);
      assert txs[..i + 1] == txs[..i] + [txs[i]];
      total := total + Amount(txs[i]);
    }
    assert txs[..|txs|] == txs;
  }

  /** Revenue is additive over concatenation, and the empty input has revenue 0. */
  lemma RevenueAdditive(a: seq<Transaction>, b: seq<Transaction>)
    ensures Revenue(a + b) == Revenue(a) + Revenue(b)
    ensures Revenue([]) == 0.0
  {
    SumRealAppend(a, b, Amount);
  }

  /* ---------------- region_wise_sales ---------------- */

  datatype RegionEntry = RegionEntry(region: string, totalSales: real, transactionCount: nat, percentage: real)

  /** A region's share of the overall total, in percent; 0 when the total is not positive. */
  function Percentage(sales: real, total: real): real {
    if total > 0.0 then sales / total * 100.0 else 0.0
  }

  /** The row of region k: its transactions' revenue and count, and its share. */
  function RegionEntryOf(txs: seq<Transaction>, k: string): RegionEntry {
    var s := Tally(txs, Region, k);
    RegionEntry(k, s.revenue, s.count, Percentage(s.revenue, Revenue(txs)))
  }

  /** The rows of the keys ks, in the order of ks. */
  function RegionRows(txs: seq<Transaction>, ks: seq<string>): (rows: seq<RegionEntry>)
    ensures |rows| == |ks|
    ensures forall i :: 0 <= i < |ks| ==> rows[i] == RegionEntryOf(txs, ks[i])
  {
    if ks == [] then [] else RegionRows(txs, ks[..|ks| - 1]) + [RegionEntryOf(txs, ks[|ks| - 1])]
  }

  predicate SalesAtLeast(a: RegionEntry, b: RegionEntry) {
    a.totalSales >= b.totalSales
  }

  /** The dictionary region_wise_sales returns, as its rows in iteration order. */
  function RegionStats(txs: seq<Transaction>): seq<RegionEntry> {
    SortBy(RegionRows(txs, GroupKeys(txs, Region)), SalesAtLeast)
  }

  /** region_wise_sales: per-region totals, counts and shares, by total sales descending. */
  method RegionWiseSales(txs: seq<Transaction>) returns (regions: seq<RegionEntry>)
    ensures regions == RegionStats(txs)
  {
    var keys, stats, totalSales := Accumulate(txs, Region);
    var rows: seq<RegionEntry> := [];
    for i := 0 to |keys|
      invariant rows == RegionRows(txs, keys[..i])
    {
      var region := keys[i];
      var entry := stats[region];
      var percentage := Percentage(entry.revenue, totalSales);
      assert keys[..i + 1][..i] == keys[..i];
      rows := rows + [RegionEntry(region, entry.revenue, entry.count, percentage)];
    }
    assert keys[..|keys|] == keys;
    regions := SortBy(rows, SalesAtLeast);
  }

  function RegionSales(e: RegionEntry): real {
    e.totalSales
  }

  function RegionCount(e: RegionEntry): int {
    e.transactionCount
  }

  function RegionShare(e: RegionEntry): real {
    e.percentage
  }

  lemma {:induction false} RegionRowsTotals(txs: seq<Transaction>, ks: seq<string>)
    ensures SumInt(RegionRows(txs, ks), RegionCount) == GroupCount(ks, txs, Region)
    ensures SumReal(RegionRows(txs, ks), RegionSales) == GroupRevenue(ks, txs, Region)
  {
    if ks != [] {
      var init, k := ks[..|ks| - 1], ks[|ks| - 1];
      var rows := RegionRows(txs, init);
      var e := RegionEntryOf(txs, k);
      assert RegionRows(txs, ks) == rows + [e];
      RegionRowsTotals(txs, init);
      assert e.transactionCount == |Group(txs, Region, k)| && e.totalSales == Revenue(Group(txs, Region, k)) by {
        TallySummarizes(txs, Region, k);
      }
      assert SumInt(rows + [e], RegionCount) == SumInt(rows, RegionCount) + e.transactionCount by {
        SumIntAppend(rows, [e], RegionCount);
        assert [e][1..] == [];
      }
      assert SumReal(rows + [e], RegionSales) == SumReal(rows, RegionSales) + e.totalSales by {
        SumRealAppend(rows, [e], RegionSales);
        assert [e][1..] == [];
      }
    }
  }

  /**
   * The region counts add up to the number of transactions, and the region
   * totals to the overall total, the quantity calculate_total_revenue sums.
   */
  lemma RegionTotals(txs: seq<Transaction>)
    ensures SumInt(RegionStats(txs), RegionCount) == |txs|
    ensures SumReal(RegionStats(txs), RegionSales) == Revenue(txs)
  {
    var rows := RegionRows(txs, GroupKeys(txs, Region));
    SumIntSortBy(rows, SalesAtLeast, RegionCount);
    SumRealSortBy(rows, SalesAtLeast, RegionSales);
    RegionRowsTotals(txs, GroupKeys(txs, Region));
    KeysPartition(txs, Region);
  }

  /** The rows are those of the input's regions, each with its own totals, and every one of them has a row. */
  lemma RegionEntries(txs: seq<Transaction>)
    ensures forall i :: 0 <= i < |RegionStats(txs)| ==>
      && RegionStats(txs)[i] == RegionEntryOf(txs, RegionStats(txs)[i].region)
      && RegionStats(txs)[i].region in GroupKeys(txs, Region)
    ensures forall k :: k in GroupKeys(txs, Region) ==>
      exists i :: 0 <= i < |RegionStats(txs)| && RegionStats(txs)[i].region == k
  {
    var keys := GroupKeys(txs, Region);
    var rows := RegionRows(txs, keys);
    var result := RegionStats(txs);
    assert result == SortBy(rows, SalesAtLeast);
    SortByRows(keys, rows, SalesAtLeast, RegionName, k => RegionEntryOf(txs, k));
    forall i | 0 <= i < |result|
      ensures result[i] == RegionEntryOf(txs, result[i].region) && result[i].region in keys
    {
      assert RegionName(result[i]) == result[i].region;
    }
    forall k | k in keys
      ensures exists i :: 0 <= i < |result| && result[i].region == k
    {
      var i :| 0 <= i < |result| && RegionName(result[i]) == k;
      assert result[i].region == k;
    }
  }

  /** No region has two rows. */
  lemma RegionDistinct(txs: seq<Transaction>)
    ensures DistinctBy(RegionStats(txs), RegionName)
  {
    var rows := RegionRows(txs, GroupKeys(txs, Region));
    assert DistinctBy(rows, RegionName);
    SortByDistinct(rows, SalesAtLeast, RegionName);
  }

  /** A region of the input counts exactly its transactions, at least one, and totals their revenue. */
  lemma RegionOfKey(txs: seq<Transaction>, k: string)
    requires k in GroupKeys(txs, Region)
    ensures RegionEntryOf(txs, k).transactionCount == |Group(txs, Region, k)| >= 1
    ensures RegionEntryOf(txs, k).totalSales == Revenue(Group(txs, Region, k))
  {
    TallySummarizes(txs, Region, k);
    GroupOfKey(txs, Region, k);
  }

  function RegionName(e: RegionEntry): string {
    e.region
  }

  /** With no positive overall total every share is 0. */
  lemma RegionSharesZero(txs: seq<Transaction>)
    requires Revenue(txs) <= 0.0
    ensures forall i :: 0 <= i < |RegionStats(txs)| ==> RegionStats(txs)[i].percentage == 0.0
  {
    var rows := RegionRows(txs, GroupKeys(txs, Region));
    var result := RegionStats(txs);
    SortByMembers(rows, SalesAtLeast);
    forall i | 0 <= i < |result| ensures result[i].percentage == 0.0 {
      var j :| 0 <= j < |rows| && rows[j] == result[i];
    }
  }

  /** Shares taken against one total add up to the share of the rows' combined sales. */
  lemma {:induction false} SharesAddUp(rows: seq<RegionEntry>, total: real)
    requires forall i :: 0 <= i < |rows| ==> rows[i].percentage == Percentage(rows[i].totalSales, total)
    ensures SumReal(rows, RegionShare) == Percentage(SumReal(rows, RegionSales), total)
  {
    if rows == [] {
      PercentageZero(total);
    } else {
      var rest := SumReal(rows[1..], RegionSales);
      SharesAddUp(rows[1..], total);
      PercentageAdditive(rows[0].totalSales, rest, total);
    }
  }

  lemma PercentageZero(total: real)
    ensures Percentage(0.0, total) == 0.0
  {
  }

  /** Every row's share is its sales against the overall total. */
  lemma RegionRowsShares(txs: seq<Transaction>, ks: seq<string>)
    ensures forall i :: 0 <= i < |RegionRows(txs, ks)| ==>
      RegionRows(txs, ks)[i].percentage == Percentage(RegionRows(txs, ks)[i].totalSales, Revenue(txs))
  {
  }

  /** With a positive overall total the shares add up to 100. */
  lemma RegionSharesSum(txs: seq<Transaction>)
    requires Revenue(txs) > 0.0
    ensures SumReal(RegionStats(txs), RegionShare) == 100.0
  {
    var total := Revenue(txs);
    var keys := GroupKeys(txs, Region);
    var rows := RegionRows(txs, keys);
    assert SumReal(RegionStats(txs), RegionShare) == SumReal(rows, RegionShare) by {
      SumRealSortBy(rows, SalesAtLeast, RegionShare);
    }
    assert SumReal(rows, RegionSales) == total by {
      RegionRowsTotals(txs, keys);
      KeysPartition(txs, Region);
    }
    assert SumReal(rows, RegionShare) == Percentage(total, total) by {
      RegionRowsShares(txs, keys);
      SharesAddUp(rows, total);
    }
    PercentageWhole(total);
  }

  lemma PercentageAdditive(a: real, b: real, total: real)
    ensures Percentage(a + b, total) == Percentage(a, total) + Percentage(b, total)
  {
  }

  lemma PercentageWhole(total: real)
    requires total > 0.0
    ensures Percentage(total, total) == 100.0
  {
  }

  /** Regions come by total sales, largest first, and tied regions keep first-seen order. */
  lemma RegionOrder(txs: seq<Transaction>, x: RegionEntry)
    ensures SortedBy(RegionStats(txs), SalesAtLeast)
    ensures forall i, j :: 0 <= i < j < |RegionStats(txs)| ==> RegionStats(txs)[i].totalSales >= RegionStats(txs)[j].totalSales
    ensures Tied(RegionStats(txs), x, SalesAtLeast) == Tied(RegionRows(txs, GroupKeys(txs, Region)), x, SalesAtLeast)
  {
    SortBySorted(RegionRows(txs, GroupKeys(txs, Region)), SalesAtLeast);
    SortByStable(RegionRows(txs, GroupKeys(txs, Region)), SalesAtLeast, x);
  }

  /* ---------------- top_selling_products and low_performing_products ---------------- */

  datatype ProductEntry = ProductEntry(name: string, totalQuantity: int, totalRevenue: real)

  /** The row of product k: the quantity and revenue of its transactions. */
  function ProductEntryOf(txs: seq<Transaction>, k: string): ProductEntry {
    var s := Tally(txs, ProductName, k);
    ProductEntry(k, s.quantity, s.revenue)
  }

  function ProductRows(txs: seq<Transaction>, ks: seq<string>): (rows: seq<ProductEntry>)
    ensures |rows| == |ks|
    ensures forall i :: 0 <= i < |ks| ==> rows[i] == ProductEntryOf(txs, ks[i])
  {
    if ks == [] then [] else ProductRows(txs, ks[..|ks| - 1]) + [ProductEntryOf(txs, ks[|ks| - 1])]
  }

  /** The product dictionary's rows, in first-seen order. */
  function ProductTable(txs: seq<Transaction>): seq<ProductEntry> {
    ProductRows(txs, GroupKeys(txs, ProductName))
  }

  /** Collects the rows of a product dictionary from its keys and entries. */
  method ProductEntries(txs: seq<Transaction>, keys: seq<string>, stats: map<string, GroupStats>)
    returns (rows: seq<ProductEntry>)
    requires forall k :: k in keys ==> k in stats && stats[k] == Tally(txs, ProductName, k)
    ensures rows == ProductRows(txs, keys)
  {
    rows := [];
    for i := 0 to |keys|
      invariant rows == ProductRows(txs, keys[..i])
    {
      var entry := stats[keys[i]];
      assert keys[..i + 1][..i] == keys[..i];
      rows := rows + [ProductEntry(keys[i], entry.quantity, entry.revenue)];
    }
    assert keys[..|keys|] == keys;
  }

  predicate QuantityAtLeast(a: ProductEntry, b: ProductEntry) {
    a.totalQuantity >= b.totalQuantity
  }

  function ProductNameOf(e: ProductEntry): string {
    e.name
  }

  /** The list top_selling_products returns. */
  function TopProducts(txs: seq<Transaction>, n: int): seq<ProductEntry> {
    SlicePrefix(SortBy(ProductTable(txs), QuantityAtLeast), n)
  }

  /** top_selling_products: the first n products by total quantity, largest first. */
  method TopSellingProducts(txs: seq<Transaction>, n: int := 5) returns (top: seq<ProductEntry>)
    ensures top == TopProducts(txs, n)
  {
    var keys, stats, _ := Accumulate(txs, ProductName);
    var rows := ProductEntries(txs, keys, stats);
    var sorted := SortBy(rows, QuantityAtLeast);
    top := SlicePrefix(sorted, n);
  }

  /** The product rows are those of the products in the input, one per distinct name. */
  lemma ProductTableEntries(txs: seq<Transaction>)
    ensures forall i :: 0 <= i < |ProductTable(txs)| ==>
      ProductTable(txs)[i] == ProductEntryOf(txs, ProductTable(txs)[i].name)
      && ProductTable(txs)[i].name in GroupKeys(txs, ProductName)
    ensures DistinctBy(ProductTable(txs), ProductNameOf)
  {
  }

  /**
   * At most n products (when n is not negative) and at most one per distinct
   * name, each drawn from the input with its own totals.
   */
  lemma TopProductsShape(txs: seq<Transaction>, n: int)
    ensures n >= 0 ==> |TopProducts(txs, n)| <= n
    ensures |TopProducts(txs, n)| <= |GroupKeys(txs, ProductName)|
    ensures var m := |GroupKeys(txs, ProductName)|;
      |TopProducts(txs, n)| == if n >= 0 then (if n < m then n else m) else (if -n < m then m + n else 0)
    ensures forall i :: 0 <= i < |TopProducts(txs, n)| ==>
      TopProducts(txs, n)[i] == ProductEntryOf(txs, TopProducts(txs, n)[i].name)
      && TopProducts(txs, n)[i].name in GroupKeys(txs, ProductName)
    ensures DistinctBy(TopProducts(txs, n), ProductNameOf)
  {
    var table := ProductTable(txs);
    var sorted := SortBy(table, QuantityAtLeast);
    var top := TopProducts(txs, n);
    ProductTableEntries(txs);
    SortByMembers(table, QuantityAtLeast);
    SortByDistinct(table, QuantityAtLeast, ProductNameOf);
    forall i | 0 <= i < |top|
      ensures top[i] == ProductEntryOf(txs, top[i].name) && top[i].name in GroupKeys(txs, ProductName)
    {
      assert top[i] == sorted[i];
    }
    forall i, j | 0 <= i < j < |top| ensures top[i].name != top[j].name {
      assert top[i] == sorted[i] && top[j] == sorted[j];
    }
  }

  /** The products come by total quantity, largest first. */
  lemma TopProductsSorted(txs: seq<Transaction>, n: int)
    ensures forall i, j :: 0 <= i < j < |TopProducts(txs, n)| ==>
      TopProducts(txs, n)[i].totalQuantity >= TopProducts(txs, n)[j].totalQuantity
  {
    var sorted := SortBy(ProductTable(txs), QuantityAtLeast);
    SortBySorted(ProductTable(txs), QuantityAtLeast);
    assert TopProducts(txs, n) == sorted[..|TopProducts(txs, n)|];
  }

  /** Every product of the input left out sold no more than any product returned. */
  lemma TopProductsOmitted(txs: seq<Transaction>, n: int, k: string)
    requires k in GroupKeys(txs, ProductName)
    requires forall i :: 0 <= i < |TopProducts(txs, n)| ==> TopProducts(txs, n)[i].name != k
    ensures forall i :: 0 <= i < |TopProducts(txs, n)| ==> TopProducts(txs, n)[i].totalQuantity >= ProductEntryOf(txs, k).totalQuantity
  {
    var table := ProductTable(txs);
    var sorted := SortBy(table, QuantityAtLeast);
    var top := TopProducts(txs, n);
    var e := ProductEntryOf(txs, k);
    // The omitted product's row sits in the sorted table past the returned prefix.
    var m :| 0 <= m < |sorted| && sorted[m] == e by {
      var j :| 0 <= j < |GroupKeys(txs, ProductName)| && GroupKeys(txs, ProductName)[j] == k;
      assert table[j] == e;
      SortByMembers(table, QuantityAtLeast);
      assert table[j] in sorted;
    }
    assert top == sorted[..|top|];
    assert e.name == k;
    assert e !in top;
    assert m >= |top|;
    assert SortedBy(sorted, QuantityAtLeast) by { SortBySorted(table, QuantityAtLeast); }
    forall i | 0 <= i < |top| ensures top[i].totalQuantity >= e.totalQuantity {
      assert top[i] == sorted[i] && QuantityAtLeast(sorted[i], sorted[m]);
    }
  }

  /** Tied products keep their first-seen order: the ties returned are the first ties of the table. */
  lemma TopProductsStable(txs: seq<Transaction>, n: int, x: ProductEntry)
    ensures Tied(TopProducts(txs, n), x, QuantityAtLeast) <= Tied(ProductTable(txs), x, QuantityAtLeast)
  {
    var table := ProductTable(txs);
    var sorted := SortBy(table, QuantityAtLeast);
    var top := TopProducts(txs, n);
    TiedPrefix(sorted, |top|, x, QuantityAtLeast);
    assert sorted[..|top|] == top;
    SortByStable(table, QuantityAtLeast, x);
  }

  /* low_performing_products */

  predicate QuantityAtMost(a: ProductEntry, b: ProductEntry) {
    a.totalQuantity <= b.totalQuantity
  }

  /** The comprehension keeping the rows whose total quantity is below the threshold. */
  function Below(rows: seq<ProductEntry>, threshold: int): seq<ProductEntry> {
    Filter(rows, (e: ProductEntry) => e.totalQuantity < threshold)
  }

  lemma BelowSnoc(rows: seq<ProductEntry>, e: ProductEntry, threshold: int)
    ensures Below(rows + [e], threshold) == Below(rows, threshold) + (if e.totalQuantity < threshold then [e] else [])
  {
    FilterSnoc(rows, e, (e: ProductEntry) => e.totalQuantity < threshold);
  }

  lemma BelowMembers(rows: seq<ProductEntry>, threshold: int)
    ensures forall e :: e in Below(rows, threshold) <==> e in rows && e.totalQuantity < threshold
  {
    FilterMembers(rows, (e: ProductEntry) => e.totalQuantity < threshold);
  }

  /** The list low_performing_products returns. */
  function LowPerformers(txs: seq<Transaction>, threshold: int): seq<ProductEntry> {
    SortBy(Below(ProductTable(txs), threshold), QuantityAtMost)
  }

  /** low_performing_products: the products sold fewer than threshold times, fewest first. */
  method LowPerformingProducts(txs: seq<Transaction>, threshold: int := 10) returns (low: seq<ProductEntry>)
    ensures low == LowPerformers(txs, threshold)
  {
    var keys, stats, _ := Accumulate(txs, ProductName);
    low := [];
    for i := 0 to |keys|
      invariant low == Below(ProductRows(txs, keys[..i]), threshold)
    {
      var entry := stats[keys[i]];
      assert keys[..i + 1][..i] == keys[..i];
      BelowSnoc(ProductRows(txs, keys[..i]), ProductEntryOf(txs, keys[i]), threshold);
      if entry.quantity < threshold {
        low := low + [ProductEntry(keys[i], entry.quantity, entry.revenue)];
      }
    }
    assert keys[..|keys|] == keys;
    low := SortBy(low, QuantityAtMost);
  }

  /** Every product returned is a product of the input with its own totals, sold fewer than threshold times. */
  lemma LowPerformersSound(txs: seq<Transaction>, threshold: int)
    ensures forall i :: 0 <= i < |LowPerformers(txs, threshold)| ==>
      && LowPerformers(txs, threshold)[i].totalQuantity < threshold
      && LowPerformers(txs, threshold)[i] == ProductEntryOf(txs, LowPerformers(txs, threshold)[i].name)
      && LowPerformers(txs, threshold)[i].name in GroupKeys(txs, ProductName)
  {
    var table := ProductTable(txs);
    var below := Below(table, threshold);
    var low := LowPerformers(txs, threshold);
    SortByMembers(below, QuantityAtMost);
    BelowMembers(table, threshold);
    ProductTableEntries(txs);
    forall i | 0 <= i < |low|
      ensures low[i].totalQuantity < threshold && low[i] == ProductEntryOf(txs, low[i].name)
      ensures low[i].name in GroupKeys(txs, ProductName)
    {
      var j :| 0 <= j < |below| && below[j] == low[i];
      assert below[j] in table;
    }
  }

  /** Every product of the input sold fewer than threshold times is returned. */
  lemma LowPerformersComplete(txs: seq<Transaction>, threshold: int, k: string)
    requires k in GroupKeys(txs, ProductName)
    requires ProductEntryOf(txs, k).totalQuantity < threshold
    ensures ProductEntryOf(txs, k) in LowPerformers(txs, threshold)
  {
    var table := ProductTable(txs);
    var below := Below(table, threshold);
    SortByMembers(below, QuantityAtMost);
    BelowMembers(table, threshold);
    var j :| 0 <= j < |GroupKeys(txs, ProductName)| && GroupKeys(txs, ProductName)[j] == k;
    assert table[j] == ProductEntryOf(txs, k);
    assert table[j] in below;
    var m :| 0 <= m < |below| && below[m] == table[j];
  }

  /** The low performers come by total quantity, fewest first, and tied products keep first-seen order. */
  lemma LowPerformersOrder(txs: seq<Transaction>, threshold: int, x: ProductEntry)
    ensures forall i, j :: 0 <= i < j < |LowPerformers(txs, threshold)| ==>
      LowPerformers(txs, threshold)[i].totalQuantity <= LowPerformers(txs, threshold)[j].totalQuantity
    ensures Tied(LowPerformers(txs, threshold), x, QuantityAtMost) == Tied(Below(ProductTable(txs), threshold), x, QuantityAtMost)
  {
    SortBySorted(Below(ProductTable(txs), threshold), QuantityAtMost);
    SortByStable(Below(ProductTable(txs), threshold), QuantityAtMost, x);
  }

  /* ---------------- customer_analysis ---------------- */

  datatype CustomerEntry = CustomerEntry(
    customerId: string,
    totalSpent: real,
    purchaseCount: nat,
    avgOrderValue: real,
    productsBought: set<string>)

  /** The average order value, 0 for a customer without purchases. */
  function AverageOrder(spent: real, count: nat): real {
    if count > 0 then spent / count as real else 0.0
  }

  /** The row of customer k: spending, purchases, average and the products bought. */
  function CustomerEntryOf(txs: seq<Transaction>, k: string): CustomerEntry {
    var s := Tally(txs, Customer, k);
    CustomerEntry(k, s.revenue, s.count, AverageOrder(s.revenue, s.count), s.products)
  }

  function CustomerRows(txs: seq<Transaction>, ks: seq<string>): (rows: seq<CustomerEntry>)
    ensures |rows| == |ks|
    ensures forall i :: 0 <= i < |ks| ==> rows[i] == CustomerEntryOf(txs, ks[i])
  {
    if ks == [] then [] else CustomerRows(txs, ks[..|ks| - 1]) + [CustomerEntryOf(txs, ks[|ks| - 1])]
  }

  predicate SpentAtLeast(a: CustomerEntry, b: CustomerEntry) {
    a.totalSpent >= b.totalSpent
  }

  function CustomerIdOf(e: CustomerEntry): string {
    e.customerId
  }

  /** The dictionary customer_analysis returns, as its rows in iteration order. */
  function CustomerStats(txs: seq<Transaction>): seq<CustomerEntry> {
    SortBy(CustomerRows(txs, GroupKeys(txs, Customer)), SpentAtLeast)
  }

  /** customer_analysis: per-customer spending, purchases, average and products, by spending descending. */
  method CustomerAnalysis(txs: seq<Transaction>) returns (customers: seq<CustomerEntry>)
    ensures customers == CustomerStats(txs)
  {
    var keys, stats, _ := Accumulate(txs, Customer);
    var rows: seq<CustomerEntry> := [];
    for i := 0 to |keys|
      invariant rows == CustomerRows(txs, keys[..i])
    {
      var entry := stats[keys[i]];
      var average := if entry.count > 0 then entry.revenue / entry.count as real else 0.0;
      assert keys[..i + 1][..i] == keys[..i];
      rows := rows + [CustomerEntry(keys[i], entry.revenue, entry.count, average, entry.products)];
    }
    assert keys[..|keys|] == keys;
    customers := SortBy(rows, SpentAtLeast);
  }

  /** A customer of the input has as many purchases as transactions, at least one. */
  lemma CustomerCount(txs: seq<Transaction>, k: string)
    requires k in GroupKeys(txs, Customer)
    ensures CustomerEntryOf(txs, k).purchaseCount == |Group(txs, Customer, k)| >= 1
    ensures CustomerEntryOf(txs, k).totalSpent == Revenue(Group(txs, Customer, k))
  {
    TallySummarizes(txs, Customer, k);
    GroupOfKey(txs, Customer, k);
  }

  /** The average order value times the number of purchases is the total spent. */
  lemma CustomerAverage(txs: seq<Transaction>, k: string)
    requires k in GroupKeys(txs, Customer)
    ensures CustomerEntryOf(txs, k).avgOrderValue * CustomerEntryOf(txs, k).purchaseCount as real == CustomerEntryOf(txs, k).totalSpent
  {
    var e := CustomerEntryOf(txs, k);
    assert e.purchaseCount >= 1 by {
      CustomerCount(txs, k);
    }
    AverageTimesCount(e.totalSpent, e.purchaseCount);
  }

  /** A customer's products_bought is the set of product names of that customer's transactions. */
  lemma CustomerProducts(txs: seq<Transaction>, k: string)
    ensures CustomerEntryOf(txs, k).productsBought == (set j | 0 <= j < |txs| && txs[j].customerId == k :: txs[j].productName)
  {
    TallySummarizes(txs, Customer, k);
    GroupKeysOf(txs, Customer, k, ProductName);
  }

  /** The rows are those of the input's customers, each with its own totals, and every one of them has a row. */
  lemma CustomerEntries(txs: seq<Transaction>)
    ensures forall i :: 0 <= i < |CustomerStats(txs)| ==>
      && CustomerStats(txs)[i] == CustomerEntryOf(txs, CustomerStats(txs)[i].customerId)
      && CustomerStats(txs)[i].customerId in GroupKeys(txs, Customer)
    ensures forall k :: k in GroupKeys(txs, Customer) ==>
      exists i :: 0 <= i < |CustomerStats(txs)| && CustomerStats(txs)[i].customerId == k
  {
    var keys := GroupKeys(txs, Customer);
    var rows := CustomerRows(txs, keys);
    var result := CustomerStats(txs);
    assert result == SortBy(rows, SpentAtLeast);
    SortByRows(keys, rows, SpentAtLeast, CustomerIdOf, k => CustomerEntryOf(txs, k));
    forall i | 0 <= i < |result|
      ensures result[i] == CustomerEntryOf(txs, result[i].customerId) && result[i].customerId in keys
    {
      assert CustomerIdOf(result[i]) == result[i].customerId;
    }
    forall k | k in keys
      ensures exists i :: 0 <= i < |result| && result[i].customerId == k
    {
      var i :| 0 <= i < |result| && CustomerIdOf(result[i]) == k;
      assert result[i].customerId == k;
    }
  }

  /** No customer has two rows. */
  lemma CustomerDistinct(txs: seq<Transaction>)
    ensures DistinctBy(CustomerStats(txs), CustomerIdOf)
  {
    var rows := CustomerRows(txs, GroupKeys(txs, Customer));
    assert DistinctBy(rows, CustomerIdOf);
    SortByDistinct(rows, SpentAtLeast, CustomerIdOf);
  }

  lemma AverageTimesCount(spent: real, count: nat)
    requires count > 0
    ensures AverageOrder(spent, count) * count as real == spent
  {
  }

  /** Customers come by total spent, largest first, and tied customers keep first-seen order. */
  lemma CustomerOrder(txs: seq<Transaction>, x: CustomerEntry)
    ensures forall i, j :: 0 <= i < j < |CustomerStats(txs)| ==> CustomerStats(txs)[i].totalSpent >= CustomerStats(txs)[j].totalSpent
    ensures Tied(CustomerStats(txs), x, SpentAtLeast) == Tied(CustomerRows(txs, GroupKeys(txs, Customer)), x, SpentAtLeast)
  {
    SortBySorted(CustomerRows(txs, GroupKeys(txs, Customer)), SpentAtLeast);
    SortByStable(CustomerRows(txs, GroupKeys(txs, Customer)), SpentAtLeast, x);
  }

  /* ---------------- daily_sales_trend ---------------- */

  datatype DayEntry = DayEntry(date: string, revenue: real, transactionCount: nat, uniqueCustomers: nat)

  /** The row of date k: its revenue, its number of transactions and of distinct customers. */
  function DayEntryOf(txs: seq<Transaction>, k: string): DayEntry {
    var s := Tally(txs, Date, k);
    DayEntry(k, s.revenue, s.count, |s.customers|)
  }

  function DayRows(txs: seq<Transaction>, ks: seq<string>): (rows: seq<DayEntry>)
    ensures |rows| == |ks|
    ensures forall i :: 0 <= i < |ks| ==> rows[i] == DayEntryOf(txs, ks[i])
  {
    if ks == [] then [] else DayRows(txs, ks[..|ks| - 1]) + [DayEntryOf(txs, ks[|ks| - 1])]
  }

  /** Ordering by the date key, as Python compares strings. */
  predicate DateAtMost(a: DayEntry, b: DayEntry) {
    LexLessEq(a.date, b.date)
  }

  function DateOf(e: DayEntry): string {
    e.date
  }

  /** The dictionary daily_sales_trend returns, as its rows in iteration order. */
  function DailyTrend(txs: seq<Transaction>): seq<DayEntry> {
    SortBy(DayRows(txs, GroupKeys(txs, Date)), DateAtMost)
  }

  /** daily_sales_trend: per-date revenue, transactions and distinct customers, by date. */
  method DailySalesTrend(txs: seq<Transaction>) returns (days: seq<DayEntry>)
    ensures days == DailyTrend(txs)
  {
    var keys, stats, _ := Accumulate(txs, Date);
    var rows: seq<DayEntry> := [];
    for i := 0 to |keys|
      invariant rows == DayRows(txs, keys[..i])
    {
      var entry := stats[keys[i]];
      assert keys[..i + 1][..i] == keys[..i];
      rows := rows + [DayEntry(keys[i], entry.revenue, entry.count, |entry.customers|)];
    }
    assert keys[..|keys|] == keys;
    days := SortBy(rows, DateAtMost);
  }

  lemma DateOrderTotal()
    ensures TotalPreorder(DateAtMost)
  {
    forall a: DayEntry, b: DayEntry ensures DateAtMost(a, b) || DateAtMost(b, a) {
      LexTotal(a.date, b.date);
    }
    forall a: DayEntry, b: DayEntry, c: DayEntry | DateAtMost(a, b) && DateAtMost(b, c)
      ensures DateAtMost(a, c)
    {
      LexTransitive(a.date, b.date, c.date);
    }
  }

  /** The rows are those of the input's dates, each with its own totals, and every one of them has a row. */
  lemma DailyEntries(txs: seq<Transaction>)
    ensures forall i :: 0 <= i < |DailyTrend(txs)| ==>
      && DailyTrend(txs)[i] == DayEntryOf(txs, DailyTrend(txs)[i].date)
      && DailyTrend(txs)[i].date in GroupKeys(txs, Date)
    ensures forall k :: k in GroupKeys(txs, Date) ==>
      exists i :: 0 <= i < |DailyTrend(txs)| && DailyTrend(txs)[i].date == k
  {
    var keys := GroupKeys(txs, Date);
    var rows := DayRows(txs, keys);
    var result := DailyTrend(txs);
    assert result == SortBy(rows, DateAtMost);
    SortByRows(keys, rows, DateAtMost, DateOf, k => DayEntryOf(txs, k));
    forall i | 0 <= i < |result|
      ensures result[i] == DayEntryOf(txs, result[i].date) && result[i].date in keys
    {
      assert DateOf(result[i]) == result[i].date;
    }
    forall k | k in keys
      ensures exists i :: 0 <= i < |result| && result[i].date == k
    {
      var i :| 0 <= i < |result| && DateOf(result[i]) == k;
      assert result[i].date == k;
    }
  }

  /** No date has two rows. */
  lemma DailyDistinct(txs: seq<Transaction>)
    ensures DistinctBy(DailyTrend(txs), DateOf)
  {
    var rows := DayRows(txs, GroupKeys(txs, Date));
    assert DistinctBy(rows, DateOf);
    SortByDistinct(rows, DateAtMost, DateOf);
  }

  /** A date of the input has at least one transaction and no more distinct customers than transactions. */
  lemma DayCounts(txs: seq<Transaction>, k: string)
    requires k in GroupKeys(txs, Date)
    ensures DayEntryOf(txs, k).transactionCount == |Group(txs, Date, k)| >= 1
    ensures DayEntryOf(txs, k).uniqueCustomers <= DayEntryOf(txs, k).transactionCount
    ensures DayEntryOf(txs, k).uniqueCustomers >= 1
  {
    var g := Group(txs, Date, k);
    TallySummarizes(txs, Date, k);
    GroupOfKey(txs, Date, k);
    KeysOfSize(g, Customer);
    assert g[0].customerId in KeysOf(g, Customer);
  }

  /** The dates come in strictly ascending string order. */
  lemma DailyAscending(txs: seq<Transaction>)
    ensures forall i, j :: 0 <= i < j < |DailyTrend(txs)| ==>
      LexLessEq(DailyTrend(txs)[i].date, DailyTrend(txs)[j].date) && DailyTrend(txs)[i].date != DailyTrend(txs)[j].date
  {
    DateOrderTotal();
    SortBySorted(DayRows(txs, GroupKeys(txs, Date)), DateAtMost);
    DailyDistinct(txs);
  }

  /* ---------------- find_peak_sales_day ---------------- */

  /** Day j has positive revenue, no day has more, and every earlier day has less. */
  ghost predicate IsPeak(days: seq<DayEntry>, j: int) {
    && 0 <= j < |days|
    && days[j].revenue > 0.0
    && (forall l :: 0 <= l < |days| ==> days[l].revenue <= days[j].revenue)
    && (forall l :: 0 <= l < j ==> days[l].revenue < days[j].revenue)
  }

  /**
   * What find_peak_sales_day answers for the days list: the earliest date with
   * the largest positive revenue, with its revenue and transaction count, or
   * (None, 0.0, 0) when no date has positive revenue, the empty input included.
   */
  ghost predicate PeakAnswer(days: seq<DayEntry>, peakDate: Option<string>, revenue: real, count: int) {
    && (peakDate.None? <==> forall l :: 0 <= l < |days| ==> days[l].revenue <= 0.0)
    && (peakDate.None? ==> revenue == 0.0 && count == 0)
    && (peakDate.Some? ==> exists j :: (IsPeak(days, j)
         && peakDate.value == days[j].date
         && revenue == days[j].revenue
         && count == days[j].transactionCount))
  }

  /** find_peak_sales_day: the peak of the daily trend. */
  method FindPeakSalesDay(txs: seq<Transaction>) returns (peakDate: Option<string>, revenue: real, count: int)
    ensures PeakAnswer(DailyTrend(txs), peakDate, revenue, count)
  {
    var days := DailySalesTrend(txs);
    peakDate, revenue, count := PeakOf(days);
  }

  /** The loop of find_peak_sales_day: a strict comparison, so the first maximum stays. */
  method PeakOf(days: seq<DayEntry>) returns (peakDate: Option<string>, revenue: real, count: int)
    ensures PeakAnswer(days, peakDate, revenue, count)
  {
    peakDate := None;
    var maxRevenue := 0.0;
    var at := 0;
    for i := 0 to |days|
      invariant peakDate.None? ==> maxRevenue == 0.0 && forall l :: 0 <= l < i ==> days[l].revenue <= 0.0
      invariant peakDate.Some? ==> 0 <= at < i && peakDate.value == days[at].date && maxRevenue == days[at].revenue > 0.0
      invariant peakDate.Some? ==> forall l :: 0 <= l < i ==> days[l].revenue <= maxRevenue
      invariant peakDate.Some? ==> forall l :: 0 <= l < at ==> days[l].revenue < maxRevenue
    {
      if days[i].revenue > maxRevenue {
        maxRevenue := days[i].revenue;
        peakDate := Some(days[i].date);
        at := i;
      }
    }
    if peakDate.Some? {
      revenue, count := days[at].revenue, days[at].transactionCount;
      assert IsPeak(days, at);
    } else {
      revenue, count := 0.0, 0;
    }
  }

  /** There is at most one peak day, so the date returned is determined. */
  lemma PeakUnique(days: seq<DayEntry>, j: int, k: int)
    requires IsPeak(days, j) && IsPeak(days, k)
    ensures j == k
  {
  }
}
