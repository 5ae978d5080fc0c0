# Sales-data pipeline: a Dafny model

This project models the in-memory core of a small sales-analytics program.
The program reads pipe-separated sales lines and turns them into transaction
records (`parse_transactions`). It validates them and optionally filters them
by region and amount (`validate_and_filter`). It then aggregates them:
total revenue, per-region statistics, top-selling products, per-customer
statistics, a daily trend, the peak day, and low-performing products.
Finally it enriches each record with product details looked up in a
catalogue fetched from a product service (`create_product_mapping`,
`enrich_sales_data`).

The Dafny modules follow the program's structure:

- `Transactions` holds the record with its eight columns, and `Amount` (Quantity × UnitPrice).
- `Text` models the Python string operations the code relies on: `strip`, `split` / `join`, `replace`, `startswith`, `int()` and `float()` on plain decimal text, and the `str` ordering.
- `Sequences` holds filtering, subsequences, sums, and a stable sort (`SortBy`). `SortBy` stands for `sorted(..., key=...)` and `list.sort(key=...)`.
- `FileHandler` models `parse_transactions` and `validate_and_filter`.
- `Grouping` holds the dictionary-filling loop (`Accumulate`) shared by the five aggregations that build a dictionary (regions, top products, customers, days, low performers), and the reference definitions it is proved against. A Python dictionary becomes its keys in first-seen order plus a `map` from key to statistics, so the insertion order that Python's stable sort preserves is explicit.
- `DataProcessor` models the seven aggregation functions.
- `ApiHandler` models the catalogue table and the enrichment.

Each loop of the source is a `method` with its loop invariants. Its
`ensures` ties the result to a specification function. Lemmas then prove
what the program promises about that function. Examples are sums and
counts that add up, ordering and stability of the sorts, membership in
both directions, and round trips between formatting and parsing.

## Model

| member | source | states |
|---|---|---|
| FileHandler.ParseTransactions | utils/file_handler.py:34-60 | the loop returns exactly the records of the lines that parse, in line order |
| FileHandler.ParseLineShape | utils/file_handler.py:37-50 | a record only comes from a line that splits into exactly 8 fields; its Quantity and UnitPrice are what int()/float() read from those fields once commas are removed and blanks stripped; its text fields are stripped and contain no separator, and its ProductName contains no comma |
| FileHandler.CleanName | utils/file_handler.py:43 | a cleaned ProductName has no comma and no surrounding whitespace |
| FileHandler.CleanField | utils/file_handler.py:40-42 | a stripped field has no surrounding whitespace, and gains no separator or comma |
| FileHandler.ParseAllAppend | utils/file_handler.py:35-60 | parsing is done line by line: parsing two batches of lines is parsing each and concatenating, so records keep the relative order of their lines, and there are no more records than lines |
| FileHandler.SkippedLineVanishes | utils/file_handler.py:38-39 | a line that is skipped (wrong field count or unreadable number) contributes nothing to the output, wherever it occurs |
| FileHandler.ParseAllRecords | utils/file_handler.py:35-60 | a record is in the output if and only if some input line parses to it |
| FileHandler.ParseFormattedLine | utils/file_handler.py:37-58 | a well-formed record written as a pipe-separated line parses back to the same record |
| FileHandler.ParseRecordFields | utils/file_handler.py:37-58 | a line whose fields are a well-formed record's texts parses to that record |
| FileHandler.FormatLineFields | utils/file_handler.py:37 | splitting a record's joined line on the separator gives back its eight field texts |
| FileHandler.QuantityTextRoundTrip | utils/file_handler.py:45 | the Quantity column written as str(n) reads back as n |
| FileHandler.CleanWellFormed | utils/file_handler.py:40-50 | the cleaning steps leave an already clean field unchanged |
| FileHandler.ValidateAndFilter | utils/file_handler.py:64-103 | returns the selected records; total_input is the input length, invalid plus the number of valid records is the input length, final_count is the output length, and filtered is the number of valid records minus final_count, never negative |
| FileHandler.SelectedMembers | utils/file_handler.py:68-94 | a record is returned if and only if it is an input record with Quantity > 0, UnitPrice > 0, IDs starting with T, P and C, the requested region when a non-empty region is given, and an amount within every bound that is on |
| FileHandler.SelectedSubsequence | utils/file_handler.py:78-94 | the result is a subsequence of the valid records, which are a subsequence of the input |
| FileHandler.RegionFilterNarrows | utils/file_handler.py:82-83 | filtering by a region yields a subsequence of the unfiltered result, never longer |
| FileHandler.ZeroMinimumIgnored | utils/file_handler.py:88 | a minimum amount of 0 selects the same records as no minimum |
| FileHandler.ZeroMaximumIgnored | utils/file_handler.py:90 | a maximum amount of 0 selects the same records as no maximum |
| FileHandler.KeepAmountAll | utils/file_handler.py:94 | the amount filter keeps every record when all are in range |
| FileHandler.KeepAmountAgree | utils/file_handler.py:86-94 | two bound pairs that accept the same records filter identically |
| Grouping.Accumulate | utils/data_processor.py:13-25 | the dictionary-filling loop yields the distinct keys in first-seen order, a statistics entry for exactly those keys, each equal to the per-key fold of the input, and the running total equal to the total revenue |
| Grouping.StepTracks | utils/data_processor.py:18-25 | one loop step (add a new key at the end, update its entry and the total) keeps the loop invariant |
| Grouping.GroupKeys | utils/data_processor.py:18-22 | the keys of the dictionary are pairwise distinct |
| Grouping.GroupKeysCover | utils/data_processor.py:18-22 | a key is in the dictionary if and only if some transaction has it |
| Grouping.TallySummarizes | utils/data_processor.py:18-24 | the entry the loop builds for a key equals the statistics of exactly that key's transactions: their count, quantity, revenue and sets of products and customers |
| Grouping.TallyAbsent | utils/data_processor.py:18-22 | a key no transaction has keeps the empty statistics |
| Grouping.GroupMembers | utils/data_processor.py:18-24 | a transaction is counted in a key's group if and only if it is an input transaction with that key |
| Grouping.GroupOfKey | utils/data_processor.py:18-24 | every key in the dictionary has at least one transaction, and all of its group carry that key |
| Grouping.KeysPartition | utils/data_processor.py:13-25 | the per-key counts add up to the number of transactions and the per-key revenues to the total revenue |
| Grouping.GroupPartition | utils/data_processor.py:13-25 | over distinct keys that cover every transaction, the group counts and revenues add up to the totals |
| Grouping.GroupTotalsSnoc | utils/data_processor.py:23-24 | one more transaction adds one to the count and its amount to the revenue of the keys when its key is among them |
| Grouping.GroupKeysOf | utils/data_processor.py:70 | the set of second keys collected within a group is exactly the set of those of the group's transactions |
| Grouping.KeysOfSize | utils/data_processor.py:95-97 | a group has no more distinct values than transactions |
| Grouping.SummarizeSnoc | utils/data_processor.py:23-24 | the statistics of a group extended by one transaction add that transaction |
| DataProcessor.CalculateTotalRevenue | utils/data_processor.py:1-7 | the total is the sum of Quantity × UnitPrice over all transactions |
| DataProcessor.RevenueAdditive | utils/data_processor.py:1-7 | revenue is additive over concatenation, and the empty input has revenue 0 |
| DataProcessor.RegionWiseSales | utils/data_processor.py:10-29 | returns the region rows ordered by total sales |
| DataProcessor.RegionOfKey | utils/data_processor.py:13-24 | a region's transaction_count is the number of its transactions, at least 1, and its total_sales their revenue |
| DataProcessor.RegionTotals | utils/data_processor.py:13-25 | the region counts sum to the number of transactions, and the region sales to the total revenue |
| DataProcessor.RegionEntries | utils/data_processor.py:18-28 | every row is the row of an input region, with that region's own totals, and every input region has a row |
| DataProcessor.RegionDistinct | utils/data_processor.py:18-28 | no region has two rows |
| DataProcessor.RegionSharesZero | utils/data_processor.py:27 | when the overall total is not positive every percentage is 0.0 |
| DataProcessor.RegionSharesSum | utils/data_processor.py:26-27 | when the overall total is positive the percentages add up to 100 |
| DataProcessor.RegionOrder | utils/data_processor.py:28 | the rows are ordered by total_sales non-increasing, and regions with equal sales keep their first-seen order |
| DataProcessor.SharesAddUp | utils/data_processor.py:27 | the percentages of rows add up to the percentage of their summed sales |
| DataProcessor.PercentageAdditive | utils/data_processor.py:27 | the share of a sum is the sum of the shares |
| DataProcessor.PercentageWhole | utils/data_processor.py:27 | the whole of a positive total is 100 percent |
| DataProcessor.TopSellingProducts | utils/data_processor.py:32-51 | returns the first n rows of the product table ordered by total quantity |
| DataProcessor.ProductEntries | utils/data_processor.py:47-50 | the rows built from the filled dictionary are the product rows of its keys |
| DataProcessor.ProductTableEntries | utils/data_processor.py:34-45 | each product row carries an input product's own totals, and no product has two rows |
| DataProcessor.TopProductsShape | utils/data_processor.py:46-50 | exactly as many products as `[:n]` keeps: min(n, m) for n not negative and max(m + n, 0) for negative n, where m is the number of distinct products; so at most n and at most m, each an input product with its own totals, with distinct names |
| DataProcessor.TopProductsSorted | utils/data_processor.py:46 | the products come by total_quantity non-increasing |
| DataProcessor.TopProductsOmitted | utils/data_processor.py:46-49 | an input product left out sold no more than any product returned |
| DataProcessor.TopProductsStable | utils/data_processor.py:46-49 | products with equal quantity keep their first-seen order: the ties returned are the first ties of the table |
| DataProcessor.LowPerformingProducts | utils/data_processor.py:118-138 | returns the products below the threshold ordered by total quantity |
| DataProcessor.LowPerformersSound | utils/data_processor.py:132-136 | every product returned has total_quantity below the threshold and is an input product with its own totals |
| DataProcessor.LowPerformersComplete | utils/data_processor.py:132-136 | every input product below the threshold is returned |
| DataProcessor.LowPerformersOrder | utils/data_processor.py:137 | the products come by total_quantity non-decreasing, and equal quantities keep their first-seen order |
| DataProcessor.BelowMembers | utils/data_processor.py:132-136 | the comprehension keeps exactly the rows below the threshold |
| DataProcessor.CustomerAnalysis | utils/data_processor.py:54-76 | returns the customer rows ordered by total spent |
| DataProcessor.CustomerCount | utils/data_processor.py:62-69 | purchase_count is the number of the customer's transactions, at least 1, and total_spent their revenue |
| DataProcessor.CustomerAverage | utils/data_processor.py:71-72 | avg_order_value times purchase_count is total_spent |
| DataProcessor.CustomerProducts | utils/data_processor.py:66-70 | products_bought is exactly the set of product names of the customer's transactions |
| DataProcessor.CustomerEntries | utils/data_processor.py:62-75 | every row is the row of an input customer with that customer's own totals, and every input customer has a row |
| DataProcessor.CustomerDistinct | utils/data_processor.py:62-75 | no customer has two rows |
| DataProcessor.CustomerOrder | utils/data_processor.py:75 | the rows are ordered by total_spent non-increasing, and equal spending keeps first-seen order |
| DataProcessor.AverageTimesCount | utils/data_processor.py:72 | with a positive count, the average times the count gives back the total |
| DataProcessor.DailySalesTrend | utils/data_processor.py:79-100 | returns the day rows ordered by date |
| DataProcessor.DailyAscending | utils/data_processor.py:99 | the dates come in strictly ascending string order |
| DataProcessor.DayCounts | utils/data_processor.py:87-97 | a date's transaction_count is the number of its transactions, at least 1, and its unique_customers lies between 1 and transaction_count |
| DataProcessor.DailyEntries | utils/data_processor.py:87-99 | every row is the row of an input date with that date's own totals, and every input date has a row |
| DataProcessor.DailyDistinct | utils/data_processor.py:87-99 | no date has two rows |
| DataProcessor.DateOrderTotal | utils/data_processor.py:99 | ordering by date text is a total preorder, so the sort is well defined |
| DataProcessor.FindPeakSalesDay | utils/data_processor.py:103-115 | answers (None, 0.0, 0) exactly when no day has revenue > 0, the empty input included; otherwise the earliest date of maximal revenue, with its revenue and transaction count |
| DataProcessor.PeakOf | utils/data_processor.py:105-115 | the strict-comparison loop over the days finds that answer |
| DataProcessor.PeakUnique | utils/data_processor.py:107-110 | at most one day is the peak, so the answer is determined |
| ApiHandler.CreateProductMapping | utils/api_handler.py:18-29 | the loop builds the table of the products in order, stopping with an error at a product without an id |
| ApiHandler.MappingKeys | utils/api_handler.py:19-29 | the table is built if and only if every product has an id, and its keys are then exactly the product ids |
| ApiHandler.MappingFailsAtFirstMissing | utils/api_handler.py:21 | the error names the first product without an id |
| ApiHandler.MappingFailurePersists | utils/api_handler.py:20-21 | once a prefix of the products fails, the whole list fails the same way |
| ApiHandler.MappingLastWins | utils/api_handler.py:28 | a product's id maps to its own details when no later product has the same id: later products overwrite earlier ones |
| ApiHandler.InfoDefaults | utils/api_handler.py:22-27 | each stored detail is the product's own value, or 'N/A' for a missing title, category or brand, and 0 for a missing rating |
| ApiHandler.EnrichSalesData | utils/api_handler.py:31-63 | the output has the input's length, and each record is the enrichment of the input record at the same position |
| ApiHandler.EnrichOne | utils/api_handler.py:35-59 | setting the defaults and then looking the id up yields the enrichment of the record |
| ApiHandler.EnrichFields | utils/api_handler.py:35-56 | the original record is kept unchanged; API_Match holds if and only if the ProductID is "P" followed by an integer that is a table key; on a match category, brand and rating come from that entry, otherwise all three are None |
| ApiHandler.UnreadableIdUnmatched | utils/api_handler.py:58-61 | a ProductID starting with "P" whose rest is not an integer yields the record unmatched, with no error |
| ApiHandler.SeparatorIdUnmatched | utils/api_handler.py:47-59 | a ProductID holding any of U+001C to U+001F after its "P" leaves the record unmatched, with category, brand and rating None, whatever the table holds |
| ApiHandler.CatalogIdOf | utils/api_handler.py:47-49 | "P" followed by str(n) names catalogue number n |
| ApiHandler.CatalogIdShape | utils/api_handler.py:47-49 | a ProductID that names a number starts with "P" and has at least one more character |
| ApiHandler.EnrichAgainstCatalogue | utils/api_handler.py:18-56 | a record whose ProductID is "P" followed by n matches if and only if some catalogue product has id n, and then gets the category of the last such product |
| Text.Strip | utils/file_handler.py:40 | str.strip leaves no whitespace at either end, is no longer than the text, and keeps the count of every character that is not whitespace |
| Text.StripMiddle | utils/file_handler.py:40 | str.strip returns one contiguous slice of the text: only whitespace is cut off, and only at the two ends, so inner whitespace and the order of characters are kept |
| Text.StripKeeps | utils/file_handler.py:40 | a character that is not whitespace is in the stripped text if and only if it is in the text |
| Text.StripUnchanged | utils/file_handler.py:40 | stripping a text without surrounding whitespace changes nothing |
| Text.Split | utils/file_handler.py:37 | split gives one more piece than there are separators, and no piece holds a separator |
| Text.SplitJoin | utils/file_handler.py:37 | joining separator-free pieces and splitting the result gives the pieces back |
| Text.JoinSplit | utils/file_handler.py:37 | splitting a text and joining the pieces gives the text back |
| Text.ReplaceChar | utils/file_handler.py:43 | replace changes exactly the occurrences of the target |
| Text.RemoveChar | utils/file_handler.py:45-46 | removing commas leaves no comma and keeps the count of every other character |
| Text.RemoveCharAppend | utils/file_handler.py:45-46 | removal works piece by piece and keeps the order of what remains: two parts lose the character separately, and a single character goes if and only if it is the one removed |
| Text.ParseIntRoundTrip | utils/file_handler.py:45 | int() reads str(n) back as n |
| Text.ParseInt | utils/file_handler.py:45 | int() accepts only a non-empty text whose characters after the first are digits |
| Text.IntCore | utils/api_handler.py:49 | the text int() reads digits from has no whitespace that int() skips at either end, is no longer than the text, and keeps the count of every other character |
| Text.IntCoreMiddle | utils/api_handler.py:49 | int() reads one contiguous slice of the text: only whitespace it skips is cut off, and only at the two ends |
| Text.IntCoreUnchanged | utils/api_handler.py:49 | int() reads the whole of a text that has no whitespace at its ends |
| Text.SeparatorNotInt | utils/api_handler.py:49 | int() raises ValueError on any text holding one of U+001C to U+001F, wherever it sits, although str.isspace() accepts them |
| Text.ParsePriceText | utils/file_handler.py:46 | float() reads a price written with two decimals back as its cents divided by 100 |
| Text.ParsePointed | utils/file_handler.py:46 | float() reads digits, a point and digits as the whole part plus the fraction |
| Text.LexTotal | utils/data_processor.py:99 | any two date texts are ordered one way or the other |
| Text.LexTransitive | utils/data_processor.py:99 | the text order is transitive |
| Text.LexAntisymmetric | utils/data_processor.py:99 | two texts each ordered before the other are equal |
| Sequences.SortBySorted | utils/data_processor.py:28 | the stable sort returns its input ordered by the key order |
| Sequences.SortByStable | utils/data_processor.py:28 | the sort keeps the input order among elements with equal keys |
| Sequences.SortByMembers | utils/data_processor.py:28 | the sort returns exactly the input's elements |
| Sequences.SortByDistinct | utils/data_processor.py:28 | the sort keeps keys distinct |
| Sequences.SortByRows | utils/data_processor.py:28 | sorted rows built one per key are each the row of its own key, and every key has a row |
| Sequences.FilterMembers | utils/file_handler.py:83 | a comprehension keeps exactly the elements satisfying its condition |
| Sequences.FilterIsSubsequence | utils/file_handler.py:83 | a comprehension's result is a subsequence of its input |
| Sequences.FilterMapAppend | utils/file_handler.py:36-59 | a loop that appends the records of some lines works line by line over concatenation |

## Left out

- Floating point: UnitPrice, amounts, totals and percentages are exact `real` numbers, and `round(..., 2)` is not modelled. Sorting and comparison use the unrounded values.
- Text.ParseDecimal: `float()` is modelled for plain decimal text only: an optional sign, ASCII digits, at most one point. Exponents, `inf`, `nan`, underscores and non-ASCII decimal digits (which Python's `float()` accepts, e.g. Arabic-Indic digits) are read as unparsable, so the model skips a line that the program keeps.
- Text.ParseInt: `int()` is modelled for an optional sign followed by ASCII decimal digits. Underscores and non-ASCII digits are read as unparsable.
- Text.ParseInt: the limit on the length of decimal text that `int()` converts (4300 digits by default since Python 3.11, above which it raises ValueError) is not modelled. The model accepts such a text, so it keeps a line that the program skips, and matches a ProductID that the program leaves unmatched.
- Unicode: strings are sequences of characters, with no normalisation. Whitespace is the set of characters `str.isspace()` accepts. Around its digits, `int()` skips that set except U+001C to U+001F, which it rejects.
- `fetch_all_products` is an HTTP call: the catalogue is an input sequence of products, and the network failure path (an empty list) is simply the empty input.
- `read_sales_data`, `save_enriched_data`, `generate_sales_report`, the module-level directory creation and `main.py` do I/O and are not part of this model.
- The `.get(key, default)` calls on transaction fields in utils/data_processor.py and `transaction.get("ProductID", "")` never take their default here: a record always has all eight fields, with a text ProductID. The `isinstance` test is therefore always true.
- `create_product_mapping` receives products whose JSON values already have the expected types. A catalogue id that is not an integer, and a title that is not a string, are not modelled.
- ApiHandler.InfoDefaults: the missing-rating default `0` (an int) is stored as the real `0.0`.
- ApiHandler.Enrich: `if product_info:` is modelled as "the key is present". The stored value is a four-entry dictionary, so it is always truthy.
- A Python dictionary's iteration order is modelled as its keys in first-seen order. A `dict(sorted(...))` result is modelled as its rows in sorted order.
- DataProcessor.CustomerAnalysis: `products_bought` becomes `list(set)`, whose order Python does not define. It is modelled as the set itself.
- The sort routines are modelled by one stable insertion sort function. Python's algorithm and its in-place update of `low_performers` are not modelled; the model reasons about the list of values before and after.
- The per-key update of a dictionary entry is the function `Grouping.Add`, applied through `Grouping.Step` on the map value. The in-place mutation of the nested dictionaries is not modelled as aliasing.
- `validate_and_filter` returns a pair, as the code does. The summary's `filtered` counts the records removed by the region and amount filters after validation.
