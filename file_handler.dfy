/**
 * Parsing pipe-delimited sales lines into transactions, then validating them
 * and applying the optional region and amount filters (utils/file_handler.py).
 */
module FileHandler {
  import opened Wrappers
  import opened Text
  import opened Sequences
  import opened Transactions

  /** A line holds TransactionID|Date|ProductID|ProductName|Quantity|UnitPrice|CustomerID|Region. */
  const FieldCount := 8

  /** A numeric field with its thousands separators removed, then stripped. */
  function NumberText(field: string): string {
    Strip(RemoveChar(field, ','))
  }

  /** A text field as the parser keeps it: stripped of surrounding whitespace. */
  function CleanField(field: string): (r: string)
    ensures NoEdgeSpace(r)
    ensures '|' in r ==> '|' in field
    ensures ',' in r ==> ',' in field
  {
    StripKeeps(field, '|');
    StripKeeps(field, ',');
    Strip(field)
  }

  /** The product name field: its commas become spaces, then it is stripped. */
  function CleanName(field: string): (r: string)
    ensures NoEdgeSpace(r) && ',' !in r
    ensures '|' in r ==> '|' in field
  {
    var replaced := ReplaceChar(field, ',', ' ');
    assert ',' !in replaced by {
      forall i | 0 <= i < |replaced| ensures replaced[i] != ',' { }
    }
    assert '|' in replaced ==> '|' in field by {
      if '|' in replaced {
        var i :| 0 <= i < |replaced| && replaced[i] == '|';
        assert field[i] == '|';
      }
    }
    CleanField(replaced)
  }

  /** The shape of every record the parser produces. */
  predicate WellFormed(t: Transaction) {
    && NoEdgeSpace(t.transactionId) && NoEdgeSpace(t.date) && NoEdgeSpace(t.productId)
    && NoEdgeSpace(t.productName) && NoEdgeSpace(t.customerId) && NoEdgeSpace(t.region)
    && '|' !in t.transactionId && '|' !in t.date && '|' !in t.productId
    && '|' !in t.productName && '|' !in t.customerId && '|' !in t.region
    && ',' !in t.productName
  }

  /**
   * The record one raw line yields, or None when the line is skipped: it does
   * not split into exactly eight fields, or its Quantity is not an int, or its
   * UnitPrice is not a float.
   */
  function ParseLine(line: string): Option<Transaction> {
    var fields := Split(line, '|');
    if |fields| != FieldCount then None
    else
      var quantity := ParseInt(NumberText(fields[4]));
      var unitPrice := ParseDecimal(NumberText(fields[5]));
      if quantity.None? || unitPrice.None? then None
      else
        Some(Transaction(
          CleanField(fields[0]), CleanField(fields[1]), CleanField(fields[2]),
          CleanName(fields[3]),
          quantity.value, unitPrice.value,
          CleanField(fields[6]), CleanField(fields[7])))
  }

  /**
   * A record comes only from a line of exactly eight fields whose Quantity
   * and UnitPrice fields denote the record's numbers, and it is well formed.
   */
  lemma ParseLineShape(line: string)
    ensures ParseLine(line).Some? ==> |Split(line, '|')| == FieldCount
    ensures ParseLine(line).Some? ==> ParseInt(NumberText(Split(line, '|')[4])) == Some(ParseLine(line).value.quantity)
    ensures ParseLine(line).Some? ==> ParseDecimal(NumberText(Split(line, '|')[5])) == Some(ParseLine(line).value.unitPrice)
    ensures ParseLine(line).Some? ==> WellFormed(ParseLine(line).value)
  {
  }

  /** The records of the lines that parse, in the order of their lines. */
  function ParseAll(lines: seq<string>): seq<Transaction> {
    FilterMap(lines, ParseLine)
  }

  /** parse_transactions: one record per well-formed line, in input order. */
  method ParseTransactions(rawLines: seq<string>) returns (transactions: seq<Transaction>)
    ensures transactions == ParseAll(rawLines)
  {
    transactions := [];
    for i := 0 to |rawLines|
      invariant transactions == FilterMap(rawLines[..i], ParseLine)
    {
      var line := rawLines[i];
      assert rawLines[..i + 1][..i] == rawLines[..i];
      var fields := Split(line, '|');
      if |fields| != FieldCount {
        continue;
      }
      var transactionId := CleanField(fields[0]);
      var date := CleanField(fields[1]);
      var productId := CleanField(fields[2]);
      var productName := CleanName(fields[3]);
      var quantity := ParseInt(NumberText(fields[4]));
      var unitPrice := ParseDecimal(NumberText(fields[5]));
      if quantity.None? || unitPrice.None? {
        continue;
      }
      var customerId := CleanField(fields[6]);
      var region := CleanField(fields[7]);
      transactions := transactions + [Transaction(
        transactionId, date, productId, productName, quantity.value, unitPrice.value, customerId, region)];
    }
    assert rawLines[..|rawLines|] == rawLines;
  }

  /** Parsing keeps input order and never yields more records than lines. */
  lemma ParseAllAppend(a: seq<string>, b: seq<string>)
    ensures ParseAll(a + b) == ParseAll(a) + ParseAll(b)
    ensures |ParseAll(a)| <= |a|
  {
    FilterMapAppend(a, b, ParseLine);
  }

  /** A line that does not parse leaves no trace among the records. */
  lemma SkippedLineVanishes(before: seq<string>, line: string, after: seq<string>)
    requires ParseLine(line).None?
    ensures ParseAll(before + [line] + after) == ParseAll(before + after)
  {
    FilterMapAppend(before + [line], after, ParseLine);
    FilterMapAppend(before, [line], ParseLine);
    FilterMapAppend(before, after, ParseLine);
    assert [line][..0] == [];
  }

  /** The lines of the input that parse to t. */
  predicate ParsesTo(lines: seq<string>, t: Transaction) {
    exists i :: 0 <= i < |lines| && ParseLine(lines[i]) == Some(t)
  }

  /** A record is among the results exactly when some line of the input parses to it. */
  lemma ParseAllRecords(lines: seq<string>)
    ensures forall t :: t in ParseAll(lines) <==> ParsesTo(lines, t)
  {
    var parse := ParseLine;
    var txs := ParseAll(lines);
    FilterMapSources(lines, parse);
    FilterMapComplete(lines, parse);
    forall t | t in txs
      ensures ParsesTo(lines, t)
    {
      var k :| 0 <= k < |txs| && txs[k] == t;
      var i :| 0 <= i < |lines| && parse(lines[i]) == Some(txs[k]);
      assert ParseLine(lines[i]) == Some(t);
    }
    forall t | ParsesTo(lines, t)
      ensures t in txs
    {
      var i :| 0 <= i < |lines| && ParseLine(lines[i]) == Some(t);
      assert parse(lines[i]).Some?;
    }
  }

  /** The line a record would be written as, given the text of its unit price. */
  function FormatLine(t: Transaction, priceText: string): string {
    Join([t.transactionId, t.date, t.productId, t.productName, IntToString(t.quantity),
          priceText, t.customerId, t.region], '|')
  }

  lemma IntToStringShape(n: int)
    ensures NoEdgeSpace(IntToString(n)) && ',' !in IntToString(n) && '|' !in IntToString(n)
  {
    var s := IntToString(n);
    var digits := DecimalString(if n < 0 then -n else n);
    assert s[|s| - 1] == digits[|digits| - 1];
    assert forall i :: 0 <= i < |digits| ==> IsDigit(digits[i]);
    assert forall i :: 0 <= i < |s| ==> s[i] == '-' || IsDigit(s[i]);
  }

  lemma ReplaceAbsent(s: string, target: char, replacement: char)
    requires target !in s
    ensures ReplaceChar(s, target, replacement) == s
  {
    var r := ReplaceChar(s, target, replacement);
    assert forall i :: 0 <= i < |s| ==> r[i] == s[i];
  }

  /** The record ParseLine builds from a line whose fields are known. */
  lemma ParseLineFields(line: string, fields: seq<string>, quantity: int, unitPrice: real)
    requires Split(line, '|') == fields && |fields| == FieldCount
    requires ParseInt(NumberText(fields[4])) == Some(quantity)
    requires ParseDecimal(NumberText(fields[5])) == Some(unitPrice)
    ensures ParseLine(line) == Some(Transaction(
      CleanField(fields[0]), CleanField(fields[1]), CleanField(fields[2]), CleanName(fields[3]),
      quantity, unitPrice, CleanField(fields[6]), CleanField(fields[7])))
  {
  }

  /** The fields of a formatted line are the record's texts, in column order. */
  lemma FormatLineFields(t: Transaction, priceText: string)
    requires WellFormed(t) && '|' !in priceText
    ensures Split(FormatLine(t, priceText), '|') ==
      [t.transactionId, t.date, t.productId, t.productName, IntToString(t.quantity),
       priceText, t.customerId, t.region]
  {
    IntToStringShape(t.quantity);
    SplitJoin([t.transactionId, t.date, t.productId, t.productName, IntToString(t.quantity),
               priceText, t.customerId, t.region], '|');
  }

  /** The Quantity column written by IntToString reads back as the same int. */
  lemma QuantityTextRoundTrip(n: int)
    ensures ParseInt(NumberText(IntToString(n))) == Some(n)
  {
    IntToStringShape(n);
    RemoveAbsentChar(IntToString(n), ',');
    StripUnchanged(IntToString(n));
    ParseIntRoundTrip(n);
  }

  /** The cleaning steps leave the texts of a well-formed record unchanged. */
  lemma CleanWellFormed(t: Transaction)
    requires WellFormed(t)
    ensures CleanField(t.transactionId) == t.transactionId
    ensures CleanField(t.date) == t.date
    ensures CleanField(t.productId) == t.productId
    ensures CleanName(t.productName) == t.productName
    ensures CleanField(t.customerId) == t.customerId
    ensures CleanField(t.region) == t.region
  {
    ReplaceAbsent(t.productName, ',', ' ');
    StripUnchanged(t.productName);
    StripUnchanged(t.transactionId);
    StripUnchanged(t.date);
    StripUnchanged(t.productId);
    StripUnchanged(t.customerId);
    StripUnchanged(t.region);
  }

  /** A line whose fields are the texts of a well-formed record parses to that record. */
  lemma ParseRecordFields(line: string, t: Transaction, priceText: string)
    requires WellFormed(t)
    requires ParseDecimal(priceText) == Some(t.unitPrice)
    requires NoEdgeSpace(priceText) && ',' !in priceText
    requires Split(line, '|') ==
      [t.transactionId, t.date, t.productId, t.productName, IntToString(t.quantity),
       priceText, t.customerId, t.region]
    ensures ParseLine(line) == Some(t)
  {
    var fields := Split(line, '|');
    assert |fields| == FieldCount;
    assert fields[4] == IntToString(t.quantity);
    assert fields[5] == priceText;
    assert fields[0] == t.transactionId && fields[1] == t.date && fields[2] == t.productId;
    assert fields[3] == t.productName && fields[6] == t.customerId && fields[7] == t.region;
    QuantityTextRoundTrip(t.quantity);
    assert ParseDecimal(NumberText(priceText)) == Some(t.unitPrice) by {
      RemoveAbsentChar(priceText, ',');
      StripUnchanged(priceText);
    }
    ParseLineFields(line, fields, t.quantity, t.unitPrice);
    CleanWellFormed(t);
  }

  /** A well-formed record written as a line with its price text parses back to itself. */
  lemma ParseFormattedLine(t: Transaction, priceText: string)
    requires WellFormed(t)
    requires ParseDecimal(priceText) == Some(t.unitPrice)
    requires NoEdgeSpace(priceText) && ',' !in priceText && '|' !in priceText
    ensures ParseLine(FormatLine(t, priceText)) == Some(t)
  {
    FormatLineFields(t, priceText);
    ParseRecordFields(FormatLine(t, priceText), t, priceText);
  }

  /** The validity test: positive Quantity and UnitPrice, IDs starting with T, P and C. */
  predicate IsValid(t: Transaction) {
    && t.quantity > 0
    && t.unitPrice > 0.0
    && StartsWith(t.transactionId, "T")
    && StartsWith(t.productId, "P")
    && StartsWith(t.customerId, "C")
  }

  /** `if region:` — None and the empty text both mean "no region filter". */
  predicate RegionFilterOn(region: Option<string>) {
    region.Some? && region.value != ""
  }

  /** `if bound and ...:` — None and 0 both mean "no bound on this side". */
  predicate BoundOn(bound: Option<real>) {
    bound.Some? && bound.value != 0.0
  }

  /** amount_ok: the amount respects each bound that is on. */
  predicate AmountInRange(t: Transaction, minAmount: Option<real>, maxAmount: Option<real>) {
    && !(BoundOn(minAmount) && Amount(t) < minAmount.value)
    && !(BoundOn(maxAmount) && Amount(t) > maxAmount.value)
  }

  /** The comprehension keeping the records of one region. */
  function KeepRegion(txs: seq<Transaction>, region: string): seq<Transaction> {
    Filter(txs, (t: Transaction) => t.region == region)
  }

  /** The comprehension keeping the records whose amount is in range. */
  function KeepAmount(txs: seq<Transaction>, minAmount: Option<real>, maxAmount: Option<real>): seq<Transaction> {
    Filter(txs, t => AmountInRange(t, minAmount, maxAmount))
  }

  /** The records validate_and_filter returns. */
  function Selected(txs: seq<Transaction>, region: Option<string>, minAmount: Option<real>, maxAmount: Option<real>)
    : seq<Transaction>
  {
    var valid := Filter(txs, IsValid);
    var inRegion := if RegionFilterOn(region) then KeepRegion(valid, region.value) else valid;
    if minAmount.Some? || maxAmount.Some? then KeepAmount(inRegion, minAmount, maxAmount) else inRegion
  }

  datatype FilterSummary = FilterSummary(totalInput: nat, invalid: nat, finalCount: nat, filtered: int)

  /**
   * validate_and_filter: drops and counts the invalid records, then applies the
   * region filter and the amount filter, and returns the records with a summary.
   */
  method ValidateAndFilter(
    transactions: seq<Transaction>,
    region: Option<string> := None,
    minAmount: Option<real> := None,
    maxAmount: Option<real> := None)
    returns (valid: seq<Transaction>, summary: FilterSummary)
    ensures valid == Selected(transactions, region, minAmount, maxAmount)
    ensures summary.totalInput == |transactions| && summary.finalCount == |valid|
    ensures summary.invalid + |Filter(transactions, IsValid)| == |transactions|
    ensures summary.filtered == |Filter(transactions, IsValid)| - |valid| >= 0
  {
    valid := [];
    var invalidCount := 0;
    for i := 0 to |transactions|
      invariant valid == Filter(transactions[..i], IsValid)
      invariant invalidCount + |valid| == i
    {
      var tx := transactions[i];
      assert transactions[..i + 1][..i] == transactions[..i];
      if || tx.quantity <= 0
         || tx.unitPrice <= 0.0
         || !StartsWith(tx.transactionId, "T")
         || !StartsWith(tx.productId, "P")
         || !StartsWith(tx.customerId, "C")
      {
        invalidCount := invalidCount + 1;
        continue;
      }
      valid := valid + [tx];
    }
    assert transactions[..|transactions|] == transactions;
    var before := |valid|;
    ghost var validated := valid;
    if region.Some? && region.value != "" {
      valid := KeepRegion(valid, region.value);
    }
    if minAmount.Some? || maxAmount.Some? {
      valid := KeepAmount(valid, minAmount, maxAmount);
    }
    assert valid == Selected(transactions, region, minAmount, maxAmount);
    assert |valid| <= before by {
      SelectedSubsequence(transactions, region, minAmount, maxAmount);
      SubsequenceLength(valid, validated);
    }
    summary := FilterSummary(|transactions|, invalidCount, |valid|, before - |valid|);
  }

  /** Exactly the valid input records in the region (when on) and the amount range (when on) remain. */
  lemma SelectedMembers(txs: seq<Transaction>, region: Option<string>, minAmount: Option<real>, maxAmount: Option<real>)
    ensures forall t :: t in Selected(txs, region, minAmount, maxAmount) <==>
      && t in txs
      && IsValid(t)
      && (RegionFilterOn(region) ==> t.region == region.value)
      && AmountInRange(t, minAmount, maxAmount)
  {
    var valid := Filter(txs, IsValid);
    FilterMembers(txs, IsValid);
    var inRegion := if RegionFilterOn(region) then KeepRegion(valid, region.value) else valid;
    if RegionFilterOn(region) {
      FilterMembers(valid, (t: Transaction) => t.region == region.value);
    }
    if minAmount.Some? || maxAmount.Some? {
      FilterMembers(inRegion, t => AmountInRange(t, minAmount, maxAmount));
    } else {
      assert forall t :: AmountInRange(t, minAmount, maxAmount);
    }
  }

  /** The result is a subsequence of the validated records, which is a subsequence of the input. */
  lemma SelectedSubsequence(txs: seq<Transaction>, region: Option<string>, minAmount: Option<real>, maxAmount: Option<real>)
    ensures IsSubsequence(Selected(txs, region, minAmount, maxAmount), Filter(txs, IsValid))
    ensures IsSubsequence(Filter(txs, IsValid), txs)
  {
    var valid := Filter(txs, IsValid);
    FilterIsSubsequence(txs, IsValid);
    var inRegion := if RegionFilterOn(region) then KeepRegion(valid, region.value) else valid;
    if RegionFilterOn(region) {
      FilterIsSubsequence(valid, (t: Transaction) => t.region == region.value);
    } else {
      SubsequenceReflexive(valid);
    }
    if minAmount.Some? || maxAmount.Some? {
      FilterIsSubsequence(inRegion, t => AmountInRange(t, minAmount, maxAmount));
      SubsequenceTransitive(KeepAmount(inRegion, minAmount, maxAmount), inRegion, valid);
    }
  }

  /** A region filter can only remove records: the result is a subsequence of the unfiltered one. */
  lemma RegionFilterNarrows(txs: seq<Transaction>, region: string, minAmount: Option<real>, maxAmount: Option<real>)
    ensures IsSubsequence(Selected(txs, Some(region), minAmount, maxAmount), Selected(txs, None, minAmount, maxAmount))
    ensures |Selected(txs, Some(region), minAmount, maxAmount)| <= |Selected(txs, None, minAmount, maxAmount)|
  {
    var valid := Filter(txs, IsValid);
    var narrowed := Selected(txs, Some(region), minAmount, maxAmount);
    var wide := Selected(txs, None, minAmount, maxAmount);
    if region != "" {
      FilterIsSubsequence(valid, (t: Transaction) => t.region == region);
      if minAmount.Some? || maxAmount.Some? {
        FilterMonotone(KeepRegion(valid, region), valid, (t: Transaction) => AmountInRange(t, minAmount, maxAmount));
      }
    } else {
      SubsequenceReflexive(wide);
    }
    SubsequenceLength(narrowed, wide);
  }

  /** Two pairs of bounds that agree on every record keep the same records. */
  lemma KeepAmountAgree(txs: seq<Transaction>, min1: Option<real>, max1: Option<real>, min2: Option<real>, max2: Option<real>)
    requires forall i :: 0 <= i < |txs| ==> AmountInRange(txs[i], min1, max1) == AmountInRange(txs[i], min2, max2)
    ensures KeepAmount(txs, min1, max1) == KeepAmount(txs, min2, max2)
  {
    FilterAgree(txs, t => AmountInRange(t, min1, max1), t => AmountInRange(t, min2, max2));
  }

  /** Bounds every record respects keep everything. */
  lemma KeepAmountAll(txs: seq<Transaction>, minAmount: Option<real>, maxAmount: Option<real>)
    requires forall i :: 0 <= i < |txs| ==> AmountInRange(txs[i], minAmount, maxAmount)
    ensures KeepAmount(txs, minAmount, maxAmount) == txs
  {
    FilterKeepsAll(txs, t => AmountInRange(t, minAmount, maxAmount));
  }

  /** A minimum of 0 is falsy and so behaves exactly like no minimum, even for negative amounts. */
  lemma ZeroMinimumIgnored(txs: seq<Transaction>, region: Option<string>, maxAmount: Option<real>)
    ensures Selected(txs, region, Some(0.0), maxAmount) == Selected(txs, region, None, maxAmount)
  {
    var valid := Filter(txs, IsValid);
    var inRegion := if RegionFilterOn(region) then KeepRegion(valid, region.value) else valid;
    if maxAmount.Some? {
      KeepAmountAgree(inRegion, Some(0.0), maxAmount, None, maxAmount);
    } else {
      KeepAmountAll(inRegion, Some(0.0), None);
    }
  }

  /** A maximum of 0 is falsy and so behaves exactly like no maximum. */
  lemma ZeroMaximumIgnored(txs: seq<Transaction>, region: Option<string>, minAmount: Option<real>)
    ensures Selected(txs, region, minAmount, Some(0.0)) == Selected(txs, region, minAmount, None)
  {
    var valid := Filter(txs, IsValid);
    var inRegion := if RegionFilterOn(region) then KeepRegion(valid, region.value) else valid;
    if minAmount.Some? {
      KeepAmountAgree(inRegion, minAmount, Some(0.0), minAmount, None);
    } else {
      KeepAmountAll(inRegion, None, Some(0.0));
    }
  }
}
