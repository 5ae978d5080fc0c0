/**
 * The dictionary-filling loop of each aggregation in utils/data_processor.py
 * that builds a dictionary: walk the transactions, key each by one field,
 * create the entry the first time a key is seen, and add the transaction into
 * it. A dictionary is its keys in first-seen (insertion) order plus a map from
 * key to entry.
 */
module Grouping {
  import opened Sequences
  import opened Transactions

  /** The record field a dictionary is keyed by. */
  datatype Field = Region | ProductName | Customer | Date

  function KeyOf(t: Transaction, f: Field): string {
    match f
    case Region => t.region
    case ProductName => t.productName
    case Customer => t.customerId
    case Date => t.date
  }

  function Quantity(t: Transaction): int {
    t.quantity
  }

  /** The sum of Quantity * UnitPrice over txs. */
  function Revenue(txs: seq<Transaction>): real {
    SumReal(txs, Amount)
  }

  lemma RevenueSnoc(txs: seq<Transaction>, t: Transaction)
    ensures Revenue(txs + [t]) == Revenue(txs) + Amount(t)
  {
    SumRealAppend(txs, [t], Amount);
    assert [t][1..] == [];
  }

  /** The keys of txs under f, each once, in the order they are first seen. */
  function GroupKeys(txs: seq<Transaction>, f: Field): (keys: seq<string>)
    ensures forall i, j :: 0 <= i < j < |keys| ==> keys[i] != keys[j]
  {
    if txs == [] then []
    else
      var keys := GroupKeys(txs[..|txs| - 1], f);
      var k := KeyOf(txs[|txs| - 1], f);
      if k in keys then keys else keys + [k]
  }

  /** The dictionary's keys are exactly the keys that occur in the input. */
  lemma {:induction false} GroupKeysCover(txs: seq<Transaction>, f: Field)
    ensures forall k :: k in GroupKeys(txs, f) <==> exists i :: 0 <= i < |txs| && KeyOf(txs[i], f) == k
  {
    if txs != [] {
      var init := txs[..|txs| - 1];
      GroupKeysCover(init, f);
      assert forall i :: 0 <= i < |init| ==> init[i] == txs[i];
    }
  }

  /** The transactions whose key under f is k, in input order. */
  function Group(txs: seq<Transaction>, f: Field, k: string): seq<Transaction> {
    Filter(txs, (t: Transaction) => KeyOf(t, f) == k)
  }

  lemma GroupSnoc(txs: seq<Transaction>, t: Transaction, f: Field, k: string)
    ensures Group(txs + [t], f, k) == Group(txs, f, k) + (if KeyOf(t, f) == k then [t] else [])
  {
    FilterSnoc(txs, t, (t: Transaction) => KeyOf(t, f) == k);
  }

  /** k's group holds exactly the transactions of txs whose key is k. */
  lemma GroupMembers(txs: seq<Transaction>, f: Field, k: string)
    ensures forall t :: t in Group(txs, f, k) <==> t in txs && KeyOf(t, f) == k
  {
    FilterMembers(txs, (t: Transaction) => KeyOf(t, f) == k);
  }
  /** The keys under f of the transactions in g. */
  function KeysOf(g: seq<Transaction>, f: Field): set<string> {
    set i | 0 <= i < |g| :: KeyOf(g[i], f)
  }

  lemma KeysOfSnoc(g: seq<Transaction>, t: Transaction, f: Field)
    ensures KeysOf(g + [t], f) == KeysOf(g, f) + {KeyOf(t, f)}
  {
    var h := g + [t];
    forall k | k in KeysOf(h, f) ensures k in KeysOf(g, f) + {KeyOf(t, f)} {
      var i :| 0 <= i < |h| && KeyOf(h[i], f) == k;
      if i < |g| {
        assert h[i] == g[i];
      }
    }
    forall k | k in KeysOf(g, f) ensures k in KeysOf(h, f) {
      var i :| 0 <= i < |g| && KeyOf(g[i], f) == k;
      assert h[i] == g[i];
    }
    assert h[|g|] == t;
  }

  /** There are never more distinct keys than transactions. */
  lemma {:induction false} KeysOfSize(g: seq<Transaction>, f: Field)
    ensures |KeysOf(g, f)| <= |g|
  {
    if g != [] {
      var init := g[..|g| - 1];
      KeysOfSize(init, f);
      assert g == init + [g[|g| - 1]];
      KeysOfSnoc(init, g[|g| - 1], f);
    } else {
      assert KeysOf(g, f) == {};
    }
  }

  /** One dictionary entry: every metric the aggregations accumulate per key. */
  datatype GroupStats = GroupStats(
    revenue: real,
    quantity: int,
    count: nat,
    customers: set<string>,
    products: set<string>)

  /** The entry created the first time a key is seen. */
  const NoStats := GroupStats(0.0, 0, 0, {}, {})

  /** The entry of a group, stated directly over its transactions. */
  function Summarize(g: seq<Transaction>): GroupStats {
    GroupStats(Revenue(g), SumInt(g, Quantity), |g|, KeysOf(g, Customer), KeysOf(g, ProductName))
  }

  /** One loop step: the transaction's amount, quantity, a count, its customer and its product. */
  function Add(s: GroupStats, t: Transaction): GroupStats {
    GroupStats(
      s.revenue + Amount(t),
      s.quantity + t.quantity,
      s.count + 1,
      s.customers + {t.customerId},
      s.products + {t.productName})
  }

  /** The entry created for a new key summarizes the empty group. */
  lemma SummarizeEmpty()
    ensures Summarize([]) == NoStats
  {
    assert KeysOf([], Customer) == {};
    assert KeysOf([], ProductName) == {};
  }

  /** Adding a transaction to an entry is summarizing the group extended by it. */
  lemma SummarizeSnoc(g: seq<Transaction>, t: Transaction)
    ensures Summarize(g + [t]) == Add(Summarize(g), t)
  {
    RevenueSnoc(g, t);
    SumIntAppend(g, [t], Quantity);
    assert [t][1..] == [];
    KeysOfSnoc(g, t, Customer);
    KeysOfSnoc(g, t, ProductName);
  }

  /**
   * The entry of key k as the loop builds it: starting from the empty entry,
   * every transaction with key k is added in, in input order.
   */
  function Tally(txs: seq<Transaction>, f: Field, k: string): GroupStats {
    if txs == [] then NoStats
    else
      var previous := Tally(txs[..|txs| - 1], f, k);
      var t := txs[|txs| - 1];
      if KeyOf(t, f) == k then Add(previous, t) else previous
  }

  lemma TallySnoc(txs: seq<Transaction>, t: Transaction, f: Field, k: string)
    ensures Tally(txs + [t], f, k) == if KeyOf(t, f) == k then Add(Tally(txs, f, k), t) else Tally(txs, f, k)
  {
    assert (txs + [t])[..|txs|] == txs;
  }

  /** The entry the loop builds for k is the summary of k's group: the two definitions agree. */
  lemma {:induction false} TallySummarizes(txs: seq<Transaction>, f: Field, k: string)
    ensures Tally(txs, f, k) == Summarize(Group(txs, f, k))
  {
    if txs == [] {
      SummarizeEmpty();
    } else {
      var init, t := txs[..|txs| - 1], txs[|txs| - 1];
      assert txs == init + [t];
      TallySummarizes(init, f, k);
      GroupSnoc(init, t, f, k);
      if KeyOf(t, f) == k {
        SummarizeSnoc(Group(init, f, k), t);
      } else {
        assert Group(txs, f, k) == Group(init, f, k);
      }
    }
  }

  /** A key that never occurs keeps the empty entry. */
  lemma {:induction false} TallyAbsent(txs: seq<Transaction>, f: Field, k: string)
    requires k !in GroupKeys(txs, f)
    ensures Tally(txs, f, k) == NoStats
  {
    if txs != [] {
      TallyAbsent(txs[..|txs| - 1], f, k);
    }
  }

  /** The dictionary after one loop step on t: create the entry if new, then add t into it. */
  function Step(stats: map<string, GroupStats>, t: Transaction, f: Field): map<string, GroupStats> {
    var k := KeyOf(t, f);
    stats[k := Add(if k in stats then stats[k] else NoStats, t)]
  }

  /**
   * What the shared loop has built after the records s: the keys in first-seen
   * order, one entry per key, and the running total.
   */
  ghost predicate Tracks(s: seq<Transaction>, f: Field, keys: seq<string>, stats: map<string, GroupStats>, total: real) {
    && keys == GroupKeys(s, f)
    && (forall k :: k in stats <==> k in keys)
    && (forall k :: k in stats ==> stats[k] == Tally(s, f, k))
    && total == Revenue(s)
  }

  /** One iteration of the shared loop keeps Tracks. */
  lemma {:induction false} StepTracks(s: seq<Transaction>, t: Transaction, f: Field, keys: seq<string>, stats: map<string, GroupStats>, total: real)
    requires Tracks(s, f, keys, stats, total)
    ensures Tracks(s + [t], f, if KeyOf(t, f) in stats then keys else keys + [KeyOf(t, f)], Step(stats, t, f), total + Amount(t))
  {
    var key := KeyOf(t, f);
    var s' := s + [t];
    var stats' := Step(stats, t, f);
    assert s'[..|s|] == s;
    assert key !in stats ==> Tally(s, f, key) == NoStats by {
      if key !in stats {
        TallyAbsent(s, f, key);
      }
    }
    forall k | k in stats'
      ensures stats'[k] == Tally(s', f, k)
    {
      TallySnoc(s, t, f, k);
    }
    RevenueSnoc(s, t);
  }

  /**
   * The shared loop: after it, the keys are those of the input in first-seen
   * order, each key's entry summarizes exactly the transactions with that key,
   * and the running total is the revenue of the whole input.
   */
  method Accumulate(txs: seq<Transaction>, f: Field)
    returns (keys: seq<string>, stats: map<string, GroupStats>, total: real)
    ensures keys == GroupKeys(txs, f)
    ensures forall k :: k in stats <==> k in keys
    ensures forall k :: k in stats ==> stats[k] == Tally(txs, f, k)
    ensures total == Revenue(txs)
  {
    keys := [];
    stats := map[];
    total := 0.0;
    for i := 0 to |txs|
      invariant Tracks(txs[..i], f, keys, stats, total)
    {
      var t := txs[i];
      var k := KeyOf(t, f);
      assert txs[..i + 1] == txs[..i] + [t];
      StepTracks(txs[..i], t, f, keys, stats, total);
      if k !in stats {
        keys := keys + [k];
      }
      stats := Step(stats, t, f);
      total := total + Amount(t);
    }
    assert txs[..|txs|] == txs;
  }

  /** The sizes of the groups of the keys in ks, added up. */
  function GroupCount(ks: seq<string>, txs: seq<Transaction>, f: Field): int {
    if ks == [] then 0
    else GroupCount(ks[..|ks| - 1], txs, f) + |Group(txs, f, ks[|ks| - 1])|
  }

  /** The revenues of the groups of the keys in ks, added up. */
  function GroupRevenue(ks: seq<string>, txs: seq<Transaction>, f: Field): real {
    if ks == [] then 0.0
    else GroupRevenue(ks[..|ks| - 1], txs, f) + Revenue(Group(txs, f, ks[|ks| - 1]))
  }

  ghost predicate Distinct(ks: seq<string>) {
    forall i, j :: 0 <= i < j < |ks| ==> ks[i] != ks[j]
  }

  lemma {:induction false} GroupTotalsEmpty(ks: seq<string>, f: Field)
    ensures GroupCount(ks, [], f) == 0 && GroupRevenue(ks, [], f) == 0.0
  {
    if ks != [] {
      GroupTotalsEmpty(ks[..|ks| - 1], f);
    }
  }

  /** A new transaction adds to exactly one group among distinct keys, if its key is among them. */
  lemma {:induction false} GroupTotalsSnoc(ks: seq<string>, txs: seq<Transaction>, t: Transaction, f: Field)
    requires Distinct(ks)
    ensures GroupCount(ks, txs + [t], f) == GroupCount(ks, txs, f) + (if KeyOf(t, f) in ks then 1 else 0)
    ensures GroupRevenue(ks, txs + [t], f) == GroupRevenue(ks, txs, f) + (if KeyOf(t, f) in ks then Amount(t) else 0.0)
  {
    if ks != [] {
      var init := ks[..|ks| - 1];
      var k := ks[|ks| - 1];
      assert ks == init + [k];
      GroupTotalsSnoc(init, txs, t, f);
      GroupSnoc(txs, t, f, k);
      RevenueSnoc(Group(txs, f, k), t);
      assert KeyOf(t, f) in ks <==> KeyOf(t, f) in init || KeyOf(t, f) == k;
      assert k !in init;
    }
  }

  /**
   * Grouping partitions the input: over distinct keys that include every key
   * of txs, the group sizes add up to |txs| and the group revenues to the
   * revenue of txs.
   */
  lemma {:induction false} GroupPartition(ks: seq<string>, txs: seq<Transaction>, f: Field)
    requires Distinct(ks)
    requires forall i :: 0 <= i < |txs| ==> KeyOf(txs[i], f) in ks
    ensures GroupCount(ks, txs, f) == |txs|
    ensures GroupRevenue(ks, txs, f) == Revenue(txs)
  {
    if txs == [] {
      GroupTotalsEmpty(ks, f);
    } else {
      var init := txs[..|txs| - 1];
      var t := txs[|txs| - 1];
      assert txs == init + [t];
      GroupPartition(ks, init, f);
      GroupTotalsSnoc(ks, init, t, f);
      RevenueSnoc(init, t);
    }
  }

  /** The partition for the dictionary's own keys. */
  lemma KeysPartition(txs: seq<Transaction>, f: Field)
    ensures GroupCount(GroupKeys(txs, f), txs, f) == |txs|
    ensures GroupRevenue(GroupKeys(txs, f), txs, f) == Revenue(txs)
  {
    GroupKeysCover(txs, f);
    GroupPartition(GroupKeys(txs, f), txs, f);
  }

  /** Every key of the dictionary has a non-empty group. */
  lemma GroupOfKey(txs: seq<Transaction>, f: Field, k: string)
    requires k in GroupKeys(txs, f)
    ensures |Group(txs, f, k)| >= 1
    ensures forall i :: 0 <= i < |Group(txs, f, k)| ==> KeyOf(Group(txs, f, k)[i], f) == k
  {
    GroupKeysCover(txs, f);
    GroupMembers(txs, f, k);
    var i :| 0 <= i < |txs| && KeyOf(txs[i], f) == k;
    assert txs[i] in Group(txs, f, k);
  }

  /** The g-keys of k's group are the g-keys of the input transactions whose f-key is k. */
  lemma GroupKeysOf(txs: seq<Transaction>, f: Field, k: string, g: Field)
    ensures KeysOf(Group(txs, f, k), g) == set j | 0 <= j < |txs| && KeyOf(txs[j], f) == k :: KeyOf(txs[j], g)
  {
    var grp := Group(txs, f, k);
    var direct := set j | 0 <= j < |txs| && KeyOf(txs[j], f) == k :: KeyOf(txs[j], g);
    forall v | v in KeysOf(grp, g) ensures v in direct {
      var i :| 0 <= i < |grp| && KeyOf(grp[i], g) == v;
      assert grp[i] in txs && KeyOf(grp[i], f) == k by {
        GroupMembers(txs, f, k);
      }
      var j :| 0 <= j < |txs| && txs[j] == grp[i];
      assert KeyOf(txs[j], f) == k && KeyOf(txs[j], g) == v;
    }
    forall v | v in direct ensures v in KeysOf(grp, g) {
      var j :| 0 <= j < |txs| && KeyOf(txs[j], f) == k && KeyOf(txs[j], g) == v;
      assert txs[j] in grp by {
        GroupMembers(txs, f, k);
      }
      var i :| 0 <= i < |grp| && grp[i] == txs[j];
      assert KeyOf(grp[i], g) == v;
    }
  }
}
