/** Retroactive stock-split adjustment: in every transaction, the first posting
    in a split symbol dated before its split has its units multiplied by the
    ratio and its price divided by it, and is moved to the end of the
    transaction's postings. */
module StockSplit {
  import opened Results
  import opened Ledger

  /** One configured split: `{symbol, date, ratio}`. */
  datatype SplitConfig = SplitConfig(symbol: string, date: int, ratio: real)

  const AssertionFailed := "AssertionError"
  const DivisionByZero := "decimal.DivisionByZero"

  /** The split table: one split per symbol, a later configuration of the same
      symbol replacing an earlier one (a dict comprehension). */
  function SplitTable(configs: seq<SplitConfig>): map<string, SplitConfig>
    decreases |configs|
  {
    if configs == [] then map[]
    else
      var last := configs[|configs| - 1];
      SplitTable(configs[..|configs| - 1])[last.symbol := last]
  }

  /** The table holds exactly the configured symbols, each with its last configuration. */
  lemma {:induction false} SplitTableLast(configs: seq<SplitConfig>, i: nat)
    requires i < |configs|
    requires forall j :: i < j < |configs| ==> configs[j].symbol != configs[i].symbol
    ensures configs[i].symbol in SplitTable(configs)
    ensures SplitTable(configs)[configs[i].symbol] == configs[i]
    decreases |configs|
  {
    if i < |configs| - 1 {
      var init := configs[..|configs| - 1];
      SplitTableLast(init, i);
    }
  }

  lemma {:induction false} SplitTableDomain(configs: seq<SplitConfig>, symbol: string)
    ensures symbol in SplitTable(configs) <==> exists i :: 0 <= i < |configs| && configs[i].symbol == symbol
    decreases |configs|
  {
    if configs != [] {
      var init := configs[..|configs| - 1];
      SplitTableDomain(init, symbol);
      if symbol in SplitTable(init) {
        var i :| 0 <= i < |init| && init[i].symbol == symbol;
        assert configs[i].symbol == symbol;
      }
      if exists i :: 0 <= i < |configs| && configs[i].symbol == symbol {
        var i :| 0 <= i < |configs| && configs[i].symbol == symbol;
        if i < |init| {
          assert init[i].symbol == symbol;
        }
      }
    }
  }

  /** The posting with units scaled up and price scaled down by the ratio;
      account, currencies, cost, flag and metadata as they were. */
  function Adjusted(p: Posting, ratio: real): (q: Posting)
    requires p.price.Some? && ratio != 0.0
  {
    p.(units := Amount(p.units.number * ratio, p.units.currency),
       price := Some(Amount(p.price.value.number / ratio, p.price.value.currency)))
  }

  /** A posting the scan goes past in a transaction dated `date`: not in a
      split symbol, or in one whose split is earlier (then well-formed). */
  predicate Passes(date: int, p: Posting, table: map<string, SplitConfig>) {
    p.units.currency !in table ||
    (date != table[p.units.currency].date && p.cost.None? && p.price.Some? &&
     date > table[p.units.currency].date)
  }

  /** The scan of a transaction's postings from position k: the first posting
      that does not pass either fails the transaction or is adjusted, and the
      scan ends there. */
  function AdjustFrom(date: int, ps: seq<Posting>, table: map<string, SplitConfig>, k: nat): Result<seq<Posting>>
    requires k <= |ps|
    decreases |ps| - k
  {
    if k == |ps| then Ok(ps)
    else
      var p := ps[k];
      if p.units.currency !in table then AdjustFrom(date, ps, table, k + 1)
      else
        var s := table[p.units.currency];
        if date == s.date then Fail(AssertionFailed)
        else if p.cost.Some? || p.price.None? then Fail(AssertionFailed)
        else if date > s.date then AdjustFrom(date, ps, table, k + 1)
        else if p.units.number == 0.0 || p.price.value.number == 0.0 then Fail(AssertionFailed)
        else if s.ratio == 0.0 then Fail(DivisionByZero)
        else Ok(RemoveFirst(ps, p) + [Adjusted(p, s.ratio)])
  }

  /** One entry after the plugin: transactions are scanned, everything else is kept. */
  function AdjustEntry(e: Entry, table: map<string, SplitConfig>): Result<Entry> {
    if !e.Txn? then Ok(e)
    else
      var ps :- AdjustFrom(e.txn.date, e.txn.postings, table, 0);
      Ok(Txn(e.txn.(postings := ps)))
  }

  /** The plugin over all entries, stopping at the first failure. */
  function AdjustAll(entries: seq<Entry>, table: map<string, SplitConfig>): Result<seq<Entry>>
    decreases |entries|
  {
    if entries == [] then Ok([])
    else
      var init :- AdjustAll(entries[..|entries| - 1], table);
      var last :- AdjustEntry(entries[|entries| - 1], table);
      Ok(init + [last])
  }

  /** The adjustment keeps the value of the posting, units times price. */
  lemma AdjustedKeepsValue(p: Posting, ratio: real)
    requires p.price.Some? && ratio != 0.0
    ensures Adjusted(p, ratio).units.number * Adjusted(p, ratio).price.value.number ==
            p.units.number * p.price.value.number
    ensures Adjusted(p, ratio).account == p.account && Adjusted(p, ratio).cost == p.cost
    ensures Adjusted(p, ratio).units.currency == p.units.currency
    ensures Adjusted(p, ratio).price.value.currency == p.price.value.currency
    ensures Adjusted(p, ratio).flag == p.flag && Adjusted(p, ratio).meta == p.meta
  {
    var u, pr := p.units.number, p.price.value.number;
    calc {
      (u * ratio) * (pr / ratio);
      u * pr * (ratio / ratio);
      u * pr;
    }
  }

  /** When every posting from k on passes, the scan changes nothing. */
  lemma {:induction false} AllPass(date: int, ps: seq<Posting>, table: map<string, SplitConfig>, k: nat)
    requires k <= |ps|
    requires forall j :: k <= j < |ps| ==> Passes(date, ps[j], table)
    ensures AdjustFrom(date, ps, table, k) == Ok(ps)
    decreases |ps| - k
  {
    if k < |ps| {
      AllPass(date, ps, table, k + 1);
    }
  }

  /** At the first posting that does not pass, the scan ends: it fails for a
      transaction on the split date, a posting with a cost or without a price,
      zero units or price, or a zero ratio; otherwise that posting, and no
      other, is taken out of its place and appended adjusted. */
  lemma {:induction false} FirstStop(date: int, ps: seq<Posting>, table: map<string, SplitConfig>, k: nat)
    requires k < |ps|
    requires forall j :: 0 <= j < k ==> Passes(date, ps[j], table)
    requires !Passes(date, ps[k], table)
    ensures var p := ps[k];
            var s := table[p.units.currency];
            AdjustFrom(date, ps, table, 0) ==
              if date == s.date || p.cost.Some? || p.price.None? ||
                 p.units.number == 0.0 || p.price.value.number == 0.0 then Fail(AssertionFailed)
              else if s.ratio == 0.0 then Fail(DivisionByZero)
              else Ok(ps[..k] + ps[k + 1..] + [Adjusted(p, s.ratio)])
  {
    forall j | 0 <= j < k ensures ps[j] != ps[k] {
      assert Passes(date, ps[j], table);
    }
    RemoveFirstAt(ps, k);
    PassesPrefix(date, ps, table, k, 0);
  }

  /** The scan goes past a prefix of passing postings. */
  lemma {:induction false} PassesPrefix(date: int, ps: seq<Posting>, table: map<string, SplitConfig>, k: nat, m: nat)
    requires m <= k <= |ps|
    requires forall j :: m <= j < k ==> Passes(date, ps[j], table)
    ensures AdjustFrom(date, ps, table, m) == AdjustFrom(date, ps, table, k)
    decreases k - m
  {
    if m < k {
      PassesPrefix(date, ps, table, k, m + 1);
    }
  }

  /** The plugin keeps every entry in place and every non-transaction as it is;
      a transaction keeps its date, metadata and narration. */
  lemma {:induction false} AdjustAllShape(entries: seq<Entry>, table: map<string, SplitConfig>)
    requires AdjustAll(entries, table).Ok?
    ensures var out := AdjustAll(entries, table).value;
            |out| == |entries| &&
            forall i :: 0 <= i < |entries| ==> AdjustEntry(entries[i], table) == Ok(out[i])
    decreases |entries|
  {
    if entries != [] {
      var init := entries[..|entries| - 1];
      AdjustAllShape(init, table);
    }
  }

  /** The plugin fails exactly when one of its transactions fails. */
  lemma {:induction false} AdjustAllFails(entries: seq<Entry>, table: map<string, SplitConfig>)
    ensures AdjustAll(entries, table).Fail? <==> exists i :: 0 <= i < |entries| && AdjustEntry(entries[i], table).Fail?
    decreases |entries|
  {
    if entries != [] {
      var n := |entries| - 1;
      var init := entries[..n];
      AdjustAllFails(init, table);
      if exists i :: 0 <= i < |init| && AdjustEntry(init[i], table).Fail? {
        var i :| 0 <= i < |init| && AdjustEntry(init[i], table).Fail?;
        assert AdjustEntry(entries[i], table).Fail?;
      }
      if exists i :: 0 <= i < |entries| && AdjustEntry(entries[i], table).Fail? {
        var i :| 0 <= i < |entries| && AdjustEntry(entries[i], table).Fail?;
        if i < n {
          assert AdjustEntry(init[i], table).Fail?;
        }
      }
    }
  }

  /** `stock_split`: the loop over the entries and, inside it, over the
      postings of each transaction, continuing past postings that pass and
      stopping after the one it adjusts. */
  method StockSplitPlugin(entries: seq<Entry>, configs: seq<SplitConfig>) returns (r: Result<seq<Entry>>)
    ensures r == AdjustAll(entries, SplitTable(configs))
  {
    var splits := SplitTable(configs);
    var out: seq<Entry> := [];
    var i := 0;
    while i < |entries|
      invariant 0 <= i <= |entries|
      invariant AdjustAll(entries[..i], splits) == Ok(out)
    {
      assert entries[..i + 1][..i] == entries[..i];
      var entry := entries[i];
      if !entry.Txn? {
        out := out + [entry];
        i := i + 1;
        continue;
      }
      var date := entry.txn.date;
      var postings := entry.txn.postings;
      var k := 0;
      while k < |postings|
        invariant 0 <= k <= |postings|
        invariant postings == entry.txn.postings
        invariant AdjustFrom(date, entry.txn.postings, splits, 0) == AdjustFrom(date, postings, splits, k)
      {
        var posting := postings[k];
        if posting.units.currency !in splits {
          k := k + 1;
          continue;
        }
        var s := splits[posting.units.currency];
        if date == s.date || posting.cost.Some? || posting.price.None? {
          RunFails(entries, splits, i, out);
          return Fail(AssertionFailed);
        }
        if date > s.date {
          k := k + 1;
          continue;
        }
        if posting.units.number == 0.0 || posting.price.value.number == 0.0 {
          RunFails(entries, splits, i, out);
          return Fail(AssertionFailed);
        }
        if s.ratio == 0.0 {
          RunFails(entries, splits, i, out);
          return Fail(DivisionByZero);
        }
        postings := RemoveFirst(postings, posting);
        postings := postings + [Adjusted(posting, s.ratio)];
        break;
      }
      assert AdjustEntry(entry, splits) == Ok(Txn(entry.txn.(postings := postings)));
      out := out + [Txn(entry.txn.(postings := postings))];
      i := i + 1;
    }
    assert entries[..i] == entries;
    r := Ok(out);
  }

  /** A failing transaction fails the whole plugin with its reason. */
  lemma RunFails(entries: seq<Entry>, table: map<string, SplitConfig>, i: nat, out: seq<Entry>)
    requires i < |entries|
    requires AdjustAll(entries[..i], table) == Ok(out)
    requires AdjustEntry(entries[i], table).Fail?
    ensures AdjustAll(entries, table) == Fail(AdjustEntry(entries[i], table).reason)
  {
    assert entries[..i + 1][..i] == entries[..i];
    FailedPrefix(entries, table, i + 1);
  }

  lemma {:induction false} FailedPrefix(entries: seq<Entry>, table: map<string, SplitConfig>, n: nat)
    requires n <= |entries|
    requires AdjustAll(entries[..n], table).Fail?
    ensures AdjustAll(entries, table) == AdjustAll(entries[..n], table)
    decreases |entries|
  {
    if n == |entries| {
      assert entries[..n] == entries;
    } else {
      var init := entries[..|entries| - 1];
      assert init[..n] == entries[..n];
      FailedPrefix(init, table, n);
    }
  }
}
