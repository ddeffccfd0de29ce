/** The UK capital-gains lot matcher end to end: extract the buys and sells,
    match sells to buys on the same day and then within thirty days, visit
    every record in date order to settle the rest against its Section 104
    pool, rewrite each record's transaction with its lots and gains, and put
    the transactions back into the ledger. */
module UkCgtLots {
  import opened Results
  import opened Ledger
  import opened CgtRecords
  import opened CgtMatching
  import opened Section104
  import opened CgtRewrite
  import opened CgtExtract

  // ---------------------------------------------------------------------
  // Visiting order: a stable sort by transaction date
  // ---------------------------------------------------------------------

  /** Record i is visited before record j: an earlier date, or the same date
      and earlier in the list. */
  predicate Before(recs: seq<MatchedTransaction>, i: nat, j: nat)
    requires i < |recs| && j < |recs|
  {
    recs[i].txn.date < recs[j].txn.date || (recs[i].txn.date == recs[j].txn.date && i < j)
  }

  /** `order` lists indices of `recs`, each visited before the next. */
  predicate InOrder(recs: seq<MatchedTransaction>, order: seq<nat>) {
    (forall k :: 0 <= k < |order| ==> order[k] < |recs|) &&
    (forall a, b :: 0 <= a < b < |order| ==> Before(recs, order[a], order[b]))
  }

  /** Index i, later in the list than every index in `order`, placed after
      every index whose date is not later than its own. */
  function Insert(recs: seq<MatchedTransaction>, order: seq<nat>, i: nat): (r: seq<nat>)
    requires i < |recs| && InOrder(recs, order)
    requires forall k :: 0 <= k < |order| ==> order[k] < i
    ensures |r| == |order| + 1 && InOrder(recs, r)
    ensures forall x :: x in r <==> x in order || x == i
    decreases |order|
  {
    if order == [] then [i]
    else
      var m := |order| - 1;
      if recs[order[m]].txn.date <= recs[i].txn.date then order + [i]
      else
        var r := Insert(recs, order[..m], i);
        assert forall a :: 0 <= a < |r| ==> r[a] in order[..m] || r[a] == i;
        assert forall x :: x in order[..m] ==> Before(recs, x, order[m]);
        r + [order[m]]
  }

  /** The visiting order of the first n records. */
  function SortOrder(recs: seq<MatchedTransaction>, n: nat): (r: seq<nat>)
    requires n <= |recs|
    ensures |r| == n && InOrder(recs, r)
    ensures forall x: nat :: x in r <==> x < n
  {
    if n == 0 then []
    else
      var order := SortOrder(recs, n - 1);
      assert forall k :: 0 <= k < |order| ==> order[k] in order;
      Insert(recs, order, n - 1)
  }

  /** `sorted(recs, key=date)`: the records by date, records of the same date
      in their list order (the sort is stable), each record exactly once. */
  function SortByDate(recs: seq<MatchedTransaction>): (r: seq<MatchedTransaction>)
    ensures |r| == |recs|
    ensures var order := SortOrder(recs, |recs|);
            |order| == |recs| &&
            (forall k :: 0 <= k < |r| ==> order[k] < |recs| && r[k] == recs[order[k]]) &&
            (forall j :: 0 <= j < |recs| ==> j in order) &&
            (forall a, b :: 0 <= a < b < |r| ==> order[a] != order[b]) &&
            (forall a, b :: 0 <= a < b < |r| ==> r[a].txn.date <= r[b].txn.date) &&
            (forall a, b :: 0 <= a < b < |r| && r[a].txn.date == r[b].txn.date ==> order[a] < order[b])
  {
    var order := SortOrder(recs, |recs|);
    seq(|recs|, k requires 0 <= k < |recs| => recs[order[k]])
  }

  // ---------------------------------------------------------------------
  // Facts carried from stage to stage
  // ---------------------------------------------------------------------

  predicate AllRecordsOk(recs: seq<MatchedTransaction>) {
    forall k :: 0 <= k < |recs| ==> RecordOk(recs[k])
  }

  /** No two records come from the same entry. */
  predicate Distinct(recs: seq<MatchedTransaction>) {
    forall a, b :: 0 <= a < |recs| && 0 <= b < |recs| && a != b ==> recs[a].entry != recs[b].entry
  }

  /** Every record holds the posting extraction took from its entry. */
  predicate Origin(recs: seq<MatchedTransaction>, entries: seq<Entry>, accounts: seq<CgtAccount>) {
    forall k :: 0 <= k < |recs| ==>
      recs[k].entry < |entries| &&
      var e := ExtractEntry(recs[k].entry, entries[recs[k].entry], accounts);
      e.Ok? && e.value.Some? && SamePosting(e.value.value, recs[k])
  }

  /** Two lists of the same records, position by position. */
  predicate Pointwise(a: seq<MatchedTransaction>, b: seq<MatchedTransaction>) {
    |a| == |b| && forall k :: 0 <= k < |a| ==> SamePosting(a[k], b[k])
  }

  lemma PointwiseKeeps(a: seq<MatchedTransaction>, b: seq<MatchedTransaction>, entries: seq<Entry>,
                       accounts: seq<CgtAccount>)
    requires Pointwise(a, b)
    ensures Distinct(a) ==> Distinct(b)
    ensures Origin(a, entries, accounts) ==> Origin(b, entries, accounts)
  {
  }

  lemma AppendedPointwise(a: seq<MatchedTransaction>, b: seq<MatchedTransaction>)
    requires AllAppended(a, b)
    ensures Pointwise(a, b)
  {
    forall k | 0 <= k < |a| ensures SamePosting(a[k], b[k]) {
      assert Appended(a[k], b[k]);
    }
  }

  /** The extracted buys followed by the extracted sells are records of
      different entries, each holding its entry's candidate posting. */
  lemma ExtractedJoin(entries: seq<Entry>, accounts: seq<CgtAccount>,
                      buys: seq<MatchedTransaction>, sells: seq<MatchedTransaction>)
    requires Extracted(entries, accounts, |entries|, buys, sells)
    ensures Distinct(buys + sells) && Origin(buys + sells, entries, accounts)
  {
    var all := buys + sells;
    forall k | 0 <= k < |all|
      ensures all[k].entry < |entries| &&
              var e := ExtractEntry(all[k].entry, entries[all[k].entry], accounts);
              e.Ok? && e.value.Some? && SamePosting(e.value.value, all[k])
    {
      if k < |buys| {
        assert all[k] == buys[k];
      } else {
        assert all[k] == sells[k - |buys|];
      }
    }
    forall a, b | 0 <= a < |all| && 0 <= b < |all| && a != b ensures all[a].entry != all[b].entry {
      if a < |buys| && b < |buys| {
        assert all[a] == buys[a] && all[b] == buys[b];
      } else if a >= |buys| && b >= |buys| {
        assert all[a] == sells[a - |buys|] && all[b] == sells[b - |buys|];
      } else if a < |buys| {
        assert all[a] == buys[a] && all[b] == sells[b - |buys|];
      } else {
        assert all[a] == sells[a - |buys|] && all[b] == buys[b];
      }
    }
  }

  lemma JoinOk(buys: seq<MatchedTransaction>, sells: seq<MatchedTransaction>)
    requires AllBuysOk(buys) && AllSellsOk(sells)
    ensures AllRecordsOk(buys + sells)
  {
    forall k | 0 <= k < |buys + sells| ensures RecordOk((buys + sells)[k]) {
      if k < |buys| {
        assert (buys + sells)[k] == buys[k];
      } else {
        assert (buys + sells)[k] == sells[k - |buys|];
      }
    }
  }

  /** Sorting keeps every record and so every fact about each record. */
  lemma SortKeeps(recs: seq<MatchedTransaction>, entries: seq<Entry>, accounts: seq<CgtAccount>)
    ensures AllRecordsOk(recs) ==> AllRecordsOk(SortByDate(recs))
    ensures Distinct(recs) ==> Distinct(SortByDate(recs))
    ensures Origin(recs, entries, accounts) ==> Origin(SortByDate(recs), entries, accounts)
  {
    var r := SortByDate(recs);
    var order := SortOrder(recs, |recs|);
    if Distinct(recs) {
      forall a, b | 0 <= a < |r| && 0 <= b < |r| && a != b ensures r[a].entry != r[b].entry {
        if a < b {
          assert order[a] != order[b];
        } else {
          assert order[b] != order[a];
        }
      }
    }
  }

  // ---------------------------------------------------------------------
  // Settling against the Section 104 pools and rewriting
  // ---------------------------------------------------------------------

  /** One visit of the pooling loop: settle the record against its pool,
      then write its lots and gains into its transaction. */
  function Visit(t: MatchedTransaction, hs: Holdings, fx: Fx): (r: Result<(MatchedTransaction, Holdings)>)
    requires NonZeroRates(fx) && RecordOk(t) && HoldingsOk(hs)
    ensures r.Ok? ==> RecordOk(r.value.0) && r.value.0.UnmatchedUnits() == 0.0 && HoldingsOk(r.value.1) &&
                      SamePosting(t, r.value.0) && t.matches <= r.value.0.matches
    ensures r.Fail? ==> r.reason == AssertionFailed
  {
    PoolStepKeeps(t, hs, fx);
    var step :- PoolStep(t, hs, fx);
    var t2 :- Rewrite(step.0, fx);
    Ok((t2, step.1))
  }

  /** The records from i on, each visited in turn. */
  function PoolAll(all: seq<MatchedTransaction>, hs: Holdings, fx: Fx, i: nat): Result<seq<MatchedTransaction>>
    requires i <= |all| && NonZeroRates(fx) && AllRecordsOk(all) && HoldingsOk(hs)
    decreases |all| - i
  {
    if i == |all| then Ok(all)
    else
      var visited :- Visit(all[i], hs, fx);
      PoolAll(all[i := visited.0], visited.1, fx, i + 1)
  }

  /** What holds of the records settled from position i on. */
  predicate Settled(all: seq<MatchedTransaction>, i: nat, r: Result<seq<MatchedTransaction>>)
    requires i <= |all|
  {
    (r.Ok? ==> Pointwise(all, r.value) && AllRecordsOk(r.value) &&
               (forall k :: 0 <= k < i ==> r.value[k] == all[k]) &&
               (forall k :: i <= k < |all| ==> r.value[k].UnmatchedUnits() == 0.0)) &&
    (r.Fail? ==> r.reason == AssertionFailed)
  }

  /** Every record from i on ends fully matched, holding the same posting;
      the records before i are untouched. */
  lemma {:induction false} PoolAllKeeps(all: seq<MatchedTransaction>, hs: Holdings, fx: Fx, i: nat)
    requires i <= |all| && NonZeroRates(fx) && AllRecordsOk(all) && HoldingsOk(hs)
    ensures var r := PoolAll(all, hs, fx, i);
            r.Ok? ==> Pointwise(all, r.value) && AllRecordsOk(r.value) &&
                      (forall k :: 0 <= k < i ==> r.value[k] == all[k]) &&
                      (forall k :: i <= k < |all| ==> r.value[k].UnmatchedUnits() == 0.0)
    ensures var r := PoolAll(all, hs, fx, i);
            r.Fail? ==> r.reason == AssertionFailed
    decreases |all| - i, 2
  {
    if i == |all| {
      assert PoolAll(all, hs, fx, i) == Ok(all);
    } else {
      PoolAllKeepsStep(all, hs, fx, i);
    }
  }

  /** The inductive step of PoolAllKeeps: visit record i, then the rest. */
  lemma {:induction false} PoolAllKeepsStep(all: seq<MatchedTransaction>, hs: Holdings, fx: Fx, i: nat)
    requires i < |all| && NonZeroRates(fx) && AllRecordsOk(all) && HoldingsOk(hs)
    ensures Settled(all, i, PoolAll(all, hs, fx, i))
    decreases |all| - i, 1
  {
    if Visit(all[i], hs, fx).Ok? {
      PoolAllVisited(all, hs, fx, i);
    } else {
      PoolAllStops(all, hs, fx, i);
    }
  }

  /** The step when record i's visit succeeds. */
  lemma {:induction false} PoolAllVisited(all: seq<MatchedTransaction>, hs: Holdings, fx: Fx, i: nat)
    requires i < |all| && NonZeroRates(fx) && AllRecordsOk(all) && HoldingsOk(hs)
    requires Visit(all[i], hs, fx).Ok?
    ensures Settled(all, i, PoolAll(all, hs, fx, i))
    decreases |all| - i, 0
  {
    var (t2, hs2) := Visit(all[i], hs, fx).value;
    var all2 := all[i := t2];
    PoolAllContinues(all, hs, fx, i);
    PoolAllKeeps(all2, hs2, fx, i + 1);
    var r := PoolAll(all2, hs2, fx, i + 1);
    if r.Ok? {
      PoolAllSettled(all, all2, r.value, i);
    }
  }

  /** A visit that succeeds hands the updated records and pools to the rest of the loop. */
  lemma PoolAllContinues(all: seq<MatchedTransaction>, hs: Holdings, fx: Fx, i: nat)
    requires i < |all| && NonZeroRates(fx) && AllRecordsOk(all) && HoldingsOk(hs)
    requires Visit(all[i], hs, fx).Ok?
    ensures var (t2, hs2) := Visit(all[i], hs, fx).value;
            AllRecordsOk(all[i := t2]) && HoldingsOk(hs2) &&
            SamePosting(all[i], t2) && t2.UnmatchedUnits() == 0.0 &&
            PoolAll(all, hs, fx, i) == PoolAll(all[i := t2], hs2, fx, i + 1)
  {
  }

  /** A visit that fails fails the whole loop with its reason. */
  lemma PoolAllStops(all: seq<MatchedTransaction>, hs: Holdings, fx: Fx, i: nat)
    requires i < |all| && NonZeroRates(fx) && AllRecordsOk(all) && HoldingsOk(hs)
    requires Visit(all[i], hs, fx).Fail?
    ensures PoolAll(all, hs, fx, i) == Fail(AssertionFailed)
  {
  }

  /** Settling record i, then the records after it, keeps every posting and
      the records before i. */
  lemma PoolAllSettled(all: seq<MatchedTransaction>, all2: seq<MatchedTransaction>, done: seq<MatchedTransaction>, i: nat)
    requires i < |all| == |all2| && all2 == all[i := all2[i]] && SamePosting(all[i], all2[i])
    requires all2[i].UnmatchedUnits() == 0.0
    requires Pointwise(all2, done)
    requires forall k :: 0 <= k < i + 1 ==> done[k] == all2[k]
    requires forall k :: i + 1 <= k < |all2| ==> done[k].UnmatchedUnits() == 0.0
    ensures Pointwise(all, done)
    ensures forall k :: 0 <= k < i ==> done[k] == all[k]
    ensures forall k :: i <= k < |all| ==> done[k].UnmatchedUnits() == 0.0
  {
    forall k | 0 <= k < |all| ensures SamePosting(all[k], done[k]) {
      assert SamePosting(all2[k], done[k]);
    }
  }

  /** The body of the pooling loop: settle the record against its pool, then
      rewrite its transaction. */
  method VisitRecord(t: MatchedTransaction, holdings: Holdings, fx: Fx)
    returns (r: Result<(MatchedTransaction, Holdings)>)
    requires NonZeroRates(fx) && RecordOk(t) && HoldingsOk(holdings)
    ensures r == Visit(t, holdings, fx)
  {
    var step := MatchToSection(t, holdings, fx);
    if step.Fail? {
      return Fail(step.reason);
    }
    PoolStepKeeps(t, holdings, fx);
    var rewritten := Rewrite(step.value.0, fx);
    if rewritten.Fail? {
      return Fail(rewritten.reason);
    }
    r := Ok((rewritten.value, step.value.1));
  }

  /** The pooling loop of the plugin: each record in visiting order. */
  method PoolRecords(all: seq<MatchedTransaction>, fx: Fx) returns (r: Result<seq<MatchedTransaction>>)
    requires NonZeroRates(fx) && AllRecordsOk(all)
    ensures r == PoolAll(all, map[], fx, 0)
  {
    var recs := all;
    var holdings: Holdings := map[];
    for i := 0 to |all|
      invariant |recs| == |all| && AllRecordsOk(recs) && HoldingsOk(holdings)
      invariant PoolAll(all, map[], fx, 0) == PoolAll(recs, holdings, fx, i)
    {
      var visited := VisitRecord(recs[i], holdings, fx);
      if visited.Fail? {
        PoolAllStops(recs, holdings, fx, i);
        return Fail(visited.reason);
      }
      PoolAllContinues(recs, holdings, fx, i);
      recs, holdings := recs[i := visited.value.0], visited.value.1;
    }
    return Ok(recs);
  }

  // ---------------------------------------------------------------------
  // Putting the transactions back
  // ---------------------------------------------------------------------

  predicate EntriesIn(recs: seq<MatchedTransaction>, n: nat) {
    forall k :: 0 <= k < |recs| ==> recs[k].entry < n
  }

  /** The ledger with each record's transaction in its entry's place. */
  function Reinsert(entries: seq<Entry>, recs: seq<MatchedTransaction>): (r: seq<Entry>)
    requires EntriesIn(recs, |entries|)
    ensures |r| == |entries|
    decreases |recs|
  {
    if recs == [] then entries
    else
      var t := recs[|recs| - 1];
      Reinsert(entries, recs[..|recs| - 1])[t.entry := Txn(t.txn)]
  }

  /** An entry no record comes from is left as it was. */
  lemma {:induction false} ReinsertFrame(entries: seq<Entry>, recs: seq<MatchedTransaction>, j: nat)
    requires EntriesIn(recs, |entries|) && j < |entries|
    requires forall k :: 0 <= k < |recs| ==> recs[k].entry != j
    ensures Reinsert(entries, recs)[j] == entries[j]
    decreases |recs|
  {
    if recs != [] {
      ReinsertFrame(entries, recs[..|recs| - 1], j);
    }
  }

  /** With one record per entry, every record's transaction is written back. */
  lemma {:induction false} ReinsertWrites(entries: seq<Entry>, recs: seq<MatchedTransaction>, k: nat)
    requires EntriesIn(recs, |entries|) && Distinct(recs) && k < |recs|
    ensures Reinsert(entries, recs)[recs[k].entry] == Txn(recs[k].txn)
    decreases |recs|
  {
    var n := |recs| - 1;
    if k < n {
      var init := recs[..n];
      assert init[k] == recs[k];
      assert Distinct(init);
      ReinsertWrites(entries, init, k);
    }
  }

  // ---------------------------------------------------------------------
  // The plugin
  // ---------------------------------------------------------------------

  function Accounts(configs: seq<AccountConfig>): seq<CgtAccount> {
    seq(|configs|, k requires 0 <= k < |configs| => MakeAccount(configs[k]))
  }

  /** The records as they leave the pooling loop. */
  function Pipeline(entries: seq<Entry>, accounts: seq<CgtAccount>, fx: Fx): Result<seq<MatchedTransaction>>
    requires NonZeroRates(fx)
  {
    ExtractKeeps(entries, accounts, 0, [], []);
    var extracted :- Extract(entries, accounts, 0, [], []);
    var buys, sells := extracted.0, extracted.1;
    PassKeeps(sells, buys, SameDayRule, fx, 0);
    var sameDay :- Pass(sells, buys, SameDayRule, fx, 0);
    PassKeeps(sameDay.0, sameDay.1, ThirtyDayRule, fx, 0);
    var thirtyDay :- Pass(sameDay.0, sameDay.1, ThirtyDayRule, fx, 0);
    JoinOk(thirtyDay.1, thirtyDay.0);
    SortKeeps(thirtyDay.1 + thirtyDay.0, entries, accounts);
    PoolAll(SortByDate(thirtyDay.1 + thirtyDay.0), map[], fx, 0)
  }

  /** What leaves the pooling loop: one fully matched record per entry that
      has a candidate posting, holding that posting. */
  lemma PipelineKeeps(entries: seq<Entry>, accounts: seq<CgtAccount>, fx: Fx)
    requires NonZeroRates(fx)
    ensures var r := Pipeline(entries, accounts, fx);
            r.Ok? ==> AllRecordsOk(r.value) && Distinct(r.value) && Origin(r.value, entries, accounts) &&
                      EntriesIn(r.value, |entries|) &&
                      forall k :: 0 <= k < |r.value| ==> r.value[k].UnmatchedUnits() == 0.0
    ensures var r := Pipeline(entries, accounts, fx);
            r.Fail? ==> r.reason == AssertionFailed
  {
    ExtractKeeps(entries, accounts, 0, [], []);
    var extracted := Extract(entries, accounts, 0, [], []);
    if extracted.Ok? {
      var buys, sells := extracted.value.0, extracted.value.1;
      PassKeeps(sells, buys, SameDayRule, fx, 0);
      var sameDay := Pass(sells, buys, SameDayRule, fx, 0);
      if sameDay.Ok? {
        var (s1, b1) := sameDay.value;
        PassKeeps(s1, b1, ThirtyDayRule, fx, 0);
        var thirtyDay := Pass(s1, b1, ThirtyDayRule, fx, 0);
        if thirtyDay.Ok? {
          var (s2, b2) := thirtyDay.value;
          MatchedKeeps(entries, accounts, buys, sells, b1, s1, b2, s2);
          PooledKeeps(entries, accounts, fx, b2 + s2);
        }
      }
    }
  }

  /** After both matching passes the buys and sells are still one record per
      entry, each holding its entry's candidate posting. */
  lemma MatchedKeeps(entries: seq<Entry>, accounts: seq<CgtAccount>,
                     buys: seq<MatchedTransaction>, sells: seq<MatchedTransaction>,
                     b1: seq<MatchedTransaction>, s1: seq<MatchedTransaction>,
                     b2: seq<MatchedTransaction>, s2: seq<MatchedTransaction>)
    requires Extracted(entries, accounts, |entries|, buys, sells)
    requires AllAppended(buys, b1) && AllAppended(b1, b2) && AllAppended(sells, s1) && AllAppended(s1, s2)
    requires AllBuysOk(b2) && AllSellsOk(s2)
    ensures AllRecordsOk(b2 + s2) && Distinct(b2 + s2) && Origin(b2 + s2, entries, accounts)
  {
    ExtractedJoin(entries, accounts, buys, sells);
    AppendedPointwise(buys, b1);
    AppendedPointwise(b1, b2);
    AppendedPointwise(sells, s1);
    AppendedPointwise(s1, s2);
    assert Pointwise(buys + sells, b2 + s2) by {
      forall k | 0 <= k < |buys + sells| ensures SamePosting((buys + sells)[k], (b2 + s2)[k]) {
        if k < |buys| {
          assert (buys + sells)[k] == buys[k] && (b2 + s2)[k] == b2[k];
        } else {
          assert (buys + sells)[k] == sells[k - |buys|] && (b2 + s2)[k] == s2[k - |buys|];
        }
      }
    }
    PointwiseKeeps(buys + sells, b2 + s2, entries, accounts);
    JoinOk(b2, s2);
  }

  /** Sorting and pooling keep one record per entry, each holding its posting,
      and leave every record fully matched. */
  lemma PooledKeeps(entries: seq<Entry>, accounts: seq<CgtAccount>, fx: Fx, recs: seq<MatchedTransaction>)
    requires NonZeroRates(fx) && AllRecordsOk(recs) && Distinct(recs) && Origin(recs, entries, accounts)
    ensures var r := PoolAll(SortByDate(recs), map[], fx, 0);
            r.Ok? ==> AllRecordsOk(r.value) && Distinct(r.value) && Origin(r.value, entries, accounts) &&
                      EntriesIn(r.value, |entries|) &&
                      forall k :: 0 <= k < |r.value| ==> r.value[k].UnmatchedUnits() == 0.0
    ensures var r := PoolAll(SortByDate(recs), map[], fx, 0);
            r.Fail? ==> r.reason == AssertionFailed
  {
    var all := SortByDate(recs);
    SortKeeps(recs, entries, accounts);
    PoolAllKeeps(all, map[], fx, 0);
    var done := PoolAll(all, map[], fx, 0);
    if done.Ok? {
      PointwiseKeeps(all, done.value, entries, accounts);
    }
  }

  /** `uk_cgt_lots`: the ledger with every matched transaction rewritten. */
  function UkCgtLotsSpec(entries: seq<Entry>, configs: seq<AccountConfig>, fx: Fx): Result<seq<Entry>>
    requires NonZeroRates(fx)
  {
    PipelineKeeps(entries, Accounts(configs), fx);
    var done :- Pipeline(entries, Accounts(configs), fx);
    Ok(Reinsert(entries, done))
  }

  /** The plugin rewrites only the transactions it takes a posting from: every
      other entry comes back unchanged, and the only errors are failed
      assertions. */
  lemma UkCgtLotsFrame(entries: seq<Entry>, configs: seq<AccountConfig>, fx: Fx, j: nat)
    requires NonZeroRates(fx) && j < |entries|
    requires ExtractEntry(j, entries[j], Accounts(configs)) == Ok(None)
    ensures var r := UkCgtLotsSpec(entries, configs, fx);
            (r.Ok? ==> |r.value| == |entries| && r.value[j] == entries[j]) &&
            (r.Fail? ==> r.reason == AssertionFailed)
  {
    PipelineKeeps(entries, Accounts(configs), fx);
    var done := Pipeline(entries, Accounts(configs), fx);
    if done.Ok? {
      ReinsertFrame(entries, done.value, j);
    }
  }

  /** Every record the pooling loop returns is fully matched and its
      transaction stands in the returned ledger in its entry's place. */
  lemma UkCgtLotsWritesBack(entries: seq<Entry>, configs: seq<AccountConfig>, fx: Fx)
    requires NonZeroRates(fx)
    requires Pipeline(entries, Accounts(configs), fx).Ok?
    ensures var done := Pipeline(entries, Accounts(configs), fx).value;
            var r := UkCgtLotsSpec(entries, configs, fx);
            r.Ok? &&
            forall k :: 0 <= k < |done| ==>
              done[k].UnmatchedUnits() == 0.0 && done[k].entry < |entries| &&
              r.value[done[k].entry] == Txn(done[k].txn)
  {
    PipelineKeeps(entries, Accounts(configs), fx);
    var done := Pipeline(entries, Accounts(configs), fx).value;
    forall k | 0 <= k < |done| ensures Reinsert(entries, done)[done[k].entry] == Txn(done[k].txn) {
      ReinsertWrites(entries, done, k);
    }
  }

  /** The plugin's driver. */
  method UkCgtLots(entries: seq<Entry>, configs: seq<AccountConfig>, fx: Fx) returns (r: Result<seq<Entry>>)
    requires NonZeroRates(fx)
    ensures r == UkCgtLotsSpec(entries, configs, fx)
  {
    var accounts := Accounts(configs);
    var extracted := ExtractRecords(entries, accounts);
    if extracted.Fail? {
      return Fail(extracted.reason);
    }
    var buys, sells := extracted.value.0, extracted.value.1;
    ExtractKeeps(entries, accounts, 0, [], []);
    var sameDay := SameDaySales(sells, buys, fx);
    if sameDay.Fail? {
      return Fail(sameDay.reason);
    }
    PassKeeps(sells, buys, SameDayRule, fx, 0);
    var thirtyDay := ThirtyDaySales(sameDay.value.0, sameDay.value.1, fx);
    if thirtyDay.Fail? {
      return Fail(thirtyDay.reason);
    }
    PassKeeps(sameDay.value.0, sameDay.value.1, ThirtyDayRule, fx, 0);
    JoinOk(thirtyDay.value.1, thirtyDay.value.0);
    SortKeeps(thirtyDay.value.1 + thirtyDay.value.0, entries, accounts);
    var all := SortByDate(thirtyDay.value.1 + thirtyDay.value.0);
    var done := PoolRecords(all, fx);
    if done.Fail? {
      return Fail(done.reason);
    }
    PipelineKeeps(entries, accounts, fx);
    return Ok(Reinsert(entries, done.value));
  }
}
