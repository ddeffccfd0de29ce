/** Companion accounts for investment securities: an Open directive whose
    metadata names a currency for a companion (commission, distribution,
    capital gains, withholding tax) also opens that companion account, and
    closing the security's account closes its companions. */
module AncillaryAccounts {
  import opened Results
  import opened Ledger
  import opened AccountNames
  import opened AccountLookup

  const DuplicateOpen := "Duplicate open directive not allowed"

  const CommissionKey := "ancillary_commission_currency"
  const DistributionKey := "ancillary_distribution_currency"
  const CapitalGainsKey := "ancillary_capital_gains_currency"
  const WithholdingTaxKey := "ancillary_withholding_tax_currency"

  /** The metadata of a generated Open, `new_metadata('foo', 1)`. */
  const GeneratedMeta: Meta := map["filename" := "foo", "lineno" := "1"]

  /** One companion account to open, with the single currency it allows. */
  datatype Companion = Companion(account: string, currency: string)

  /** The Open directives for some companions, dated like the triggering entry. */
  function Opens(e: Entry, cs: seq<Companion>): (r: seq<Entry>)
    requires e.Open?
    ensures |r| == |cs|
  {
    seq(|cs|, k requires 0 <= k < |cs| => Open(e.date, GeneratedMeta, cs[k].account, [cs[k].currency]))
  }

  /** The names recorded for closing. */
  function Names(cs: seq<Companion>): (r: seq<string>)
    ensures |r| == |cs|
  {
    seq(|cs|, k requires 0 <= k < |cs| => cs[k].account)
  }

  /** The Close directives for some companions, with the triggering Close's date and metadata. */
  function Closes(e: Entry, names: seq<string>): (r: seq<Entry>)
    requires e.Close?
    ensures |r| == |names|
  {
    seq(|names|, k requires 0 <= k < |names| => Close(e.date, e.meta, names[k]))
  }

  /** The base account the oracle is built for: `str(parent(sans_root(account)))`
      (Python's `str(None)` for an account without components after the root). */
  function BaseName(account: string): string {
    match Parent(SansRoot(account))
    case None => "None"
    case Some(p) => p
  }

  /** The companion for one metadata key: none when the key is not set, the
      account's failure when its name cannot be built, otherwise one. */
  function CompanionFor(e: Entry, key: string, account: Result<string>): Result<seq<Companion>>
    requires e.Open?
  {
    if !Truthy(e.meta, key) then Ok([])
    else match account
      case Fail(why) => Fail(why)
      case Ok(a) => Ok([Companion(a, e.meta[key])])
  }

  /** The four `add` requests of an Open, in the fixed order commission,
      distribution, capital gains, withholding tax: each metadata key with the
      companion name the oracle for the account's parent builds for it. */
  function Requests(e: Entry, all: seq<Entry>): (r: seq<(string, Result<string>)>)
    requires e.Open?
    ensures |r| == 4
  {
    var o := Oracle(BaseName(e.account), all, None, None);
    var symbol := Leaf(e.account);
    [(CommissionKey, Ok(o.CommissionAccount(symbol))),
     (DistributionKey, o.DistributionAccount(symbol)),
     (CapitalGainsKey, Ok(o.CapitalGainsAccount(symbol))),
     (WithholdingTaxKey, Ok(o.WithholdingTaxesAccount(symbol)))]
  }

  /** The companions some requests add, stopping at the first one that fails. */
  function Gather(e: Entry, reqs: seq<(string, Result<string>)>): Result<seq<Companion>>
    requires e.Open?
    decreases |reqs|
  {
    if reqs == [] then Ok([])
    else
      var prev :- Gather(e, reqs[..|reqs| - 1]);
      var more :- CompanionFor(e, reqs[|reqs| - 1].0, reqs[|reqs| - 1].1);
      Ok(prev + more)
  }

  /** The companions of an Open. */
  function CompanionsOf(e: Entry, all: seq<Entry>): Result<seq<Companion>>
    requires e.Open?
  {
    Gather(e, Requests(e, all))
  }

  /** The state of the pass after a prefix of the entries: the output, as one
      block per input entry (the entry followed by the directives it
      triggered), and the registered accounts with their companions; or the
      duplicate-open stop. */
  datatype Progress = Running(blocks: seq<seq<Entry>>, accounts: map<string, seq<string>>) | Duplicated

  /** The pass over entries[..n]; `all` is the whole entry list the oracles read. */
  function Run(entries: seq<Entry>, n: nat, all: seq<Entry>): Result<Progress>
    requires n <= |entries|
    decreases n
  {
    if n == 0 then Ok(Running([], map[]))
    else
      var prev :- Run(entries, n - 1, all);
      var e := entries[n - 1];
      match prev
      case Duplicated => Ok(Duplicated)
      case Running(blocks, accounts) =>
        if e.Open? then
          if e.account in accounts then Ok(Duplicated)
          else
            var cs :- CompanionsOf(e, all);
            Ok(Running(blocks + [[e] + Opens(e, cs)], accounts[e.account := Names(cs)]))
        else if e.Close? && e.account in accounts && accounts[e.account] != [] then
          Ok(Running(blocks + [[e] + Closes(e, accounts[e.account])], accounts - {e.account}))
        else
          Ok(Running(blocks + [[e]], accounts))
  }

  function Flatten(blocks: seq<seq<Entry>>): seq<Entry>
    decreases |blocks|
  {
    if blocks == [] then [] else Flatten(blocks[..|blocks| - 1]) + blocks[|blocks| - 1]
  }

  lemma FlattenSnoc(blocks: seq<seq<Entry>>, b: seq<Entry>)
    ensures Flatten(blocks + [b]) == Flatten(blocks) + b
  {
    assert (blocks + [b])[..|blocks|] == blocks;
  }

  /** Output that ends with entry e, then the directives inserted for it, is
      the block [e] + extra appended to the blocks before. */
  lemma AppendBlock(out: seq<Entry>, blocks: seq<seq<Entry>>, e: Entry, extra: seq<Entry>)
    requires out == Flatten(blocks) + [e]
    ensures out + extra == Flatten(blocks + [[e] + extra])
  {
    FlattenSnoc(blocks, [e] + extra);
    assert Flatten(blocks) + [e] + extra == Flatten(blocks) + ([e] + extra);
  }

  /** The plugin's result for a finished pass. */
  function Outcome(p: Result<Progress>): Result<(seq<Entry>, seq<string>)> {
    match p
    case Fail(why) => Fail(why)
    case Ok(Duplicated) => Ok(([], [DuplicateOpen]))
    case Ok(Running(blocks, _)) => Ok((Flatten(blocks), []))
  }

  /** Once the pass has stopped, by duplicate or by failure, it stays stopped. */
  lemma {:induction false} RunStopped(entries: seq<Entry>, m: nat, n: nat, all: seq<Entry>)
    requires m <= n <= |entries|
    requires Run(entries, m, all).Fail? || Run(entries, m, all) == Ok(Duplicated)
    ensures Run(entries, n, all) == Run(entries, m, all)
    decreases n - m
  {
    if m < n {
      RunStopped(entries, m, n - 1, all);
    }
  }

  /** `add`: when `key` is set on the entry, append one Open for the companion
      account and record the account for closing.  The account name is only
      consulted in that case, so a name that cannot be built fails only then. */
  method Add(entry: Entry, key: string, account: Result<string>, newEntries: seq<Entry>,
             toCloseAccounts: seq<string>) returns (r: Result<(seq<Entry>, seq<string>)>)
    requires entry.Open?
    ensures !Truthy(entry.meta, key) ==> r == Ok((newEntries, toCloseAccounts))
    ensures Truthy(entry.meta, key) && account.Fail? ==> r == Fail(account.reason)
    ensures Truthy(entry.meta, key) && account.Ok? ==>
              r == Ok((newEntries + [Open(entry.date, GeneratedMeta, account.value, [entry.meta[key]])],
                       toCloseAccounts + [account.value]))
  {
    if !Truthy(entry.meta, key) {
      return Ok((newEntries, toCloseAccounts));
    }
    var currency := entry.meta[key];
    var name :- account;
    var open := Open(entry.date, GeneratedMeta, name, [currency]);
    r := Ok((newEntries + [open], toCloseAccounts + [name]));
  }

  /** One `add` call seen through CompanionFor: it appends the Opens and the
      names of the companion it adds. */
  lemma AddStep(e: Entry, key: string, account: Result<string>, cs: seq<Companion>,
                out: seq<Entry>, added: (seq<Entry>, seq<string>))
    requires e.Open?
    requires CompanionFor(e, key, account).Ok?
    requires Truthy(e.meta, key) ==>
               added == (out + [Open(e.date, GeneratedMeta, account.value, [e.meta[key]])], Names(cs) + [account.value])
    requires !Truthy(e.meta, key) ==> added == (out, Names(cs))
    ensures var more := CompanionFor(e, key, account).value;
            added.0 == out + Opens(e, more) &&
            added.1 == Names(cs + more) &&
            Opens(e, cs + more) == Opens(e, cs) + Opens(e, more)
  {
    var more := CompanionFor(e, key, account).value;
    assert Names(cs + more) == Names(cs) + Names(more);
  }

  /** Builds the oracle for the account's parent and the four `add` requests. */
  method CompanionRequests(entry: Entry, entries: seq<Entry>) returns (reqs: seq<(string, Result<string>)>)
    requires entry.Open?
    ensures reqs == Requests(entry, entries)
  {
    var accName := BaseName(entry.account);
    var symbol := Leaf(entry.account);
    var oracle := NewAccountOracle(accName, entries, None, None);
    reqs := [(CommissionKey, Ok(oracle.CommissionAccount(symbol))),
             (DistributionKey, oracle.DistributionAccount(symbol)),
             (CapitalGainsKey, Ok(oracle.CapitalGainsAccount(symbol))),
             (WithholdingTaxKey, Ok(oracle.WithholdingTaxesAccount(symbol)))];
  }

  /** The body of the loop for an Open that is not a duplicate: call `add`
      for the four keys in order. */
  method AddCompanions(entry: Entry, entries: seq<Entry>, before: seq<Entry>)
    returns (r: Result<(seq<Entry>, seq<string>)>)
    requires entry.Open?
    ensures CompanionsOf(entry, entries).Fail? ==> r == Fail(CompanionsOf(entry, entries).reason)
    ensures CompanionsOf(entry, entries).Ok? ==>
              var cs := CompanionsOf(entry, entries).value;
              r == Ok((before + Opens(entry, cs), Names(cs)))
  {
    var reqs := CompanionRequests(entry, entries);
    var newEntries := before;
    var toCloseAccounts: seq<string> := [];
    ghost var cs: seq<Companion> := [];
    var k := 0;
    while k < |reqs|
      invariant 0 <= k <= |reqs|
      invariant Gather(entry, reqs[..k]) == Ok(cs)
      invariant newEntries == before + Opens(entry, cs) && toCloseAccounts == Names(cs)
    {
      var added := Add(entry, reqs[k].0, reqs[k].1, newEntries, toCloseAccounts);
      GatherStep(entry, reqs, k, cs);
      if added.Fail? {
        GatherFailedPrefix(entry, reqs, k + 1);
        return added;
      }
      AddStep(entry, reqs[k].0, reqs[k].1, cs, newEntries, added.value);
      cs := cs + CompanionFor(entry, reqs[k].0, reqs[k].1).value;
      newEntries, toCloseAccounts := added.value.0, added.value.1;
      k := k + 1;
    }
    assert reqs[..k] == reqs;
    r := Ok((newEntries, toCloseAccounts));
  }

  /** One more request extends the Gather of a prefix by its companion, or fails with its reason. */
  lemma GatherStep(e: Entry, reqs: seq<(string, Result<string>)>, k: nat, cs: seq<Companion>)
    requires e.Open?
    requires k < |reqs|
    requires Gather(e, reqs[..k]) == Ok(cs)
    ensures var more := CompanionFor(e, reqs[k].0, reqs[k].1);
            Gather(e, reqs[..k + 1]) == if more.Fail? then Fail(more.reason) else Ok(cs + more.value)
  {
    assert reqs[..k + 1][..k] == reqs[..k];
  }

  /** Once a prefix of the requests fails, the whole Gather fails the same way. */
  lemma {:induction false} GatherFailedPrefix(e: Entry, reqs: seq<(string, Result<string>)>, n: nat)
    requires e.Open?
    requires n <= |reqs|
    requires Gather(e, reqs[..n]).Fail?
    ensures Gather(e, reqs) == Gather(e, reqs[..n])
    decreases |reqs|
  {
    if n == |reqs| {
      assert reqs[..n] == reqs;
    } else {
      var shorter := reqs[..|reqs| - 1];
      assert shorter[..n] == reqs[..n];
      GatherFailedPrefix(e, shorter, n);
    }
  }

  /** The loop body for an Open of an account not yet registered: its
      companions are opened after it, or the pass fails. */
  method OpenCompanions(entries: seq<Entry>, i: nat, ghost blocks: seq<seq<Entry>>,
                        accounts: map<string, seq<string>>, newEntries: seq<Entry>)
    returns (r: Result<(seq<Entry>, seq<string>)>, accounts2: map<string, seq<string>>, ghost blocks2: seq<seq<Entry>>)
    requires i < |entries| && entries[i].Open? && entries[i].account !in accounts
    requires Run(entries, i, entries) == Ok(Running(blocks, accounts))
    requires newEntries == Flatten(blocks) + [entries[i]]
    ensures r.Fail? ==> Outcome(Run(entries, |entries|, entries)) == Fail(r.reason)
    ensures r.Ok? ==> Run(entries, i + 1, entries) == Ok(Running(blocks2, accounts2)) &&
                      accounts2 == accounts[entries[i].account := r.value.1] &&
                      r.value.0 == Flatten(blocks2)
  {
    var entry := entries[i];
    blocks2 := blocks;
    accounts2 := accounts;
    RunOpenNext(entries, i, blocks, accounts);
    r := AddCompanions(entry, entries, newEntries);
    if r.Fail? {
      RunStopped(entries, i + 1, |entries|, entries);
    } else {
      accounts2 := accounts[entry.account := r.value.1];
      var cs := CompanionsOf(entry, entries).value;
      var opens := Opens(entry, cs);
      AppendBlock(newEntries, blocks, entry, opens);
      blocks2 := blocks + [[entry] + opens];
    }
  }

  /** The Closes of a closed account's companions, appended one by one. */
  method CloseCompanions(entry: Entry, toCloseAccounts: seq<string>, before: seq<Entry>)
    returns (newEntries: seq<Entry>)
    requires entry.Close?
    ensures newEntries == before + Closes(entry, toCloseAccounts)
  {
    newEntries := before;
    var k := 0;
    while k < |toCloseAccounts|
      invariant 0 <= k <= |toCloseAccounts|
      invariant newEntries == before + Closes(entry, toCloseAccounts[..k])
    {
      newEntries := newEntries + [Close(entry.date, entry.meta, toCloseAccounts[k])];
      assert Closes(entry, toCloseAccounts[..k + 1]) ==
             Closes(entry, toCloseAccounts[..k]) + [Close(entry.date, entry.meta, toCloseAccounts[k])];
      k := k + 1;
    }
    assert toCloseAccounts[..k] == toCloseAccounts;
  }

  /** One step of the pass from a running state, case by case. */
  lemma RunOpenNext(entries: seq<Entry>, i: nat, blocks: seq<seq<Entry>>, accounts: map<string, seq<string>>)
    requires i < |entries| && entries[i].Open?
    requires Run(entries, i, entries) == Ok(Running(blocks, accounts))
    ensures entries[i].account in accounts ==> Run(entries, i + 1, entries) == Ok(Duplicated)
    ensures entries[i].account !in accounts && CompanionsOf(entries[i], entries).Fail? ==>
              Run(entries, i + 1, entries) == Fail(CompanionsOf(entries[i], entries).reason)
    ensures entries[i].account !in accounts && CompanionsOf(entries[i], entries).Ok? ==>
              var e, cs := entries[i], CompanionsOf(entries[i], entries).value;
              Run(entries, i + 1, entries) == Ok(Running(blocks + [[e] + Opens(e, cs)], accounts[e.account := Names(cs)]))
  {
  }

  lemma RunCloseNext(entries: seq<Entry>, i: nat, blocks: seq<seq<Entry>>, accounts: map<string, seq<string>>)
    requires i < |entries| && entries[i].Close? && entries[i].account in accounts
    requires accounts[entries[i].account] != []
    requires Run(entries, i, entries) == Ok(Running(blocks, accounts))
    ensures var e := entries[i];
            Run(entries, i + 1, entries) ==
              Ok(Running(blocks + [[e] + Closes(e, accounts[e.account])], accounts - {e.account}))
  {
  }

  lemma RunOtherNext(entries: seq<Entry>, i: nat, blocks: seq<seq<Entry>>, accounts: map<string, seq<string>>)
    requires i < |entries| && !entries[i].Open?
    requires !(entries[i].Close? && entries[i].account in accounts && accounts[entries[i].account] != [])
    requires Run(entries, i, entries) == Ok(Running(blocks, accounts))
    ensures Run(entries, i + 1, entries) == Ok(Running(blocks + [[entries[i]]], accounts))
  {
  }

  /** The plugin: every input entry is copied to the output, Opens of
      companions follow the Open that triggers them, Closes of companions follow
      the Close of their account.  A second Open of a registered account stops
      the pass with an empty output and one error. */
  method AncillaryAccountsPlugin(entries: seq<Entry>) returns (r: Result<(seq<Entry>, seq<string>)>)
    ensures r == Outcome(Run(entries, |entries|, entries))
  {
    var accounts: map<string, seq<string>> := map[];
    var newEntries: seq<Entry> := [];
    ghost var blocks: seq<seq<Entry>> := [];
    var i := 0;
    while i < |entries|
      invariant 0 <= i <= |entries|
      invariant Run(entries, i, entries) == Ok(Running(blocks, accounts))
      invariant newEntries == Flatten(blocks)
    {
      var stop;
      stop, newEntries, accounts, blocks := Step(entries, i, blocks, accounts, newEntries);
      if stop.Some? {
        return stop.value;
      }
      i := i + 1;
    }
    r := Ok((newEntries, []));
  }

  /** The loop body for entry i: the plugin's result when the pass stops
      there, otherwise the output and registrations after the entry. */
  method Step(entries: seq<Entry>, i: nat, ghost blocks: seq<seq<Entry>>,
              accounts: map<string, seq<string>>, newEntries: seq<Entry>)
    returns (stop: Option<Result<(seq<Entry>, seq<string>)>>, newEntries2: seq<Entry>,
             accounts2: map<string, seq<string>>, ghost blocks2: seq<seq<Entry>>)
    requires i < |entries|
    requires Run(entries, i, entries) == Ok(Running(blocks, accounts))
    requires newEntries == Flatten(blocks)
    ensures stop.Some? ==> stop.value == Outcome(Run(entries, |entries|, entries))
    ensures stop.None? ==> Run(entries, i + 1, entries) == Ok(Running(blocks2, accounts2)) &&
                           newEntries2 == Flatten(blocks2)
  {
    var entry := entries[i];
    newEntries2, accounts2, blocks2 := newEntries + [entry], accounts, blocks;
    stop := None;
    if entry.Open? {
      if entry.account in accounts {
        DuplicateStops(entries, i);
        stop := Some(Ok(([], [DuplicateOpen])));
        return;
      }
      var res;
      res, accounts2, blocks2 := OpenCompanions(entries, i, blocks, accounts, newEntries2);
      if res.Fail? {
        stop := Some(Fail(res.reason));
        return;
      }
      newEntries2 := res.value.0;
    } else if entry.Close? && entry.account in accounts && accounts[entry.account] != [] {
      newEntries2, accounts2, blocks2 := CloseStep(entries, i, blocks, accounts, newEntries2);
    } else {
      blocks2 := OtherStep(entries, i, blocks, accounts, newEntries2);
    }
  }

  /** The loop body for any other entry: it is copied and nothing else happens. */
  lemma OtherStep(entries: seq<Entry>, i: nat, blocks: seq<seq<Entry>>,
                  accounts: map<string, seq<string>>, newEntries: seq<Entry>)
    returns (blocks2: seq<seq<Entry>>)
    requires i < |entries| && !entries[i].Open?
    requires !(entries[i].Close? && entries[i].account in accounts && accounts[entries[i].account] != [])
    requires Run(entries, i, entries) == Ok(Running(blocks, accounts))
    requires newEntries == Flatten(blocks) + [entries[i]]
    ensures Run(entries, i + 1, entries) == Ok(Running(blocks2, accounts))
    ensures newEntries == Flatten(blocks2)
  {
    RunOtherNext(entries, i, blocks, accounts);
    AppendBlock(newEntries, blocks, entries[i], []);
    assert newEntries + [] == newEntries && [entries[i]] + [] == [entries[i]];
    blocks2 := blocks + [[entries[i]]];
  }

  /** The loop body for a Close of a registered account with companions:
      their Closes follow it. */
  method CloseStep(entries: seq<Entry>, i: nat, ghost blocks: seq<seq<Entry>>,
                   accounts: map<string, seq<string>>, newEntries: seq<Entry>)
    returns (newEntries2: seq<Entry>, accounts2: map<string, seq<string>>, ghost blocks2: seq<seq<Entry>>)
    requires i < |entries| && entries[i].Close? && entries[i].account in accounts
    requires accounts[entries[i].account] != []
    requires Run(entries, i, entries) == Ok(Running(blocks, accounts))
    requires newEntries == Flatten(blocks) + [entries[i]]
    ensures accounts2 == accounts - {entries[i].account}
    ensures Run(entries, i + 1, entries) == Ok(Running(blocks2, accounts2))
    ensures newEntries2 == Flatten(blocks2)
  {
    var entry := entries[i];
    accounts2 := accounts - {entry.account};
    RunCloseNext(entries, i, blocks, accounts);
    var toCloseAccounts := accounts[entry.account];
    newEntries2 := CloseCompanions(entry, toCloseAccounts, newEntries);
    var closes := Closes(entry, toCloseAccounts);
    AppendBlock(newEntries, blocks, entry, closes);
    blocks2 := blocks + [[entry] + closes];
  }

  /** Gather of four requests, unfolded. */
  lemma GatherFour(e: Entry, reqs: seq<(string, Result<string>)>)
    requires e.Open? && |reqs| == 4
    ensures Gather(e, reqs) ==
              var a :- CompanionFor(e, reqs[0].0, reqs[0].1);
              var b :- CompanionFor(e, reqs[1].0, reqs[1].1);
              var c :- CompanionFor(e, reqs[2].0, reqs[2].1);
              var d :- CompanionFor(e, reqs[3].0, reqs[3].1);
              Ok(a + b + c + d)
  {
    assert reqs[..0] == [];
    GatherStep(e, reqs, 0, []);
    var r0 := CompanionFor(e, reqs[0].0, reqs[0].1);
    if r0.Fail? {
      GatherFailedPrefix(e, reqs, 1);
      return;
    }
    assert [] + r0.value == r0.value;
    GatherStep(e, reqs, 1, r0.value);
    var r1 := CompanionFor(e, reqs[1].0, reqs[1].1);
    if r1.Fail? {
      GatherFailedPrefix(e, reqs, 2);
      return;
    }
    GatherStep(e, reqs, 2, r0.value + r1.value);
    var r2 := CompanionFor(e, reqs[2].0, reqs[2].1);
    if r2.Fail? {
      GatherFailedPrefix(e, reqs, 3);
      return;
    }
    GatherStep(e, reqs, 3, r0.value + r1.value + r2.value);
    assert reqs[..4] == reqs;
  }

  /** What one metadata key contributes when its account name is `name`. */
  function Optional(e: Entry, key: string, name: string): seq<Companion>
    requires e.Open?
  {
    if Truthy(e.meta, key) then [Companion(name, e.meta[key])] else []
  }

  /** The distribution type of a symbol, or nothing for a symbol without one. */
  function TypeOf(table: map<string, string>, symbol: string): string {
    if symbol in table then table[symbol] else ""
  }

  /** Building the companions fails exactly when the distribution key is set
      and the security has no Commodity entry, with the oracle's KeyError. */
  lemma CompanionsOfFails(e: Entry, all: seq<Entry>)
    requires e.Open?
    ensures CompanionsOf(e, all).Fail? <==>
              Truthy(e.meta, DistributionKey) && !exists i :: CommodityAt(all, i, Leaf(e.account))
    ensures CompanionsOf(e, all).Fail? ==> CompanionsOf(e, all).reason == "KeyError: " + Leaf(e.account)
  {
    var reqs := Requests(e, all);
    DistributionTypesDomain(all, Leaf(e.account));
    GatherFour(e, reqs);
    if CompanionFor(e, reqs[1].0, reqs[1].1).Ok? && Truthy(e.meta, DistributionKey) {
      assert exists i :: CommodityAt(all, i, Leaf(e.account));
    }
  }

  /** The companions, when they can be built: one per key that is set, in the
      fixed order commission, distribution, capital gains, withholding tax,
      named by the oracle for the account's parent and allowing the key's currency. */
  lemma CompanionsOfOk(e: Entry, all: seq<Entry>)
    requires e.Open?
    requires CompanionsOf(e, all).Ok?
    ensures var base, s := BaseName(e.account), Leaf(e.account);
            CompanionsOf(e, all).value ==
              Optional(e, CommissionKey, "Expenses:" + base + ":" + s + ":Commissions") +
              Optional(e, DistributionKey, "Revenues:" + base + ":" + s + ":" + TypeOf(DistributionTypes(all), s)) +
              Optional(e, CapitalGainsKey, "Revenues:" + base + ":" + s + ":Capital-Gains") +
              Optional(e, WithholdingTaxKey, "Expenses:" + base + ":" + s + ":Withholding-Tax")
  {
    var base, s := BaseName(e.account), Leaf(e.account);
    var o := Oracle(base, all, None, None);
    var reqs := Requests(e, all);
    GatherFour(e, reqs);
    assert CompanionFor(e, reqs[0].0, reqs[0].1).value ==
           Optional(e, CommissionKey, "Expenses:" + base + ":" + s + ":Commissions");
    assert CompanionFor(e, reqs[1].0, reqs[1].1).value ==
           Optional(e, DistributionKey, "Revenues:" + base + ":" + s + ":" + TypeOf(DistributionTypes(all), s));
    assert reqs[2] == (CapitalGainsKey, Ok(o.CapitalGainsAccount(s)));
    assert o.CapitalGainsAccount(s) == "Revenues:" + base + ":" + s + ":Capital-Gains";
    assert CompanionFor(e, reqs[2].0, reqs[2].1).value ==
           Optional(e, CapitalGainsKey, "Revenues:" + base + ":" + s + ":Capital-Gains");
    assert CompanionFor(e, reqs[3].0, reqs[3].1).value ==
           Optional(e, WithholdingTaxKey, "Expenses:" + base + ":" + s + ":Withholding-Tax");
  }

  /** For an account with at least three components the oracle's base and the
      leaf put back together give the account without its root, so the
      companions are `Expenses:<rest>:Commissions` and so on. */
  lemma CompanionBase(account: string)
    requires |Split(account)| >= 3
    ensures BaseName(account) + ":" + Leaf(account) == SansRoot(account)
  {
    SansRootLeaf(account);
    ParentLeaf(SansRoot(account));
  }

  /** A directive the pass inserts after entry `e`: an Open of a companion with
      the same date and one currency after an Open, or a Close with the same
      date and metadata after a Close. */
  predicate Inserted(e: Entry, g: Entry) {
    (e.Open? && g.Open? && g.date == e.date && g.meta == GeneratedMeta && |g.currencies| == 1) ||
    (e.Close? && g.Close? && g.date == e.date && g.meta == e.meta)
  }

  /** The block of one entry: the entry, then only directives inserted for it. */
  predicate BlockOf(e: Entry, block: seq<Entry>) {
    |block| >= 1 && block[0] == e &&
    (forall j :: 1 <= j < |block| ==> Inserted(e, block[j])) &&
    (!e.Open? && !e.Close? ==> |block| == 1)
  }

  /** While the pass runs, the output is one block per input entry, in input
      order; each block starts with its entry and goes on only with directives
      inserted for it (none for an entry that is neither Open nor Close). */
  lemma {:induction false} RunShape(entries: seq<Entry>, n: nat, all: seq<Entry>)
    requires n <= |entries|
    requires Run(entries, n, all).Ok? && Run(entries, n, all).value.Running?
    ensures var blocks := Run(entries, n, all).value.blocks;
            |blocks| == n && forall i :: 0 <= i < n ==> BlockOf(entries[i], blocks[i])
  {
    if n > 0 {
      RunStepBlock(entries, n, all);
      RunShape(entries, n - 1, all);
      var blocks := Run(entries, n - 1, all).value.blocks;
      var blocks2 := Run(entries, n, all).value.blocks;
      forall i | 0 <= i < n ensures BlockOf(entries[i], blocks2[i]) {
        if i < n - 1 {
          assert blocks2[i] == blocks2[..n - 1][i];
        }
      }
    }
  }

  /** One running step of the pass adds one block, for the entry it visits. */
  lemma RunStepBlock(entries: seq<Entry>, n: nat, all: seq<Entry>)
    requires 0 < n <= |entries|
    requires Run(entries, n, all).Ok? && Run(entries, n, all).value.Running?
    ensures Run(entries, n - 1, all).Ok? && Run(entries, n - 1, all).value.Running?
    ensures var blocks := Run(entries, n - 1, all).value.blocks;
            var blocks2 := Run(entries, n, all).value.blocks;
            |blocks2| == |blocks| + 1 && blocks2[..|blocks|] == blocks && BlockOf(entries[n - 1], blocks2[|blocks|])
  {
    var prev := Run(entries, n - 1, all);
    assert prev.Ok? && prev.value.Running?;
    var blocks := prev.value.blocks;
    var accounts := prev.value.accounts;
    var e := entries[n - 1];
    if e.Open? {
      OpensBlock(e, CompanionsOf(e, all).value);
    } else if e.Close? && e.account in accounts && accounts[e.account] != [] {
      ClosesBlock(e, accounts[e.account]);
    }
    var blocks2 := Run(entries, n, all).value.blocks;
    assert blocks2[..|blocks|] == blocks;
  }

  lemma OpensBlock(e: Entry, cs: seq<Companion>)
    requires e.Open?
    ensures BlockOf(e, [e] + Opens(e, cs))
  {
    var block := [e] + Opens(e, cs);
    assert forall j :: 1 <= j < |block| ==> block[j] == Opens(e, cs)[j - 1];
  }

  lemma ClosesBlock(e: Entry, names: seq<string>)
    requires e.Close?
    ensures BlockOf(e, [e] + Closes(e, names))
  {
    var block := [e] + Closes(e, names);
    assert forall j :: 1 <= j < |block| ==> block[j] == Closes(e, names)[j - 1];
  }

  /** An Open of an account that is still registered ends the plugin with no
      entries and the duplicate error, whatever follows. */
  lemma DuplicateStops(entries: seq<Entry>, i: nat)
    requires i < |entries| && entries[i].Open?
    requires Run(entries, i, entries).Ok? && Run(entries, i, entries).value.Running?
    requires entries[i].account in Run(entries, i, entries).value.accounts
    ensures Outcome(Run(entries, |entries|, entries)) == Ok(([], [DuplicateOpen]))
  {
    RunOpenNext(entries, i, Run(entries, i, entries).value.blocks, Run(entries, i, entries).value.accounts);
    RunStopped(entries, i + 1, |entries|, entries);
  }

  /** An Open without companion keys registers its account with nothing to
      close; its Close leaves it registered, so opening it again is a duplicate. */
  lemma ReopenWithoutCompanions(acct: string, currencies: seq<string>, meta: Meta)
    ensures var entries := [Open(1, map[], acct, currencies), Close(2, meta, acct), Open(3, map[], acct, currencies)];
            Outcome(Run(entries, |entries|, entries)) == Ok(([], [DuplicateOpen]))
  {
    var entries := [Open(1, map[], acct, currencies), Close(2, meta, acct), Open(3, map[], acct, currencies)];
    CompanionsOfFails(entries[0], entries);
    CompanionsOfOk(entries[0], entries);
    assert CompanionsOf(entries[0], entries) == Ok([]);
    RunOpenNext(entries, 0, [], map[]);
    var r1 := Run(entries, 1, entries).value;
    assert r1.accounts == map[acct := []];
    RunOtherNext(entries, 1, r1.blocks, r1.accounts);
    DuplicateStops(entries, 2);
  }
}
