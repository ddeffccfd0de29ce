/** Extracting the records the lot matcher works on: for each transaction,
    its first asset posting (not a cash account) in a configured account is
    taken out of the transaction and becomes a buy or a sell. */
module CgtExtract {
  import opened Results
  import opened Ledger
  import opened Strings
  import opened CgtRecords
  import opened CgtMatching

  /** The first configured account whose name occurs in `name`. */
  function FindAccount(accounts: seq<CgtAccount>, name: string): (r: Option<CgtAccount>)
    ensures r.Some? ==> r.value in accounts && Contains(name, r.value.name)
    ensures r.None? <==> forall k :: 0 <= k < |accounts| ==> !Contains(name, accounts[k].name)
    decreases |accounts|
  {
    if accounts == [] then None
    else if Contains(name, accounts[0].name) then Some(accounts[0])
    else FindAccount(accounts[1..], name)
  }

  /** The account found is the first one that matches. */
  lemma {:induction false} FindAccountFirst(accounts: seq<CgtAccount>, name: string, k: nat)
    requires k < |accounts| && Contains(name, accounts[k].name)
    requires forall j :: 0 <= j < k ==> !Contains(name, accounts[j].name)
    ensures FindAccount(accounts, name) == Some(accounts[k])
    decreases k
  {
    if k > 0 {
      FindAccountFirst(accounts[1..], name, k - 1);
    }
  }

  /** An asset posting, not in a cash account, in a configured account. */
  predicate IsCandidate(p: Posting, accounts: seq<CgtAccount>) {
    StartsWith(p.account, "Assets") && !EndsWith(p.account, "Cash") && FindAccount(accounts, p.account).Some?
  }

  /** The index of the first candidate posting at or after k. */
  function FirstCandidate(ps: seq<Posting>, accounts: seq<CgtAccount>, k: nat): (r: Option<nat>)
    requires k <= |ps|
    ensures r.Some? ==> k <= r.value < |ps| && IsCandidate(ps[r.value], accounts) &&
                        forall j :: k <= j < r.value ==> !IsCandidate(ps[j], accounts)
    ensures r.None? <==> forall j :: k <= j < |ps| ==> !IsCandidate(ps[j], accounts)
    decreases |ps| - k
  {
    if k == |ps| then None
    else if IsCandidate(ps[k], accounts) then Some(k)
    else FirstCandidate(ps, accounts, k + 1)
  }

  /** The record for entry i, if any.  A candidate posting with no units is
      rejected. */
  function ExtractEntry(i: nat, e: Entry, accounts: seq<CgtAccount>): (r: Result<Option<MatchedTransaction>>)
  {
    if !e.Txn? then Ok(None)
    else
      match FirstCandidate(e.txn.postings, accounts, 0)
      case None => Ok(None)
      case Some(k) =>
        var p := e.txn.postings[k];
        if p.units.number == 0.0 then Fail(AssertionFailed)
        else Ok(Some(MatchedTransaction(i, e.txn.(postings := RemoveFirst(e.txn.postings, p)), p, [],
                                        FindAccount(accounts, p.account).value)))
  }

  /** What extraction makes of one entry: nothing for a directive that is not
      a transaction or has no candidate posting; otherwise a fresh buy or sell
      of its first candidate posting, which is removed from the transaction. */
  lemma ExtractEntrySpec(i: nat, e: Entry, accounts: seq<CgtAccount>)
    ensures var r := ExtractEntry(i, e, accounts);
            (r == Ok(None) <==> !e.Txn? || FirstCandidate(e.txn.postings, accounts, 0).None?) &&
            (r.Fail? ==> r.reason == AssertionFailed)
    ensures e.Txn? && FirstCandidate(e.txn.postings, accounts, 0).Some? ==>
              var ps := e.txn.postings;
              var k := FirstCandidate(ps, accounts, 0).value;
              var r := ExtractEntry(i, e, accounts);
              (r.Fail? <==> ps[k].units.number == 0.0) &&
              (r.Ok? ==> r.value.Some? &&
                         r.value.value == MatchedTransaction(i, e.txn.(postings := ps[..k] + ps[k + 1..]), ps[k], [],
                                                             FindAccount(accounts, ps[k].account).value) &&
                         RecordOk(r.value.value) && r.value.value.UnmatchedUnits() == ps[k].units.number)
  {
    if e.Txn? && FirstCandidate(e.txn.postings, accounts, 0).Some? {
      var ps := e.txn.postings;
      var k := FirstCandidate(ps, accounts, 0).value;
      RemoveFirstAt(ps, k);
    }
  }

  /** A record extracted from entry i is a fresh buy or sell of entry i. */
  lemma ExtractedRecord(i: nat, e: Entry, accounts: seq<CgtAccount>, rec: MatchedTransaction)
    requires ExtractEntry(i, e, accounts) == Ok(Some(rec))
    ensures rec.entry == i && RecordOk(rec) && rec.matches == []
  {
  }

  /** The records of entries i onwards, appended to `buys` and `sells` in
      entry order. */
  function Extract(entries: seq<Entry>, accounts: seq<CgtAccount>, i: nat,
                   buys: seq<MatchedTransaction>, sells: seq<MatchedTransaction>)
    : Result<(seq<MatchedTransaction>, seq<MatchedTransaction>)>
    requires i <= |entries|
    decreases |entries| - i
  {
    if i == |entries| then Ok((buys, sells))
    else
      var rec :- ExtractEntry(i, entries[i], accounts);
      if rec.None? then Extract(entries, accounts, i + 1, buys, sells)
      else if rec.value.IsBuy() then Extract(entries, accounts, i + 1, buys + [rec.value], sells)
      else Extract(entries, accounts, i + 1, buys, sells + [rec.value])
  }

  /** Records of entries before i, each of a different entry, in entry order. */
  predicate EntriesBelow(recs: seq<MatchedTransaction>, i: nat) {
    (forall k :: 0 <= k < |recs| ==> recs[k].entry < i) &&
    (forall a, b :: 0 <= a < b < |recs| ==> recs[a].entry < recs[b].entry)
  }

  /** Fresh buys: no matches yet. */
  predicate FreshBuys(buys: seq<MatchedTransaction>) {
    forall k :: 0 <= k < |buys| ==> buys[k].matches == []
  }

  /** Each record is what extraction makes of its own entry. */
  predicate FromEntries(recs: seq<MatchedTransaction>, entries: seq<Entry>, accounts: seq<CgtAccount>) {
    forall k :: 0 <= k < |recs| ==>
      recs[k].entry < |entries| && ExtractEntry(recs[k].entry, entries[recs[k].entry], accounts) == Ok(Some(recs[k]))
  }

  /** The buys and sells extracted from the entries before i are consistent
      and unmatched, each list in entry order, and no entry gives both a buy
      and a sell. */
  predicate Separate(i: nat, buys: seq<MatchedTransaction>, sells: seq<MatchedTransaction>) {
    AllBuysOk(buys) && FreshBuys(buys) && AllSellsOk(sells) && Fresh(sells) &&
    EntriesBelow(buys, i) && EntriesBelow(sells, i) &&
    (forall a, b :: 0 <= a < |buys| && 0 <= b < |sells| ==> buys[a].entry != sells[b].entry)
  }

  /** What holds of the buys and sells extracted from the entries before i:
      they are separate, and each record is what its entry gives. */
  predicate Extracted(entries: seq<Entry>, accounts: seq<CgtAccount>, i: nat,
                      buys: seq<MatchedTransaction>, sells: seq<MatchedTransaction>) {
    Separate(i, buys, sells) && FromEntries(buys, entries, accounts) && FromEntries(sells, entries, accounts)
  }

  lemma AppendOrigin(recs: seq<MatchedTransaction>, rec: MatchedTransaction, entries: seq<Entry>,
                     accounts: seq<CgtAccount>, i: nat)
    requires i < |entries| && FromEntries(recs, entries, accounts)
    requires ExtractEntry(i, entries[i], accounts) == Ok(Some(rec)) && rec.entry == i
    ensures FromEntries(recs + [rec], entries, accounts)
  {
    assert forall k :: 0 <= k < |recs| ==> (recs + [rec])[k] == recs[k];
  }

  lemma AppendBuy(i: nat, buys: seq<MatchedTransaction>, sells: seq<MatchedTransaction>, rec: MatchedTransaction)
    requires Separate(i, buys, sells)
    requires rec.entry == i && BuyOk(rec) && rec.matches == []
    ensures Separate(i + 1, buys + [rec], sells)
  {
    assert forall k :: 0 <= k < |buys| ==> (buys + [rec])[k] == buys[k];
  }

  lemma AppendSell(i: nat, buys: seq<MatchedTransaction>, sells: seq<MatchedTransaction>, rec: MatchedTransaction)
    requires Separate(i, buys, sells)
    requires rec.entry == i && SellOk(rec) && rec.matches == []
    ensures Separate(i + 1, buys, sells + [rec])
  {
    assert forall k :: 0 <= k < |sells| ==> (sells + [rec])[k] == sells[k];
  }

  lemma ExtractStep(entries: seq<Entry>, accounts: seq<CgtAccount>, i: nat,
                    buys: seq<MatchedTransaction>, sells: seq<MatchedTransaction>)
    requires i < |entries| && Extracted(entries, accounts, i, buys, sells)
    requires ExtractEntry(i, entries[i], accounts).Ok?
    ensures var rec := ExtractEntry(i, entries[i], accounts).value;
            if rec.None? then Extracted(entries, accounts, i + 1, buys, sells)
            else if rec.value.IsBuy() then Extracted(entries, accounts, i + 1, buys + [rec.value], sells)
            else Extracted(entries, accounts, i + 1, buys, sells + [rec.value])
  {
    var rec := ExtractEntry(i, entries[i], accounts).value;
    if rec.Some? {
      var t := rec.value;
      ExtractedRecord(i, entries[i], accounts, t);
      if t.IsBuy() {
        AppendBuy(i, buys, sells, t);
        AppendOrigin(buys, t, entries, accounts, i);
      } else {
        AppendSell(i, buys, sells, t);
        AppendOrigin(sells, t, entries, accounts, i);
      }
    }
  }

  /** Extraction keeps `Extracted` to the end, only appending records. */
  lemma {:induction false} ExtractKeeps(entries: seq<Entry>, accounts: seq<CgtAccount>, i: nat,
                                        buys: seq<MatchedTransaction>, sells: seq<MatchedTransaction>)
    requires i <= |entries| && Extracted(entries, accounts, i, buys, sells)
    ensures var r := Extract(entries, accounts, i, buys, sells);
            r.Ok? ==> Extracted(entries, accounts, |entries|, r.value.0, r.value.1) &&
                      buys <= r.value.0 && sells <= r.value.1
    ensures var r := Extract(entries, accounts, i, buys, sells);
            r.Fail? ==> r.reason == AssertionFailed
    decreases |entries| - i, 1
  {
    if i < |entries| {
      ExtractEntrySpec(i, entries[i], accounts);
      if ExtractEntry(i, entries[i], accounts).Ok? {
        ExtractKeepsStep(entries, accounts, i, buys, sells);
      }
    }
  }

  /** ExtractKeeps when entry i is extracted without failure. */
  lemma {:induction false} ExtractKeepsStep(entries: seq<Entry>, accounts: seq<CgtAccount>, i: nat,
                                            buys: seq<MatchedTransaction>, sells: seq<MatchedTransaction>)
    requires i < |entries| && Extracted(entries, accounts, i, buys, sells)
    requires ExtractEntry(i, entries[i], accounts).Ok?
    ensures var r := Extract(entries, accounts, i, buys, sells);
            r.Ok? ==> Extracted(entries, accounts, |entries|, r.value.0, r.value.1) &&
                      buys <= r.value.0 && sells <= r.value.1
    ensures var r := Extract(entries, accounts, i, buys, sells);
            r.Fail? ==> r.reason == AssertionFailed
    decreases |entries| - i, 0
  {
    var rec := ExtractEntry(i, entries[i], accounts).value;
    ExtractStep(entries, accounts, i, buys, sells);
    if rec.None? {
      ExtractKeeps(entries, accounts, i + 1, buys, sells);
    } else if rec.value.IsBuy() {
      ExtractKeeps(entries, accounts, i + 1, buys + [rec.value], sells);
    } else {
      ExtractKeeps(entries, accounts, i + 1, buys, sells + [rec.value]);
    }
  }

  /** The extraction loop: over the entries, and over each transaction's
      postings up to the first candidate, which is taken out. */
  method ExtractRecords(entries: seq<Entry>, accounts: seq<CgtAccount>)
    returns (r: Result<(seq<MatchedTransaction>, seq<MatchedTransaction>)>)
    ensures r == Extract(entries, accounts, 0, [], [])
  {
    var buys: seq<MatchedTransaction> := [];
    var sells: seq<MatchedTransaction> := [];
    for i := 0 to |entries|
      invariant Extract(entries, accounts, 0, [], []) == Extract(entries, accounts, i, buys, sells)
    {
      var entry := entries[i];
      if !entry.Txn? {
        continue;
      }
      var ps := entry.txn.postings;
      var found := false;
      ghost var buys0, sells0 := buys, sells;
      for k := 0 to |ps|
        invariant !found && buys == buys0 && sells == sells0
        invariant FirstCandidate(ps, accounts, 0) == FirstCandidate(ps, accounts, k)
      {
        var posting := ps[k];
        if !StartsWith(posting.account, "Assets") {
          continue;
        }
        if EndsWith(posting.account, "Cash") {
          continue;
        }
        var account := FindAccount(accounts, posting.account);
        if account.None? {
          continue;
        }
        assert FirstCandidate(ps, accounts, 0) == Some(k);
        if posting.units.number == 0.0 {
          return Fail(AssertionFailed);
        }
        var t := MatchedTransaction(i, entry.txn.(postings := RemoveFirst(ps, posting)), posting, [], account.value);
        assert ExtractEntry(i, entry, accounts) == Ok(Some(t));
        if posting.units.number > 0.0 {
          buys := buys + [t];
        } else {
          sells := sells + [t];
        }
        found := true;
        break;
      }
      if !found {
        assert FirstCandidate(ps, accounts, 0).None?;
        assert ExtractEntry(i, entry, accounts) == Ok(None);
      }
    }
    return Ok((buys, sells));
  }
}
