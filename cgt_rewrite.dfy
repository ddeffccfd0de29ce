/** Writing a fully matched record back into its transaction: one posting per
    lot it was matched against, then the transaction's own postings, then for
    a sell with a gain the capital-gains revenue posting and, in a taxable
    account, one pair of GBP gain postings per lot. */
module CgtRewrite {
  import opened Results
  import opened Ledger
  import opened Strings
  import opened CgtRecords
  import opened AccountLookup

  const ManualKey := "uk_cgt_lots_manual"
  const TaxableGainsAccount := "Equity:Taxable-Capital-Gains"
  const PlaceholderAccount := "Equity:Taxable-Capital-Gains-Placeholder"
  const GainCurrency := "CGT-GBP"

  /** The lot postings of a posting matched against `ms`: the matched units
      back out of the posting's account at each match's cost. */
  function LotPostings(p: Posting, ms: seq<Match>): (ps: seq<Posting>)
    ensures |ps| == |ms|
  {
    seq(|ms|, k requires 0 <= k < |ms| =>
      Posting(p.account, Amount(-ms[k].units, p.units.currency), Some(ms[k].cost), p.price, p.flag, p.meta))
  }

  function SumPostingUnits(ps: seq<Posting>): real
    decreases |ps|
  {
    if ps == [] then 0.0 else SumPostingUnits(ps[..|ps| - 1]) + ps[|ps| - 1].units.number
  }

  lemma {:induction false} SumPostingUnitsAppend(ps: seq<Posting>, qs: seq<Posting>)
    ensures SumPostingUnits(ps + qs) == SumPostingUnits(ps) + SumPostingUnits(qs)
    decreases |qs|
  {
    if qs == [] {
      assert ps + qs == ps;
    } else {
      var n := |qs| - 1;
      assert (ps + qs)[..|ps| + n] == ps + qs[..n];
      SumPostingUnitsAppend(ps, qs[..n]);
    }
  }

  /** The lot postings carry, in all, the negated matched units. */
  lemma {:induction false} LotPostingsUnits(p: Posting, ms: seq<Match>)
    ensures SumPostingUnits(LotPostings(p, ms)) == -SumUnits(ms)
    decreases |ms|
  {
    if ms != [] {
      var n := |ms| - 1;
      assert LotPostings(p, ms)[..n] == LotPostings(p, ms[..n]);
      LotPostingsUnits(p, ms[..n]);
    }
  }

  /** The lot postings of a fully matched record add up to the units of the
      posting they replace: the record's units are split over its lots. */
  lemma LotPostingsReplacePosting(t: MatchedTransaction)
    requires t.UnmatchedUnits() == 0.0
    ensures SumPostingUnits(LotPostings(t.posting, t.matches)) == t.posting.units.number
  {
    LotPostingsUnits(t.posting, t.matches);
  }

  /** The GBP gain postings: for each gain g, g to the taxable-gains account
      and -g to its placeholder, in the CGT-GBP currency. */
  function GainPostings(gs: seq<real>): (ps: seq<Posting>)
    ensures |ps| == 2 * |gs|
    decreases |gs|
  {
    if gs == [] then []
    else
      var g := gs[|gs| - 1];
      GainPostings(gs[..|gs| - 1]) +
        [Posting(TaxableGainsAccount, Amount(g, GainCurrency), None, None, None, map[]),
         Posting(PlaceholderAccount, Amount(-g, GainCurrency), None, None, None, map[])]
  }

  /** Every gain pair balances, so the GBP gain postings add nothing to the
      transaction's balance, and all are in CGT-GBP. */
  lemma {:induction false} GainPostingsBalance(gs: seq<real>)
    ensures SumPostingUnits(GainPostings(gs)) == 0.0
    ensures forall k :: 0 <= k < |GainPostings(gs)| ==> GainPostings(gs)[k].units.currency == GainCurrency
    decreases |gs|
  {
    if gs != [] {
      var n := |gs| - 1;
      var g := gs[n];
      var pair := [Posting(TaxableGainsAccount, Amount(g, GainCurrency), None, None, None, map[]),
                   Posting(PlaceholderAccount, Amount(-g, GainCurrency), None, None, None, map[])];
      GainPostingsBalance(gs[..n]);
      SumPostingUnitsAppend(GainPostings(gs[..n]), pair);
      assert pair[..1] == [pair[0]];
      assert [pair[0]][..0] == [];
      assert SumPostingUnits([pair[0]]) == g;
      assert SumPostingUnits(pair) == 0.0;
    }
  }

  /** `f'Revenues:{name}:Capital-Gains'` with the `Assets:` parts taken out of the account. */
  function RevenueAccount(account: string): string {
    "Revenues:" + ReplaceAll(account, "Assets:", "") + ":Capital-Gains"
  }

  /** For an asset account named as the account oracle names them, the revenue
      account is the oracle's capital-gains account for the symbol. */
  lemma RevenueIsCapitalGainsAccount(o: AccountOracle, base: string, symbol: string)
    requires o.assetsAccount == "Assets:" + base && o.revenuesAccount == "Revenues:" + base
    requires !Contains(base + ":" + symbol, "Assets:")
    ensures RevenueAccount(o.AssetAccount(symbol)) == o.CapitalGainsAccount(symbol)
  {
    var rest := base + ":" + symbol;
    AssetAccountSplit(o, base, symbol);
    ReplaceAllLeading("Assets:", rest);
    CapitalGainsAccountSplit(o, base, symbol);
  }

  lemma AssetAccountSplit(o: AccountOracle, base: string, symbol: string)
    requires o.assetsAccount == "Assets:" + base
    ensures o.AssetAccount(symbol) == "Assets:" + (base + ":" + symbol)
  {
  }

  lemma CapitalGainsAccountSplit(o: AccountOracle, base: string, symbol: string)
    requires o.revenuesAccount == "Revenues:" + base
    ensures o.CapitalGainsAccount(symbol) == "Revenues:" + (base + ":" + symbol) + ":Capital-Gains"
  {
    assert ":" + "Capital-Gains" == ":Capital-Gains";
  }

  /** A record is written back with gain postings only when it is a sell, is
      not flagged for manual treatment and has a non-zero gain. */
  predicate BooksGain(t: MatchedTransaction)
    requires SellOk(t) || BuyOk(t)
    requires t.UnmatchedUnits() == 0.0
  {
    !Truthy(t.posting.meta, ManualKey) && t.IsSell() && t.CapitalGains() != 0.0
  }

  /** The postings added after the transaction's own for a sell with a gain:
      the revenue posting, then the GBP pairs in a taxable account. */
  function GainTail(t: MatchedTransaction, fx: Fx): (ps: seq<Posting>)
    requires NonZeroRates(fx) && SellOk(t) && t.UnmatchedUnits() == 0.0
    ensures |ps| == if t.account.taxable then 1 + 2 * |t.matches| else 1
    ensures ps[0] == Posting(RevenueAccount(t.posting.account),
                             Amount(t.CapitalGains(), t.posting.price.value.currency), None, None, None, map[])
  {
    var revenue := Posting(RevenueAccount(t.posting.account),
                           Amount(t.CapitalGains(), t.posting.price.value.currency), None, None, None, map[]);
    [revenue] + if t.account.taxable then GainPostings(t.GbpCapitalGains(fx)) else []
  }

  /** The record written back into its transaction; it fails when the posting
      has no metadata. */
  function Rewrite(t: MatchedTransaction, fx: Fx): (r: Result<MatchedTransaction>)
    requires NonZeroRates(fx) && RecordOk(t) && t.UnmatchedUnits() == 0.0
    ensures r.Ok? ==> r.value == t.(txn := r.value.txn)
    ensures r.Ok? ==> r.value.txn == t.txn.(postings := r.value.txn.postings)
  {
    var postings := LotPostings(t.posting, t.matches) + t.txn.postings;
    if t.posting.meta == map[] then Fail(AssertionFailed)
    else if Truthy(t.posting.meta, ManualKey) || t.IsBuy() then Ok(t.(txn := t.txn.(postings := postings)))
    else if t.CapitalGains() == 0.0 then Ok(t.(txn := t.txn.(postings := postings)))
    else Ok(t.(txn := t.txn.(postings := postings + GainTail(t, fx))))
  }

  /** The rewritten postings: the lots first, then the transaction's own, then
      the gain postings exactly when the record books a gain. */
  lemma RewriteShape(t: MatchedTransaction, fx: Fx)
    requires NonZeroRates(fx) && RecordOk(t) && t.UnmatchedUnits() == 0.0
    ensures Rewrite(t, fx).Fail? <==> t.posting.meta == map[]
    ensures Rewrite(t, fx).Ok? ==>
              var ps := Rewrite(t, fx).value.txn.postings;
              var n := |t.matches| + |t.txn.postings|;
              n <= |ps| &&
              ps[..n] == LotPostings(t.posting, t.matches) + t.txn.postings &&
              (BooksGain(t) ==> ps[n..] == GainTail(t, fx)) &&
              (!BooksGain(t) ==> |ps| == n)
  {
    var lots := LotPostings(t.posting, t.matches) + t.txn.postings;
    if t.posting.meta != map[] && BooksGain(t) {
      assert (lots + GainTail(t, fx))[..|lots|] == lots;
      assert (lots + GainTail(t, fx))[|lots|..] == GainTail(t, fx);
    }
  }
}
