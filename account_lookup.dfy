/** Consistent account names for one brokerage account, and the table of
    distribution types read from the ledger's Commodity entries. */
module AccountLookup {
  import opened Results
  import opened Ledger

  const TransfersNotConfigured := "transfers_account not configured in AccountOracle"
  const StockRevenueNotConfigured := "stock_revenue_account not configured in AccountOracle"

  /** The `distribution_type` metadata of a Commodity entry, 'Dividends' when absent. */
  function DistributionTypeOf(meta: Meta): string {
    if "distribution_type" in meta then meta["distribution_type"] else "Dividends"
  }

  /** The symbol to distribution-type table: one key per Commodity entry's
      currency, a later entry overwriting an earlier one. */
  function DistributionTypes(entries: seq<Entry>): map<string, string>
    decreases |entries|
  {
    if entries == [] then map[]
    else
      var table := DistributionTypes(entries[..|entries| - 1]);
      var e := entries[|entries| - 1];
      if e.Commodity? then table[e.currency := DistributionTypeOf(e.meta)] else table
  }

  predicate CommodityAt(entries: seq<Entry>, i: int, c: string) {
    0 <= i < |entries| && entries[i].Commodity? && entries[i].currency == c
  }

  /** entries[i] is the last Commodity entry for its currency. */
  predicate LastCommodityAt(entries: seq<Entry>, i: int) {
    0 <= i < |entries| && entries[i].Commodity? &&
    forall j :: i < j < |entries| ==> !CommodityAt(entries, j, entries[i].currency)
  }

  /** The table has exactly the currencies of the Commodity entries. */
  lemma {:induction false} DistributionTypesDomain(entries: seq<Entry>, c: string)
    ensures c in DistributionTypes(entries) <==> exists i :: CommodityAt(entries, i, c)
    decreases |entries|
  {
    if entries != [] {
      var n := |entries| - 1;
      var init := entries[..n];
      DistributionTypesDomain(init, c);
      var e := entries[n];
      var table := DistributionTypes(init);
      assert DistributionTypes(entries) == if e.Commodity? then table[e.currency := DistributionTypeOf(e.meta)] else table;
      if c in DistributionTypes(entries) {
        if e.Commodity? && e.currency == c {
          assert CommodityAt(entries, n, c);
        } else {
          var i :| CommodityAt(init, i, c);
          assert CommodityAt(entries, i, c);
        }
      }
      if i :| CommodityAt(entries, i, c) {
        if i < n {
          assert CommodityAt(init, i, c);
        }
      }
    }
  }

  /** Each currency maps to the distribution type of its last Commodity entry. */
  lemma {:induction false} DistributionTypesLast(entries: seq<Entry>, i: int)
    requires LastCommodityAt(entries, i)
    ensures entries[i].currency in DistributionTypes(entries)
    ensures DistributionTypes(entries)[entries[i].currency] == DistributionTypeOf(entries[i].meta)
    decreases |entries|
  {
    var n := |entries| - 1;
    var init := entries[..n];
    if i < n {
      assert !CommodityAt(entries, n, entries[i].currency);
      forall j | i < j < |init| ensures !CommodityAt(init, j, init[i].currency) {
        assert !CommodityAt(entries, j, entries[i].currency);
      }
      DistributionTypesLast(init, i);
    }
  }

  /** An account oracle: the three root-prefixed account paths, the
      distribution-type table and the two optional accounts.  It is never
      changed after it is built. */
  datatype AccountOracle = AccountOracle(
    assetsAccount: string,
    revenuesAccount: string,
    expensesAccount: string,
    distributionType: map<string, string>,
    transfersAccount: Option<string>,
    stockRevenueAccount: Option<string>)
  {
    function CashAccount(): string {
      assetsAccount + ":Cash"
    }

    function AssetAccount(symbol: string): string {
      assetsAccount + ":" + symbol
    }

    /** Fails (a KeyError) for a symbol without a Commodity entry. */
    function DistributionAccount(symbol: string): Result<string> {
      if symbol in distributionType then Ok(revenuesAccount + ":" + symbol + ":" + distributionType[symbol])
      else Fail("KeyError: " + symbol)
    }

    function CapitalGainsAccount(symbol: string): string {
      revenuesAccount + ":" + symbol + ":" + "Capital-Gains"
    }

    function AccountInterestAccount(): string {
      revenuesAccount + ":Cash:Interest"
    }

    function AccountFeesAccount(): string {
      expensesAccount + ":Cash:Fees"
    }

    function WithholdingTaxesAccount(symbol: string): string {
      expensesAccount + ":" + symbol + ":Withholding-Tax"
    }

    function CommissionAccount(symbol: string): string {
      expensesAccount + ":" + symbol + ":Commissions"
    }

    /** Fails (a ValueError) when no transfers account was configured. */
    function TransfersAccountName(): Result<string> {
      match transfersAccount
      case None => Fail(TransfersNotConfigured)
      case Some(a) => Ok(a)
    }

    /** Fails (a ValueError) when no stock-revenue account was configured. */
    function StockRevenueAccountName(): Result<string> {
      match stockRevenueAccount
      case None => Fail(StockRevenueNotConfigured)
      case Some(a) => Ok(a)
    }
  }

  /** The oracle the constructor builds, as a value. */
  function Oracle(account: string, entries: seq<Entry>, transfers: Option<string>,
                  stockRevenue: Option<string>): AccountOracle
  {
    AccountOracle("Assets:" + account, "Revenues:" + account, "Expenses:" + account,
                  DistributionTypes(entries), transfers, stockRevenue)
  }

  /** The constructor: one pass over the entries fills the distribution-type
      table, then the account prefixes are set.  Every accessor is stated in
      terms of the constructor's arguments. */
  method NewAccountOracle(account: string, entries: seq<Entry>, transfers: Option<string>,
                          stockRevenue: Option<string>) returns (o: AccountOracle)
    ensures o == Oracle(account, entries, transfers, stockRevenue)
    ensures o.CashAccount() == "Assets:" + account + ":Cash"
    ensures forall s :: o.AssetAccount(s) == "Assets:" + account + ":" + s
    ensures forall s :: o.CapitalGainsAccount(s) == "Revenues:" + account + ":" + s + ":Capital-Gains"
    ensures forall s :: o.CommissionAccount(s) == "Expenses:" + account + ":" + s + ":Commissions"
    ensures forall s :: o.WithholdingTaxesAccount(s) == "Expenses:" + account + ":" + s + ":Withholding-Tax"
    ensures o.AccountInterestAccount() == "Revenues:" + account + ":Cash:Interest"
    ensures o.AccountFeesAccount() == "Expenses:" + account + ":Cash:Fees"
    ensures forall s :: o.DistributionAccount(s).Ok? <==> exists i :: CommodityAt(entries, i, s)
    ensures forall s :: o.DistributionAccount(s).Fail? ==> o.DistributionAccount(s) == Fail("KeyError: " + s)
    ensures forall i :: LastCommodityAt(entries, i) ==>
              o.DistributionAccount(entries[i].currency) ==
              Ok("Revenues:" + account + ":" + entries[i].currency + ":" + DistributionTypeOf(entries[i].meta))
    ensures o.TransfersAccountName() == if transfers.None? then Fail(TransfersNotConfigured) else Ok(transfers.value)
    ensures o.StockRevenueAccountName() ==
              if stockRevenue.None? then Fail(StockRevenueNotConfigured) else Ok(stockRevenue.value)
  {
    var table: map<string, string> := map[];
    var i := 0;
    while i < |entries|
      invariant 0 <= i <= |entries|
      invariant table == DistributionTypes(entries[..i])
    {
      var e := entries[i];
      if e.Commodity? {
        table := table[e.currency := DistributionTypeOf(e.meta)];
      }
      assert entries[..i + 1][..i] == entries[..i];
      i := i + 1;
    }
    assert entries[..i] == entries;
    o := AccountOracle("Assets:" + account, "Revenues:" + account, "Expenses:" + account,
                       table, transfers, stockRevenue);
    forall s ensures o.DistributionAccount(s).Ok? <==> exists i :: CommodityAt(entries, i, s) {
      DistributionTypesDomain(entries, s);
    }
    forall i | LastCommodityAt(entries, i)
      ensures o.DistributionAccount(entries[i].currency) ==
              Ok("Revenues:" + account + ":" + entries[i].currency + ":" + DistributionTypeOf(entries[i].meta))
    {
      DistributionTypesLast(entries, i);
    }
  }
}
