/** The records of the UK capital-gains lot matcher: configured accounts, the
    matches recorded against a posting, the matched-transaction record with
    its unmatched units and gains, and the injected GBP converter. */
module CgtRecords {
  import opened Results
  import opened Ledger
  import opened Decimal
  import opened Strings

  const AssertionFailed := "AssertionError"

  /** One configured account, `{name, taxable}`; `taxable` defaults to true. */
  datatype AccountConfig = AccountConfig(name: string, taxable: Option<bool>)

  /** A CGT account.  Pools are kept per symbol and scope suffix: all taxable
      accounts share the scope "Taxable", every other account has its own. */
  datatype CgtAccount = CgtAccount(name: string, taxable: bool, section104Suffix: string)

  function MakeAccount(c: AccountConfig): (a: CgtAccount)
    ensures a.name == c.name
    ensures a.taxable <==> c.taxable != Some(false)
    ensures a.taxable ==> a.section104Suffix == "Taxable"
    ensures !a.taxable ==> |a.section104Suffix| == |c.name| && ':' !in a.section104Suffix
    ensures !a.taxable ==> forall i :: 0 <= i < |c.name| ==>
              a.section104Suffix[i] == if c.name[i] == ':' then '-' else c.name[i]
  {
    var taxable := if c.taxable.Some? then c.taxable.value else true;
    CgtAccount(c.name, taxable, if taxable then "Taxable" else ReplaceChar(c.name, ':', '-'))
  }

  /** `units` of the posting allocated at `cost`; positive on a sell, negative on a buy. */
  datatype Match = Match(units: real, cost: Cost, gbpAllowableCost: real)

  function SumUnits(ms: seq<Match>): real
    decreases |ms|
  {
    if ms == [] then 0.0 else SumUnits(ms[..|ms| - 1]) + ms[|ms| - 1].units
  }

  /** `sum(m.units * -m.cost.number)`. */
  function SumNegCost(ms: seq<Match>): real
    decreases |ms|
  {
    if ms == [] then 0.0 else SumNegCost(ms[..|ms| - 1]) + ms[|ms| - 1].units * -ms[|ms| - 1].cost.number
  }

  /** The cost of the matched units, `sum(m.units * m.cost.number)`. */
  function MatchedCost(ms: seq<Match>): real
    decreases |ms|
  {
    if ms == [] then 0.0 else MatchedCost(ms[..|ms| - 1]) + ms[|ms| - 1].units * ms[|ms| - 1].cost.number
  }

  lemma SumUnitsAppend(ms: seq<Match>, m: Match)
    ensures SumUnits(ms + [m]) == SumUnits(ms) + m.units
  {
    assert (ms + [m])[..|ms|] == ms;
  }

  lemma {:induction false} SumNegCostIsNegatedCost(ms: seq<Match>)
    ensures SumNegCost(ms) == -MatchedCost(ms)
    decreases |ms|
  {
    if ms != [] {
      SumNegCostIsNegatedCost(ms[..|ms| - 1]);
    }
  }

  /** The GBP converter: the GBP value on a date of an amount in some currency.
      It stands for the beancount price map built from the ledger's prices. */
  type Fx = (int, Amount) -> real

  /** The converter never answers zero for a non-zero amount. */
  ghost predicate NonZeroRates(fx: Fx) {
    forall d: int, a: Amount :: a.number != 0.0 ==> fx(d, a) != 0.0
  }

  /** `convert_to_gbp`: the GBP value of `units` at `price` on `date`, to 4 decimal places. */
  function ConvertToGbp(fx: Fx, date: int, units: real, price: Amount): (r: real)
    requires price.number != 0.0
    requires fx(date, Amount(units * price.number, price.currency)) != 0.0
    ensures OnGrid(r)
    ensures -0.00005 <= r - fx(date, Amount(units * price.number, price.currency)) <= 0.00005
  {
    Quantize(fx(date, Amount(units * price.number, price.currency)))
  }

  /** Under a converter without zero rates, any non-zero number of units at a
      non-zero price can be converted. */
  lemma Convertible(fx: Fx, date: int, units: real, price: Amount)
    requires NonZeroRates(fx)
    requires units != 0.0 && price.number != 0.0
    ensures fx(date, Amount(units * price.number, price.currency)) != 0.0
  {
    assert Amount(units * price.number, price.currency).number != 0.0;
  }

  /** One extracted asset posting: the index of its transaction in the entry
      list, the transaction (the posting taken out), the posting, the matches
      allocated so far and the CGT account. */
  datatype MatchedTransaction = MatchedTransaction(
    entry: nat,
    txn: Transaction,
    posting: Posting,
    matches: seq<Match>,
    account: CgtAccount)
  {
    function UnmatchedUnits(): real {
      posting.units.number + SumUnits(matches)
    }

    predicate IsBuy() {
      posting.units.number > 0.0
    }

    predicate IsSell() {
      posting.units.number < 0.0
    }

    /** The gain in the trade currency of a sell with a price. */
    function CapitalGains(): (cg: real)
      requires IsSell() && HasPrice(posting)
      ensures OnGrid(cg)
    {
      Gain(posting.price.value.number, posting.units.number, matches)
    }

    /** The GBP gain of each match: the sale value of its units on the sale
        date less its allowable cost, to 4 places. */
    function GbpCapitalGains(fx: Fx): (gs: seq<real>)
      requires IsSell() && HasPrice(posting) && NonZeroRates(fx)
      requires forall k :: 0 <= k < |matches| ==> matches[k].units != 0.0
      ensures |gs| == |matches|
    {
      seq(|matches|, k requires 0 <= k < |matches| => Quantize(SaleGbp(fx, k) - matches[k].gbpAllowableCost))
    }

    /** The GBP value on the sale date of the units of match k at the sale price. */
    function SaleGbp(fx: Fx, k: nat): real
      requires HasPrice(posting) && NonZeroRates(fx)
      requires k < |matches| && matches[k].units != 0.0
    {
      Convertible(fx, txn.date, matches[k].units, posting.price.value);
      ConvertToGbp(fx, txn.date, matches[k].units, posting.price.value)
    }
  }

  /** A sell while it is being matched: matched units are positive and never
      exceed the sold units; its GBP allowable costs are on the 4-place grid;
      once anything is matched it has a price. */
  predicate SellOk(t: MatchedTransaction) {
    t.IsSell() && t.UnmatchedUnits() <= 0.0 &&
    (forall k :: 0 <= k < |t.matches| ==> t.matches[k].units > 0.0 && OnGrid(t.matches[k].gbpAllowableCost)) &&
    (t.matches != [] ==> HasPrice(t.posting))
  }

  /** A buy while it is being matched: matched units are negative and never
      exceed the bought units; once anything is matched it has a price. */
  predicate BuyOk(t: MatchedTransaction) {
    t.IsBuy() && t.UnmatchedUnits() >= 0.0 &&
    (forall k :: 0 <= k < |t.matches| ==> t.matches[k].units < 0.0) &&
    (t.matches != [] ==> HasPrice(t.posting))
  }

  predicate RecordOk(t: MatchedTransaction) {
    SellOk(t) || BuyOk(t)
  }

  /** Two records of the same posting, differing at most in their matches and
      in the postings of their transaction. */
  predicate SamePosting(a: MatchedTransaction, b: MatchedTransaction) {
    a.entry == b.entry && a.posting == b.posting && a.account == b.account &&
    a.txn.date == b.txn.date && a.txn.meta == b.txn.meta && a.txn.narration == b.txn.narration
  }

  /** `price * units - sum(m.units * -m.cost)`, to 4 places: the gain on
      selling `-units` at `price` against the matches `ms`. */
  function Gain(price: real, units: real, ms: seq<Match>): (g: real)
    ensures OnGrid(g)
  {
    Quantize(price * units - SumNegCost(ms))
  }

  /** Once the sold units are all matched the gain is the cost of the
      matches less the proceeds, to 4 places: negative for a profit, the sign
      of a revenue posting. */
  lemma GainIsCostLessProceeds(price: real, units: real, ms: seq<Match>)
    requires units + SumUnits(ms) == 0.0
    ensures Gain(price, units, ms) == Quantize(MatchedCost(ms) - price * SumUnits(ms))
  {
    ProceedsLessNegCost(price, units, ms);
    QuantizeEq(price * units - SumNegCost(ms), MatchedCost(ms) - price * SumUnits(ms));
  }

  lemma ProceedsLessNegCost(price: real, units: real, ms: seq<Match>)
    requires units + SumUnits(ms) == 0.0
    ensures price * units - SumNegCost(ms) == MatchedCost(ms) - price * SumUnits(ms)
  {
    SumNegCostIsNegatedCost(ms);
    assert units == -SumUnits(ms);
    assert price * units == -(price * SumUnits(ms));
  }

  /** Matched units priced at p cost p per unit. */
  lemma {:induction false} MatchedCostAtPrice(ms: seq<Match>, price: real)
    requires forall k :: 0 <= k < |ms| ==> ms[k].cost.number == price
    ensures MatchedCost(ms) == price * SumUnits(ms)
    decreases |ms|
  {
    if ms != [] {
      MatchedCostAtPrice(ms[..|ms| - 1], price);
    }
  }

  /** A sell fully matched against lots that cost the sale price has no gain. */
  lemma NoGainAtSalePrice(price: real, units: real, ms: seq<Match>)
    requires units + SumUnits(ms) == 0.0
    requires forall k :: 0 <= k < |ms| ==> ms[k].cost.number == price
    ensures Gain(price, units, ms) == 0.0
  {
    ProceedsLessNegCost(price, units, ms);
    MatchedCostAtPrice(ms, price);
    QuantizeZero(price * units - SumNegCost(ms));
  }

  lemma QuantizeZero(x: real)
    requires x == 0.0
    ensures Quantize(x) == 0.0
  {
    QuantizeOnGrid(0.0);
  }

  /** Ten units bought at 100 and sold at 150, matched in one lot: the gain is
      -500, booked as revenue with the sign of a credit. */
  lemma GainScenario(cur: string, date: int, gbp: real)
    ensures Gain(150.0, -10.0, [Match(10.0, Cost(100.0, cur, date, None), gbp)]) == -500.0
  {
    var ms := [Match(10.0, Cost(100.0, cur, date, None), gbp)];
    assert ms[..0] == [];
    assert SumNegCost(ms) == -1000.0;
    QuantizeEq(150.0 * -10.0 - SumNegCost(ms), -500.0);
    assert (-500.0 * 10000.0).Floor as real == -500.0 * 10000.0;
    QuantizeOnGrid(-500.0);
  }

  /** The GBP gains need no rounding: both terms are already on the 4-place grid. */
  lemma GbpCapitalGainsExact(t: MatchedTransaction, fx: Fx)
    requires SellOk(t) && HasPrice(t.posting) && NonZeroRates(fx)
    ensures forall k :: 0 <= k < |t.matches| ==>
              t.GbpCapitalGains(fx)[k] == t.SaleGbp(fx, k) - t.matches[k].gbpAllowableCost
  {
    forall k | 0 <= k < |t.matches|
      ensures t.GbpCapitalGains(fx)[k] == t.SaleGbp(fx, k) - t.matches[k].gbpAllowableCost
    {
      OnGridSub(t.SaleGbp(fx, k), t.matches[k].gbpAllowableCost);
    }
  }
}
