/** The Section 104 pools: one per symbol and scope, holding the units not
    identified with a same-day or thirty-day buy at their average cost and
    their total allowable GBP cost. */
module Section104 {
  import opened Results
  import opened Ledger
  import opened Decimal
  import opened CgtRecords

  datatype Holding = Holding(
    date: int,
    units: real,
    averageCost: real,
    averageCostCurrency: string,
    totalAllowableCostGbp: real)

  /** Pools are keyed by (symbol, scope suffix). */
  type Key = (string, string)
  type Holdings = map<Key, Holding>

  /** A pool never holds negative units, and an empty pool has no allowable
      cost left (exactly, where the source allows a residue below 1e-12). */
  predicate HoldingOk(h: Holding) {
    h.units >= 0.0 && (h.units == 0.0 ==> h.totalAllowableCostGbp == 0.0)
  }

  predicate HoldingsOk(hs: Holdings) {
    forall k :: k in hs ==> HoldingOk(hs[k])
  }

  function PoolLabel(suffix: string): string {
    "Section-104 " + suffix
  }

  const AdjustmentMeta: Meta := map["uk_cgt_lots_type" := "cost-basis-adjustment"]

  function KeyOf(t: MatchedTransaction): Key {
    (t.posting.units.currency, t.account.section104Suffix)
  }

  /** The pool a record uses: the existing one, or a new empty pool dated
      like the record and kept in the price's currency. */
  function PoolFor(t: MatchedTransaction, hs: Holdings, price: Amount): (h: Holding)
    requires HoldingsOk(hs)
    ensures HoldingOk(h)
    ensures KeyOf(t) !in hs ==> h == Holding(t.txn.date, 0.0, 0.0, price.currency, 0.0)
  {
    if KeyOf(t) in hs then hs[KeyOf(t)] else Holding(t.txn.date, 0.0, 0.0, price.currency, 0.0)
  }

  /** A pool at zero units restarts on the record's date at zero average cost. */
  function Reset(h: Holding, date: int): (r: Holding)
    requires HoldingOk(h)
    ensures HoldingOk(r) && r.units == h.units && r.totalAllowableCostGbp == h.totalAllowableCostGbp
    ensures r.averageCostCurrency == h.averageCostCurrency
    ensures h.units == 0.0 ==> r.date == date && r.averageCost == 0.0
    ensures h.units != 0.0 ==> r == h
  {
    if h.units == 0.0 then h.(date := date, averageCost := 0.0) else h
  }

  /** The allowable GBP cost of `sold` units: the pool's cost per unit times the units sold. */
  function AllowableCost(h: Holding, sold: real): real
    requires h.units > 0.0
  {
    h.totalAllowableCostGbp / h.units * sold
  }

  /** Selling `sold` units out of the pool: units and GBP cost fall, and the
      cost per unit of what is left does not change. */
  function SellFromPool(h: Holding, sold: real): (r: Holding)
    requires HoldingOk(h) && 0.0 < sold <= h.units
    ensures HoldingOk(r)
    ensures r.units == h.units - sold
    ensures r.totalAllowableCostGbp == h.totalAllowableCostGbp - AllowableCost(h, sold)
    ensures r.units > 0.0 ==> r.totalAllowableCostGbp / r.units == h.totalAllowableCostGbp / h.units
    ensures r.date == h.date && r.averageCost == h.averageCost && r.averageCostCurrency == h.averageCostCurrency
  {
    var allowable := AllowableCost(h, sold);
    ProportionalShare(h.totalAllowableCostGbp, h.units, sold);
    h.(units := h.units - sold, totalAllowableCostGbp := h.totalAllowableCostGbp - allowable)
  }

  /** What is left after taking the share t/u*s of t is the share of the rest. */
  lemma ProportionalShare(t: real, u: real, s: real)
    requires 0.0 < s <= u
    ensures t - t / u * s == t / u * (u - s)
    ensures u - s > 0.0 ==> (t - t / u * s) / (u - s) == t / u
    ensures u == s ==> t - t / u * s == 0.0
  {
    var c := t / u;
    assert c * u == t;
    assert t - c * s == c * (u - s);
  }

  /** The pool's average cost after buying `bought` units at `price`. */
  function AverageAfterBuy(h: Holding, bought: real, price: real): (avg: real)
    requires h.units >= 0.0 && bought > 0.0
    ensures avg * (h.units + bought) == h.averageCost * h.units + price * bought
    ensures h.units == 0.0 ==> avg == price
  {
    (h.averageCost * h.units + price * bought) / (h.units + bought)
  }

  lemma AverageIs(h: Holding, bought: real, price: real, total: real)
    requires h.units >= 0.0 && bought > 0.0
    requires total == h.averageCost * h.units + price * bought
    ensures total / (h.units + bought) == AverageAfterBuy(h, bought, price)
  {
  }

  /** Buying into the pool: units and GBP cost rise, the average is re-weighted. */
  function BuyIntoPool(h: Holding, bought: real, price: real, gbp: real): (r: Holding)
    requires HoldingOk(h) && bought > 0.0
    ensures HoldingOk(r) && r.units == h.units + bought
    ensures r.averageCost == AverageAfterBuy(h, bought, price)
    ensures r.totalAllowableCostGbp == h.totalAllowableCostGbp + gbp
    ensures r.date == h.date && r.averageCostCurrency == h.averageCostCurrency
  {
    h.(units := h.units + bought, averageCost := AverageAfterBuy(h, bought, price),
       totalAllowableCostGbp := h.totalAllowableCostGbp + gbp)
  }

  /** The pool lot cost: the given average on the pool's date, labelled with the scope. */
  function PoolCost(h: Holding, average: real, suffix: string): Cost {
    Cost(average, h.averageCostCurrency, h.date, Some(PoolLabel(suffix)))
  }

  /** The compensating pair a buy adds when it changes the average of a
      non-empty pool: the units held before, out at the old average and back
      in at the new one. */
  function Adjustment(t: MatchedTransaction, h: Holding, average: real): (ps: seq<Posting>)
    ensures |ps| == 0 || |ps| == 2
    ensures |ps| == 2 <==> h.units != 0.0 && h.averageCost != average
    ensures |ps| == 2 ==> ps[0].units.number + ps[1].units.number == 0.0
    ensures |ps| == 2 ==> ps[0].units.currency == ps[1].units.currency == t.posting.units.currency
    ensures |ps| == 2 ==> ps[0].cost == Some(PoolCost(h, h.averageCost, t.account.section104Suffix)) &&
                          ps[1].cost == Some(PoolCost(h, average, t.account.section104Suffix))
  {
    if h.units == 0.0 || h.averageCost == average then []
    else
      var scope := t.account.section104Suffix;
      [Posting(t.posting.account, Amount(-h.units, t.posting.units.currency), Some(PoolCost(h, h.averageCost, scope)),
               None, None, AdjustmentMeta),
       Posting(t.posting.account, Amount(h.units, t.posting.units.currency), Some(PoolCost(h, average, scope)),
               None, None, AdjustmentMeta)]
  }

  /** Why `match_to_section` fails on a record with unmatched units: it has no
      price, its pool is in another currency, or it sells more than the pool holds. */
  predicate PoolRejects(t: MatchedTransaction, hs: Holdings)
    requires HoldingsOk(hs)
  {
    !HasPrice(t.posting) ||
    PoolFor(t, hs, t.posting.price.value).averageCostCurrency != t.posting.price.value.currency ||
    (t.IsSell() && PoolFor(t, hs, t.posting.price.value).units < -t.UnmatchedUnits())
  }

  /** A sell with its residue matched against the pool: one more match for
      all the unmatched units, at the pool's average cost and a proportional
      share of its GBP cost. */
  function SellResidue(t: MatchedTransaction, h: Holding): (t2: MatchedTransaction)
    requires SellOk(t) && t.UnmatchedUnits() < 0.0 && HasPrice(t.posting)
    requires HoldingOk(h) && h.units >= -t.UnmatchedUnits()
    ensures SellOk(t2) && t2.UnmatchedUnits() == 0.0
    ensures t2 == t.(matches := t2.matches) && t.matches <= t2.matches
  {
    var u := t.UnmatchedUnits();
    var m := Match(-u, PoolCost(h, h.averageCost, t.account.section104Suffix), Quantize(AllowableCost(h, -u)));
    SumUnitsAppend(t.matches, m);
    t.(matches := t.matches + [m])
  }

  /** A buy with its residue added to the pool: one more match at the new
      average, valued at the converted price, and the compensating pair when
      the average moved.  Returns the record and the updated pool. */
  function BuyResidue(t: MatchedTransaction, h: Holding, fx: Fx): (r: (MatchedTransaction, Holding))
    requires NonZeroRates(fx) && BuyOk(t) && t.UnmatchedUnits() > 0.0 && HasPrice(t.posting) && HoldingOk(h)
    ensures BuyOk(r.0) && r.0.UnmatchedUnits() == 0.0 && HoldingOk(r.1)
    ensures SamePosting(t, r.0) && t.matches <= r.0.matches
  {
    var u := t.UnmatchedUnits();
    var price := t.posting.price.value;
    Convertible(fx, t.txn.date, u, price);
    var gbp := ConvertToGbp(fx, t.txn.date, u, price);
    var h2 := BuyIntoPool(h, u, price.number, gbp);
    var m := Match(-u, PoolCost(h2, h2.averageCost, t.account.section104Suffix), gbp);
    SumUnitsAppend(t.matches, m);
    var txn := t.txn.(postings := t.txn.postings + Adjustment(t, h, h2.averageCost));
    (t.(matches := t.matches + [m], txn := txn), h2)
  }

  /** `match_to_section`: whatever a record has left unmatched is matched
      against its pool, which is created on first use and updated. */
  function PoolStep(t: MatchedTransaction, hs: Holdings, fx: Fx): Result<(MatchedTransaction, Holdings)>
    requires NonZeroRates(fx) && RecordOk(t) && HoldingsOk(hs)
  {
    var u := t.UnmatchedUnits();
    if u == 0.0 then Ok((t, hs))
    else if !HasPrice(t.posting) then Fail(AssertionFailed)
    else
      var price := t.posting.price.value;
      var h0 := PoolFor(t, hs, price);
      if h0.averageCostCurrency != price.currency then Fail(AssertionFailed)
      else
        var h := Reset(h0, t.txn.date);
        if t.IsSell() then
          if h.units < -u then Fail(AssertionFailed)
          else Ok((SellResidue(t, h), hs[KeyOf(t) := SellFromPool(h, -u)]))
        else
          var b := BuyResidue(t, h, fx);
          Ok((b.0, hs[KeyOf(t) := b.1]))
  }

  /** A pool step fails exactly when the record still has units to match and
      has no price, meets a pool in another currency, or oversells the pool;
      otherwise the record ends fully matched, with matches only appended, and
      every pool stays consistent, only the record's own pool changing. */
  lemma PoolStepKeeps(t: MatchedTransaction, hs: Holdings, fx: Fx)
    requires NonZeroRates(fx) && RecordOk(t) && HoldingsOk(hs)
    ensures var r := PoolStep(t, hs, fx);
            (r.Fail? <==> t.UnmatchedUnits() != 0.0 && PoolRejects(t, hs)) &&
            (r.Fail? ==> r.reason == AssertionFailed) &&
            (t.UnmatchedUnits() == 0.0 ==> r == Ok((t, hs))) &&
            (r.Ok? ==> r.value.0.UnmatchedUnits() == 0.0 && HoldingsOk(r.value.1)) &&
            (r.Ok? ==> RecordOk(r.value.0) && SamePosting(t, r.value.0) && t.matches <= r.value.0.matches) &&
            (r.Ok? ==> forall k :: k != KeyOf(t) ==> (k in r.value.1 <==> k in hs) &&
                                                     (k in hs ==> r.value.1[k] == hs[k]))
  {
  }

  /** A sell's residue is taken from its pool at the pool's average cost: one
      match for all of it, labelled with the scope, whose GBP allowable cost is
      the pool's cost per unit times the units sold. */
  lemma PoolSell(t: MatchedTransaction, hs: Holdings, fx: Fx)
    requires NonZeroRates(fx) && RecordOk(t) && HoldingsOk(hs)
    requires t.IsSell() && t.UnmatchedUnits() != 0.0 && PoolStep(t, hs, fx).Ok?
    ensures var (t2, hs2) := PoolStep(t, hs, fx).value;
            var h := PoolFor(t, hs, t.posting.price.value);
            h.units > 0.0 &&
            t2 == t.(matches := t.matches + [Match(-t.UnmatchedUnits(),
                                                  PoolCost(h, h.averageCost, t.account.section104Suffix),
                                                  Quantize(AllowableCost(h, -t.UnmatchedUnits())))]) &&
            hs2[KeyOf(t)].units == h.units + t.UnmatchedUnits() &&
            hs2[KeyOf(t)].totalAllowableCostGbp == h.totalAllowableCostGbp - AllowableCost(h, -t.UnmatchedUnits()) &&
            (hs2[KeyOf(t)].units > 0.0 ==>
               hs2[KeyOf(t)].totalAllowableCostGbp / hs2[KeyOf(t)].units == h.totalAllowableCostGbp / h.units)
  {
  }

  /** A buy's residue joins its pool: an empty pool takes on the buy's date and
      price; otherwise the average is re-weighted by units, the GBP cost grows by
      the converted price, and a compensating pair appears iff the average moved. */
  lemma PoolBuy(t: MatchedTransaction, hs: Holdings, fx: Fx)
    requires NonZeroRates(fx) && RecordOk(t) && HoldingsOk(hs)
    requires t.IsBuy() && t.UnmatchedUnits() != 0.0 && PoolStep(t, hs, fx).Ok?
    ensures var (t2, hs2) := PoolStep(t, hs, fx).value;
            var h := PoolFor(t, hs, t.posting.price.value);
            var u := t.UnmatchedUnits();
            var p := t.posting.price.value.number;
            var h2 := hs2[KeyOf(t)];
            h2.units == h.units + u &&
            h2.averageCost * h2.units == h.averageCost * h.units + p * u &&
            (h.units == 0.0 ==> h2.averageCost == p && h2.date == t.txn.date) &&
            h2.totalAllowableCostGbp == h.totalAllowableCostGbp + ConvertToGbp(fx, t.txn.date, u, t.posting.price.value) &&
            |t2.matches| == |t.matches| + 1 &&
            t2.matches[|t.matches|] == Match(-u, PoolCost(h2, h2.averageCost, t.account.section104Suffix),
                                             ConvertToGbp(fx, t.txn.date, u, t.posting.price.value)) &&
            t2.txn.postings[..|t.txn.postings|] == t.txn.postings &&
            (|t2.txn.postings| == |t.txn.postings| + 2 <==> h.units != 0.0 && h.averageCost != h2.averageCost) &&
            (|t2.txn.postings| == |t.txn.postings| || |t2.txn.postings| == |t.txn.postings| + 2)
  {
    var u := t.UnmatchedUnits();
    var price := t.posting.price.value;
    var h0 := PoolFor(t, hs, price);
    var h := Reset(h0, t.txn.date);
    assert BuyOk(t) && u > 0.0;
    var b := BuyResidue(t, h, fx);
    assert PoolStep(t, hs, fx) == Ok((b.0, hs[KeyOf(t) := b.1]));
    BuyResidueSpec(t, h, fx);
    var adj := Adjustment(t, h, b.1.averageCost);
    assert (t.txn.postings + adj)[..|t.txn.postings|] == t.txn.postings;
    assert h0.units == 0.0 ==> h0.averageCost * h0.units == h.averageCost * h.units;
  }

  /** The record and pool after a buy's residue joins the pool, spelled out. */
  lemma BuyResidueSpec(t: MatchedTransaction, h: Holding, fx: Fx)
    requires NonZeroRates(fx) && BuyOk(t) && t.UnmatchedUnits() > 0.0 && HasPrice(t.posting) && HoldingOk(h)
    ensures var (t2, h2) := BuyResidue(t, h, fx);
            var u := t.UnmatchedUnits();
            var gbp := ConvertToGbp(fx, t.txn.date, u, t.posting.price.value);
            h2 == BuyIntoPool(h, u, t.posting.price.value.number, gbp) &&
            t2.matches == t.matches + [Match(-u, PoolCost(h2, h2.averageCost, t.account.section104Suffix), gbp)] &&
            t2.txn.postings == t.txn.postings + Adjustment(t, h, h2.averageCost)
  {
    Convertible(fx, t.txn.date, t.UnmatchedUnits(), t.posting.price.value);
  }

  /** Buying units into an empty pool and selling all of them again at the
      same price, against the same pool, realises no gain: the sell is matched
      at the pool's average, which is the buy price. */
  lemma {:induction false} BuyThenSellNoGain(b: MatchedTransaction, s: MatchedTransaction, fx: Fx)
    requires NonZeroRates(fx)
    requires BuyOk(b) && b.matches == [] && b.posting.units.number > 0.0 && HasPrice(b.posting)
    requires SellOk(s) && s.matches == [] && s.posting.units.number == -b.posting.units.number
    requires s.posting.price == b.posting.price && KeyOf(s) == KeyOf(b)
    ensures PoolStep(b, map[], fx).Ok?
    ensures var hs1 := PoolStep(b, map[], fx).value.1;
            HoldingsOk(hs1) && PoolStep(s, hs1, fx).Ok? &&
            SamePosting(s, PoolStep(s, hs1, fx).value.0) &&
            PoolStep(s, hs1, fx).value.0.CapitalGains() == 0.0
  {
    var price := b.posting.price.value;
    PoolStepKeeps(b, map[], fx);
    assert PoolStep(b, map[], fx).Ok?;
    PoolBuy(b, map[], fx);
    var hs1 := PoolStep(b, map[], fx).value.1;
    var h := hs1[KeyOf(b)];
    assert h.units == b.posting.units.number && h.averageCost == price.number;
    assert h.averageCostCurrency == price.currency;
    PoolStepKeeps(s, hs1, fx);
    assert !PoolRejects(s, hs1);
    PoolSell(s, hs1, fx);
    var t2 := PoolStep(s, hs1, fx).value.0;
    assert t2.matches == [Match(b.posting.units.number, PoolCost(h, h.averageCost, s.account.section104Suffix),
                                Quantize(AllowableCost(h, b.posting.units.number)))];
    assert SumUnits(t2.matches) == b.posting.units.number;
    NoGainAtSalePrice(price.number, s.posting.units.number, t2.matches);
  }

  /** The method form of `match_to_section`, updating the record and the pools. */
  method MatchToSection(t: MatchedTransaction, hs: Holdings, fx: Fx) returns (r: Result<(MatchedTransaction, Holdings)>)
    requires NonZeroRates(fx) && RecordOk(t) && HoldingsOk(hs)
    ensures r == PoolStep(t, hs, fx)
  {
    var unmatched := t.UnmatchedUnits();
    if unmatched == 0.0 {
      return Ok((t, hs));
    }
    if !HasPrice(t.posting) {
      return Fail(AssertionFailed);
    }
    var price := t.posting.price.value;
    var key := KeyOf(t);
    var holding := if key in hs then hs[key] else Holding(t.txn.date, 0.0, 0.0, price.currency, 0.0);
    assert holding.units >= 0.0;
    if holding.averageCostCurrency != price.currency {
      return Fail(AssertionFailed);
    }
    if holding.units == 0.0 {
      assert holding.totalAllowableCostGbp == 0.0;
      holding := holding.(date := t.txn.date, averageCost := 0.0);
    }
    if t.IsSell() {
      if holding.units < -unmatched {
        return Fail(AssertionFailed);
      }
      var t2, h2 := SellToPool(t, holding);
      return Ok((t2, hs[key := h2]));
    }
    assert t.IsBuy();
    var t2, h2 := BuyToPool(t, holding, fx);
    return Ok((t2, hs[key := h2]));
  }

  /** The sell half of `match_to_section`: the residue leaves the pool at
      the pool's cost per unit. */
  method SellToPool(t: MatchedTransaction, h: Holding) returns (t2: MatchedTransaction, h2: Holding)
    requires SellOk(t) && t.UnmatchedUnits() < 0.0 && HasPrice(t.posting)
    requires HoldingOk(h) && h.units >= -t.UnmatchedUnits()
    ensures t2 == SellResidue(t, h) && h2 == SellFromPool(h, -t.UnmatchedUnits())
  {
    var unmatched := t.UnmatchedUnits();
    var holding := h;
    var allowable := holding.totalAllowableCostGbp / holding.units * -unmatched;
    holding := holding.(totalAllowableCostGbp := holding.totalAllowableCostGbp - allowable);
    var cost := Cost(holding.averageCost, holding.averageCostCurrency, holding.date,
                     Some(PoolLabel(t.account.section104Suffix)));
    QuantizeEq(allowable, AllowableCost(h, -unmatched));
    var m := Match(-unmatched, cost, Quantize(allowable));
    t2 := t.(matches := t.matches + [m]);
    holding := holding.(units := holding.units + unmatched);
    assert holding.units >= 0.0;
    h2 := holding;
  }

  /** The buy half of `match_to_section`: the residue joins the pool, and a
      compensating pair is added when the pool's average moves. */
  method BuyToPool(t: MatchedTransaction, h: Holding, fx: Fx) returns (t2: MatchedTransaction, h2: Holding)
    requires NonZeroRates(fx) && BuyOk(t) && t.UnmatchedUnits() > 0.0 && HasPrice(t.posting) && HoldingOk(h)
    ensures (t2, h2) == BuyResidue(t, h, fx)
  {
    var unmatched := t.UnmatchedUnits();
    var price := t.posting.price.value;
    var holding := h;
    var unitsBefore := holding.units;
    var averageBefore := holding.averageCost;
    var totalCostAfter := averageBefore * unitsBefore + price.number * unmatched;
    Convertible(fx, t.txn.date, unmatched, price);
    var allowable := ConvertToGbp(fx, t.txn.date, unmatched, price);
    AverageIs(h, unmatched, price.number, totalCostAfter);
    holding := holding.(units := holding.units + unmatched);
    holding := holding.(averageCost := totalCostAfter / holding.units,
                        totalAllowableCostGbp := holding.totalAllowableCostGbp + allowable);
    assert holding.units >= 0.0;
    h2 := holding;
    var poolLabel := PoolLabel(t.account.section104Suffix);
    var cost := Cost(holding.averageCost, holding.averageCostCurrency, holding.date, Some(poolLabel));
    var txn := t.txn;
    if unitsBefore != 0.0 && averageBefore != holding.averageCost {
      txn := txn.(postings := txn.postings + [
        Posting(t.posting.account, Amount(-unitsBefore, t.posting.units.currency),
                Some(Cost(averageBefore, holding.averageCostCurrency, holding.date, Some(poolLabel))), None, None, AdjustmentMeta),
        Posting(t.posting.account, Amount(unitsBefore, t.posting.units.currency),
                Some(Cost(holding.averageCost, holding.averageCostCurrency, holding.date, Some(poolLabel))), None, None, AdjustmentMeta)]);
    }
    assert txn.postings == t.txn.postings + Adjustment(t, h, holding.averageCost);
    t2 := t.(matches := t.matches + [Match(-unmatched, cost, allowable)], txn := txn);
  }
}
