/** Share identification ahead of the Section 104 pool: each sell is matched
    against buys of the same day, then against buys of the thirty days after
    it (sections 105 and 106A of the Taxation of Chargeable Gains Act 1992). */
module CgtMatching {
  import opened Results
  import opened Ledger
  import opened CgtRecords

  /** A matching rule on (sell date, buy date). */
  type Rule = (int, int) -> bool

  predicate SameDayRule(s: int, b: int) {
    s == b
  }

  /** The buy falls in the thirty days after the sell: day 30 counts, the sell's own day does not. */
  predicate ThirtyDayRule(s: int, b: int) {
    s < b && b <= s + 30
  }

  /** The window of the thirty-day rule: the thirtieth day after the sale is
      the last that qualifies; the sale's own day and the thirty-first do not. */
  lemma ThirtyDayBoundary(s: int)
    ensures ThirtyDayRule(s, s + 30) && !ThirtyDayRule(s, s + 31) && !ThirtyDayRule(s, s)
    ensures forall b :: ThirtyDayRule(s, b) ==> !SameDayRule(s, b)
  {
  }

  function Min(a: real, b: real): real {
    if a <= b then a else b
  }

  /** Same symbol and same pool scope. */
  predicate SameScope(s: MatchedTransaction, b: MatchedTransaction) {
    s.posting.units.currency == b.posting.units.currency &&
    s.account.section104Suffix == b.account.section104Suffix
  }

  /** The checks a buy passes before units are taken from it. */
  predicate Eligible(s: MatchedTransaction, b: MatchedTransaction, rule: Rule) {
    SameScope(s, b) && b.UnmatchedUnits() != 0.0 && rule(s.txn.date, b.txn.date)
  }

  predicate AllSellsOk(sells: seq<MatchedTransaction>) {
    forall j :: 0 <= j < |sells| ==> SellOk(sells[j])
  }

  predicate AllBuysOk(buys: seq<MatchedTransaction>) {
    forall j :: 0 <= j < |buys| ==> BuyOk(buys[j])
  }

  /** b is a with matches appended and nothing else changed. */
  predicate Appended(a: MatchedTransaction, b: MatchedTransaction) {
    b == a.(matches := b.matches) && a.matches <= b.matches
  }

  /** From one list of records to another, every record only gains matches. */
  predicate AllAppended(before: seq<MatchedTransaction>, after: seq<MatchedTransaction>) {
    |before| == |after| && forall j :: 0 <= j < |before| ==> Appended(before[j], after[j])
  }

  /** The units one pairing takes: all the sell still needs, or all the buy still has. */
  function Take(s: MatchedTransaction, b: MatchedTransaction): (t: real)
    requires s.UnmatchedUnits() < 0.0 && b.UnmatchedUnits() > 0.0
    ensures 0.0 < t && t <= -s.UnmatchedUnits() && t <= b.UnmatchedUnits()
    ensures t == -s.UnmatchedUnits() || t == b.UnmatchedUnits()
  {
    Min(-s.UnmatchedUnits(), b.UnmatchedUnits())
  }

  /** The lot cost both matches of a pairing carry: the buy's price, on the buy's date. */
  function BuyCost(b: MatchedTransaction): Cost
    requires HasPrice(b.posting)
  {
    Cost(b.posting.price.value.number, b.posting.price.value.currency, b.txn.date, None)
  }

  /** The sell after a pairing: the taken units at the buy's cost, with the
      buy's GBP value on the buy's date as allowable cost. */
  function SellAfter(s: MatchedTransaction, b: MatchedTransaction, fx: Fx): (r: MatchedTransaction)
    requires NonZeroRates(fx) && SellOk(s) && BuyOk(b)
    requires s.UnmatchedUnits() < 0.0 && b.UnmatchedUnits() > 0.0
    requires HasPrice(s.posting) && HasPrice(b.posting)
    ensures SellOk(r) && Appended(s, r)
    ensures r.UnmatchedUnits() == s.UnmatchedUnits() + Take(s, b)
    ensures |r.matches| == |s.matches| + 1
    ensures r.matches[|s.matches|].cost == BuyCost(b) && r.matches[|s.matches|].units == Take(s, b)
  {
    var t := Take(s, b);
    Convertible(fx, b.txn.date, t, b.posting.price.value);
    var m := Match(t, BuyCost(b), ConvertToGbp(fx, b.txn.date, t, b.posting.price.value));
    SumUnitsAppend(s.matches, m);
    s.(matches := s.matches + [m])
  }

  /** The buy after a pairing: the taken units negated at the same cost, with
      the sell's GBP value on the sell's date. */
  function BuyAfter(s: MatchedTransaction, b: MatchedTransaction, fx: Fx): (r: MatchedTransaction)
    requires NonZeroRates(fx) && BuyOk(b)
    requires s.UnmatchedUnits() < 0.0 && b.UnmatchedUnits() > 0.0
    requires HasPrice(s.posting) && HasPrice(b.posting)
    ensures BuyOk(r) && Appended(b, r)
    ensures r.UnmatchedUnits() == b.UnmatchedUnits() - Take(s, b)
    ensures |r.matches| == |b.matches| + 1
    ensures r.matches[|b.matches|].cost == BuyCost(b) && r.matches[|b.matches|].units == -Take(s, b)
  {
    var t := Take(s, b);
    Convertible(fx, s.txn.date, t, s.posting.price.value);
    var m := Match(-t, BuyCost(b), ConvertToGbp(fx, s.txn.date, t, s.posting.price.value));
    SumUnitsAppend(b.matches, m);
    b.(matches := b.matches + [m])
  }

  /** `find_non_section_buys_for_sell` from buy i on: the sell and the buys
      after it, or the failure of a pairing whose buy or sell has no price. */
  function Scan(s: MatchedTransaction, buys: seq<MatchedTransaction>, rule: Rule, fx: Fx, i: nat)
    : (r: Result<(MatchedTransaction, seq<MatchedTransaction>)>)
    requires i <= |buys| && NonZeroRates(fx)
    requires SellOk(s) && s.UnmatchedUnits() < 0.0 && AllBuysOk(buys)
    ensures r.Ok? ==> SellOk(r.value.0) && Appended(s, r.value.0)
    ensures r.Ok? ==> AllBuysOk(r.value.1) && AllAppended(buys, r.value.1)
    ensures r.Fail? ==> r.reason == AssertionFailed
    decreases |buys| - i, 1
  {
    if i == |buys| then Ok((s, buys))
    else if !Eligible(s, buys[i], rule) then Scan(s, buys, rule, fx, i + 1)
    else ScanPaired(s, buys, rule, fx, i)
  }

  /** Scan at an eligible buy i: pair the sell with it, then stop if the sell
      is fully matched or go on with the next buy. */
  function ScanPaired(s: MatchedTransaction, buys: seq<MatchedTransaction>, rule: Rule, fx: Fx, i: nat)
    : (r: Result<(MatchedTransaction, seq<MatchedTransaction>)>)
    requires i < |buys| && NonZeroRates(fx)
    requires SellOk(s) && s.UnmatchedUnits() < 0.0 && AllBuysOk(buys) && Eligible(s, buys[i], rule)
    ensures r.Ok? ==> SellOk(r.value.0) && Appended(s, r.value.0)
    ensures r.Ok? ==> AllBuysOk(r.value.1) && AllAppended(buys, r.value.1)
    ensures r.Fail? ==> r.reason == AssertionFailed
    decreases |buys| - i, 0
  {
    if !HasPrice(buys[i].posting) || !HasPrice(s.posting) then Fail(AssertionFailed)
    else
      var s2 := SellAfter(s, buys[i], fx);
      var buys2 := buys[i := BuyAfter(s, buys[i], fx)];
      if s.UnmatchedUnits() + Take(s, buys[i]) == 0.0 then Ok((s2, buys2))
      else Scan(s2, buys2, rule, fx, i + 1)
  }

  /** The unmatched units of all the buys together. */
  function TotalUnmatched(buys: seq<MatchedTransaction>): real
    decreases |buys|
  {
    if buys == [] then 0.0 else TotalUnmatched(buys[..|buys| - 1]) + buys[|buys| - 1].UnmatchedUnits()
  }

  lemma {:induction false} TotalUnmatchedUpdate(buys: seq<MatchedTransaction>, i: nat, b: MatchedTransaction)
    requires i < |buys|
    ensures TotalUnmatched(buys[i := b]) == TotalUnmatched(buys) - buys[i].UnmatchedUnits() + b.UnmatchedUnits()
    decreases |buys|
  {
    var n := |buys| - 1;
    assert buys[i := b][..n] == if i == n then buys[..n] else buys[..n][i := b];
    if i < n {
      TotalUnmatchedUpdate(buys[..n], i, b);
    }
  }

  /** Every unit the sell gains is a unit the buys lose. */
  lemma {:induction false} ScanConserves(s: MatchedTransaction, buys: seq<MatchedTransaction>, rule: Rule, fx: Fx, i: nat)
    requires i <= |buys| && NonZeroRates(fx)
    requires SellOk(s) && s.UnmatchedUnits() < 0.0 && AllBuysOk(buys)
    requires Scan(s, buys, rule, fx, i).Ok?
    ensures var (s2, buys2) := Scan(s, buys, rule, fx, i).value;
            s2.UnmatchedUnits() + TotalUnmatched(buys2) == s.UnmatchedUnits() + TotalUnmatched(buys)
    decreases |buys| - i
  {
    if i < |buys| {
      if !Eligible(s, buys[i], rule) {
        ScanConserves(s, buys, rule, fx, i + 1);
      } else {
        var s2 := SellAfter(s, buys[i], fx);
        var b2 := BuyAfter(s, buys[i], fx);
        TotalUnmatchedUpdate(buys, i, b2);
        if s.UnmatchedUnits() + Take(s, buys[i]) != 0.0 {
          ScanConserves(s2, buys[i := b2], rule, fx, i + 1);
        }
      }
    }
  }

  /** The buys before position i are left alone. */
  lemma {:induction false} ScanFrame(s: MatchedTransaction, buys: seq<MatchedTransaction>, rule: Rule, fx: Fx, i: nat)
    requires i <= |buys| && NonZeroRates(fx)
    requires SellOk(s) && s.UnmatchedUnits() < 0.0 && AllBuysOk(buys)
    requires Scan(s, buys, rule, fx, i).Ok?
    ensures forall j :: 0 <= j < i ==> Scan(s, buys, rule, fx, i).value.1[j] == buys[j]
    decreases |buys| - i, 1
  {
    if i < |buys| {
      if !Eligible(s, buys[i], rule) {
        ScanFrame(s, buys, rule, fx, i + 1);
      } else {
        ScanFramePaired(s, buys, rule, fx, i);
      }
    }
  }

  /** ScanFrame when buy i is drawn on. */
  lemma {:induction false} ScanFramePaired(s: MatchedTransaction, buys: seq<MatchedTransaction>, rule: Rule, fx: Fx,
                                           i: nat)
    requires i < |buys| && NonZeroRates(fx)
    requires SellOk(s) && s.UnmatchedUnits() < 0.0 && AllBuysOk(buys)
    requires Eligible(s, buys[i], rule) && Scan(s, buys, rule, fx, i).Ok?
    ensures forall j :: 0 <= j < i ==> Scan(s, buys, rule, fx, i).value.1[j] == buys[j]
    decreases |buys| - i, 0
  {
    if s.UnmatchedUnits() + Take(s, buys[i]) != 0.0 {
      ScanFrame(SellAfter(s, buys[i], fx), buys[i := BuyAfter(s, buys[i], fx)], rule, fx, i + 1);
    }
  }

  /** The scan stops at the first pairing that matches the sell fully: the
      buys after it are left as they were. */
  lemma ScanStops(s: MatchedTransaction, buys: seq<MatchedTransaction>, rule: Rule, fx: Fx, i: nat)
    requires i < |buys| && NonZeroRates(fx)
    requires SellOk(s) && s.UnmatchedUnits() < 0.0 && AllBuysOk(buys)
    requires Eligible(s, buys[i], rule) && HasPrice(buys[i].posting) && HasPrice(s.posting)
    requires -s.UnmatchedUnits() <= buys[i].UnmatchedUnits()
    ensures var r := Scan(s, buys, rule, fx, i);
            r.Ok? && r.value.0.UnmatchedUnits() == 0.0 &&
            r.value.1[i].UnmatchedUnits() == buys[i].UnmatchedUnits() + s.UnmatchedUnits() &&
            forall j :: 0 <= j < |buys| && j != i ==> r.value.1[j] == buys[j]
  {
    assert Take(s, buys[i]) == -s.UnmatchedUnits();
  }

  /** Only buys of the same symbol and scope, with units left and a date the
      rule accepts, are drawn on. */
  lemma {:induction false} ScanOnlyEligible(s: MatchedTransaction, buys: seq<MatchedTransaction>, rule: Rule, fx: Fx, i: nat,
                                            r: (MatchedTransaction, seq<MatchedTransaction>))
    requires i <= |buys| && NonZeroRates(fx)
    requires SellOk(s) && s.UnmatchedUnits() < 0.0 && AllBuysOk(buys)
    requires Scan(s, buys, rule, fx, i) == Ok(r)
    ensures forall j :: 0 <= j < |buys| && r.1[j] != buys[j] ==>
              i <= j && SameScope(s, buys[j]) && buys[j].UnmatchedUnits() > 0.0 &&
              rule(s.txn.date, buys[j].txn.date)
    decreases |buys| - i, 1
  {
    if i < |buys| {
      if Eligible(s, buys[i], rule) {
        ScanOnlyEligiblePaired(s, buys, rule, fx, i, r);
      } else {
        ScanOnlyEligible(s, buys, rule, fx, i + 1, r);
      }
    }
  }

  /** ScanOnlyEligible when buy i is drawn on. */
  lemma {:induction false} ScanOnlyEligiblePaired(s: MatchedTransaction, buys: seq<MatchedTransaction>, rule: Rule,
                                                  fx: Fx, i: nat, r: (MatchedTransaction, seq<MatchedTransaction>))
    requires i < |buys| && NonZeroRates(fx)
    requires SellOk(s) && s.UnmatchedUnits() < 0.0 && AllBuysOk(buys)
    requires Eligible(s, buys[i], rule) && Scan(s, buys, rule, fx, i) == Ok(r)
    ensures forall j :: 0 <= j < |buys| && r.1[j] != buys[j] ==>
              i <= j && SameScope(s, buys[j]) && buys[j].UnmatchedUnits() > 0.0 &&
              rule(s.txn.date, buys[j].txn.date)
    decreases |buys| - i, 0
  {
    var s2 := SellAfter(s, buys[i], fx);
    var buys2 := buys[i := BuyAfter(s, buys[i], fx)];
    if s.UnmatchedUnits() + Take(s, buys[i]) != 0.0 {
      ScanOnlyEligible(s2, buys2, rule, fx, i + 1, r);
      assert s2.txn == s.txn && s2.posting == s.posting && s2.account == s.account;
    }
  }

  /** A sell is left partly unmatched only when every buy it could draw on is used up. */
  lemma {:induction false} ScanExhausts(s: MatchedTransaction, buys: seq<MatchedTransaction>, rule: Rule, fx: Fx, i: nat,
                                        r: (MatchedTransaction, seq<MatchedTransaction>))
    requires i <= |buys| && NonZeroRates(fx)
    requires SellOk(s) && s.UnmatchedUnits() < 0.0 && AllBuysOk(buys)
    requires Scan(s, buys, rule, fx, i) == Ok(r) && r.0.UnmatchedUnits() < 0.0
    ensures forall j :: i <= j < |buys| && SameScope(s, buys[j]) && rule(s.txn.date, buys[j].txn.date) ==>
              r.1[j].UnmatchedUnits() == 0.0
    decreases |buys| - i, 1
  {
    if i < |buys| {
      if !Eligible(s, buys[i], rule) {
        ScanExhausts(s, buys, rule, fx, i + 1, r);
        ScanFrame(s, buys, rule, fx, i + 1);
      } else {
        ScanExhaustsPaired(s, buys, rule, fx, i, r);
      }
    }
  }

  /** ScanExhausts when buy i is drawn on: the sell is still short, so buy i is used up. */
  lemma {:induction false} ScanExhaustsPaired(s: MatchedTransaction, buys: seq<MatchedTransaction>, rule: Rule, fx: Fx,
                                              i: nat, r: (MatchedTransaction, seq<MatchedTransaction>))
    requires i < |buys| && NonZeroRates(fx)
    requires SellOk(s) && s.UnmatchedUnits() < 0.0 && AllBuysOk(buys) && Eligible(s, buys[i], rule)
    requires Scan(s, buys, rule, fx, i) == Ok(r) && r.0.UnmatchedUnits() < 0.0
    ensures forall j :: i <= j < |buys| && SameScope(s, buys[j]) && rule(s.txn.date, buys[j].txn.date) ==>
              r.1[j].UnmatchedUnits() == 0.0
    decreases |buys| - i, 0
  {
    var s2 := SellAfter(s, buys[i], fx);
    var b2 := BuyAfter(s, buys[i], fx);
    var buys2 := buys[i := b2];
    assert s.UnmatchedUnits() + Take(s, buys[i]) != 0.0;
    assert b2.UnmatchedUnits() == 0.0;
    assert Scan(s2, buys2, rule, fx, i + 1) == Ok(r);
    ScanExhausts(s2, buys2, rule, fx, i + 1, r);
    ScanFrame(s2, buys2, rule, fx, i + 1);
    assert r.1[i] == b2;
    assert s2.txn == s.txn && s2.posting == s.posting && s2.account == s.account;
  }

  /** The buys are drawn on in list order: once a later buy j has been drawn
      on, every earlier buy from i on that has the sell's symbol and scope and
      that the rule admits is used up. */
  lemma {:induction false} ScanGreedy(s: MatchedTransaction, buys: seq<MatchedTransaction>, rule: Rule, fx: Fx, i: nat,
                                      r: (MatchedTransaction, seq<MatchedTransaction>))
    requires i <= |buys| && NonZeroRates(fx)
    requires SellOk(s) && s.UnmatchedUnits() < 0.0 && AllBuysOk(buys)
    requires Scan(s, buys, rule, fx, i) == Ok(r)
    ensures forall k, j :: i <= k < j < |buys| && r.1[j] != buys[j] &&
                           SameScope(s, buys[k]) && rule(s.txn.date, buys[k].txn.date) ==>
              r.1[k].UnmatchedUnits() == 0.0
    decreases |buys| - i, 1
  {
    if i < |buys| {
      if !Eligible(s, buys[i], rule) {
        ScanGreedy(s, buys, rule, fx, i + 1, r);
        ScanFrame(s, buys, rule, fx, i + 1);
      } else {
        ScanGreedyPaired(s, buys, rule, fx, i, r);
      }
    }
  }

  /** ScanGreedy when buy i is drawn on. */
  lemma {:induction false} ScanGreedyPaired(s: MatchedTransaction, buys: seq<MatchedTransaction>, rule: Rule, fx: Fx,
                                            i: nat, r: (MatchedTransaction, seq<MatchedTransaction>))
    requires i < |buys| && NonZeroRates(fx)
    requires SellOk(s) && s.UnmatchedUnits() < 0.0 && AllBuysOk(buys) && Eligible(s, buys[i], rule)
    requires Scan(s, buys, rule, fx, i) == Ok(r)
    ensures forall k, j :: i <= k < j < |buys| && r.1[j] != buys[j] &&
                           SameScope(s, buys[k]) && rule(s.txn.date, buys[k].txn.date) ==>
              r.1[k].UnmatchedUnits() == 0.0
    decreases |buys| - i, 0
  {
    var s2 := SellAfter(s, buys[i], fx);
    var b2 := BuyAfter(s, buys[i], fx);
    var buys2 := buys[i := b2];
    ScanAt(s, buys, rule, fx, i);
    if s.UnmatchedUnits() + Take(s, buys[i]) != 0.0 {
      assert b2.UnmatchedUnits() == 0.0;
      assert Scan(s2, buys2, rule, fx, i + 1) == Ok(r);
      ScanGreedy(s2, buys2, rule, fx, i + 1, r);
      ScanFrame(s2, buys2, rule, fx, i + 1);
      assert r.1[i] == b2;
      assert s2.txn == s.txn && s2.posting == s.posting && s2.account == s.account;
      assert forall j :: i < j < |buys| ==> buys2[j] == buys[j];
    } else {
      assert r.1 == buys2;
    }
  }

  /** One step of Scan at buy i, case by case. */
  lemma ScanAt(s: MatchedTransaction, buys: seq<MatchedTransaction>, rule: Rule, fx: Fx, i: nat)
    requires i < |buys| && NonZeroRates(fx)
    requires SellOk(s) && s.UnmatchedUnits() < 0.0 && AllBuysOk(buys)
    ensures !Eligible(s, buys[i], rule) ==> Scan(s, buys, rule, fx, i) == Scan(s, buys, rule, fx, i + 1)
    ensures Eligible(s, buys[i], rule) && !(HasPrice(buys[i].posting) && HasPrice(s.posting)) ==>
              Scan(s, buys, rule, fx, i) == Fail(AssertionFailed)
    ensures Eligible(s, buys[i], rule) && HasPrice(buys[i].posting) && HasPrice(s.posting) ==>
              var s2 := SellAfter(s, buys[i], fx);
              var buys2 := buys[i := BuyAfter(s, buys[i], fx)];
              Scan(s, buys, rule, fx, i) ==
                if s.UnmatchedUnits() + Take(s, buys[i]) == 0.0 then Ok((s2, buys2))
                else Scan(s2, buys2, rule, fx, i + 1)
  {
  }

  /** The method form of `find_non_section_buys_for_sell`: one pass over the buys,
      returning early once the sell is fully matched. */
  method FindNonSectionBuysForSell(s: MatchedTransaction, buys: seq<MatchedTransaction>, rule: Rule, fx: Fx)
    returns (r: Result<(MatchedTransaction, seq<MatchedTransaction>)>)
    requires NonZeroRates(fx)
    requires SellOk(s) && s.UnmatchedUnits() < 0.0 && AllBuysOk(buys)
    ensures r == Scan(s, buys, rule, fx, 0)
  {
    var sell, bs := s, buys;
    for i := 0 to |buys|
      invariant |bs| == |buys| && SellOk(sell) && sell.UnmatchedUnits() < 0.0 && AllBuysOk(bs)
      invariant Scan(s, buys, rule, fx, 0) == Scan(sell, bs, rule, fx, i)
    {
      ScanAt(sell, bs, rule, fx, i);
      var b := bs[i];
      if sell.posting.units.currency != b.posting.units.currency {
        continue;
      }
      if sell.account.section104Suffix != b.account.section104Suffix {
        continue;
      }
      var bUnits := b.UnmatchedUnits();
      assert bUnits >= 0.0;
      if bUnits == 0.0 {
        continue;
      }
      if !rule(sell.txn.date, b.txn.date) {
        continue;
      }
      var sUnits := sell.UnmatchedUnits();
      assert sUnits < 0.0;
      var taken := Min(-sUnits, bUnits);
      if !HasPrice(b.posting) || !HasPrice(sell.posting) {
        return Fail(AssertionFailed);
      }
      var sell2 := SellAfter(sell, b, fx);
      bs := bs[i := BuyAfter(sell, b, fx)];
      sell := sell2;
      assert sell.UnmatchedUnits() == sUnits + taken;
      if sUnits + taken == 0.0 {
        return Ok((sell, bs));
      }
    }
    return Ok((sell, bs));
  }

  /** One matching pass from sell i on: each sell that still has unmatched
      units is scanned against the buys as they stand. */
  function Pass(sells: seq<MatchedTransaction>, buys: seq<MatchedTransaction>, rule: Rule, fx: Fx, i: nat)
    : (r: Result<(seq<MatchedTransaction>, seq<MatchedTransaction>)>)
    requires i <= |sells| && NonZeroRates(fx) && AllSellsOk(sells) && AllBuysOk(buys)
    decreases |sells| - i
  {
    if i == |sells| then Ok((sells, buys))
    else if sells[i].UnmatchedUnits() == 0.0 then Pass(sells, buys, rule, fx, i + 1)
    else
      var next :- Scan(sells[i], buys, rule, fx, 0);
      Pass(sells[i := next.0], next.1, rule, fx, i + 1)
  }

  /** A pass keeps every record consistent and only appends matches; the
      sells before i are not revisited. */
  lemma {:induction false} PassKeeps(sells: seq<MatchedTransaction>, buys: seq<MatchedTransaction>, rule: Rule, fx: Fx,
                                     i: nat)
    requires i <= |sells| && NonZeroRates(fx) && AllSellsOk(sells) && AllBuysOk(buys)
    ensures var r := Pass(sells, buys, rule, fx, i);
            r.Ok? ==> AllSellsOk(r.value.0) && AllAppended(sells, r.value.0) &&
                      AllBuysOk(r.value.1) && AllAppended(buys, r.value.1) &&
                      forall j :: 0 <= j < i ==> r.value.0[j] == sells[j]
    ensures Pass(sells, buys, rule, fx, i).Fail? ==> Pass(sells, buys, rule, fx, i).reason == AssertionFailed
    decreases |sells| - i, 1
  {
    if i < |sells| {
      if sells[i].UnmatchedUnits() == 0.0 {
        PassKeeps(sells, buys, rule, fx, i + 1);
      } else if Scan(sells[i], buys, rule, fx, 0).Ok? {
        PassKeepsScanned(sells, buys, rule, fx, i);
      }
    }
  }

  /** PassKeeps when sell i is scanned successfully. */
  lemma {:induction false} PassKeepsScanned(sells: seq<MatchedTransaction>, buys: seq<MatchedTransaction>, rule: Rule,
                                            fx: Fx, i: nat)
    requires i < |sells| && NonZeroRates(fx) && AllSellsOk(sells) && AllBuysOk(buys)
    requires sells[i].UnmatchedUnits() != 0.0 && Scan(sells[i], buys, rule, fx, 0).Ok?
    ensures var r := Pass(sells, buys, rule, fx, i);
            r.Ok? ==> AllSellsOk(r.value.0) && AllAppended(sells, r.value.0) &&
                      AllBuysOk(r.value.1) && AllAppended(buys, r.value.1) &&
                      forall j :: 0 <= j < i ==> r.value.0[j] == sells[j]
    ensures Pass(sells, buys, rule, fx, i).Fail? ==> Pass(sells, buys, rule, fx, i).reason == AssertionFailed
    decreases |sells| - i, 0
  {
    var next := Scan(sells[i], buys, rule, fx, 0);
    var sells2 := sells[i := next.value.0];
    PassKeeps(sells2, next.value.1, rule, fx, i + 1);
    var r := Pass(sells2, next.value.1, rule, fx, i + 1);
    if r.Ok? {
      assert forall j :: 0 <= j < |sells| ==> Appended(sells[j], sells2[j]);
      forall j | 0 <= j < |sells| ensures Appended(sells[j], r.value.0[j]) {
        assert Appended(sells2[j], r.value.0[j]);
      }
      forall j | 0 <= j < |buys| ensures Appended(buys[j], r.value.1[j]) {
        assert Appended(next.value.1[j], r.value.1[j]);
      }
    }
  }

  /** No sell has been matched yet. */
  predicate Fresh(sells: seq<MatchedTransaction>) {
    forall j :: 0 <= j < |sells| ==> sells[j].matches == []
  }

  /** The same-day pass: every sell still has all its units unmatched when its
      turn comes, since no scan changes a later sell. */
  method SameDaySales(sells: seq<MatchedTransaction>, buys: seq<MatchedTransaction>, fx: Fx)
    returns (r: Result<(seq<MatchedTransaction>, seq<MatchedTransaction>)>)
    requires NonZeroRates(fx) && AllSellsOk(sells) && Fresh(sells) && AllBuysOk(buys)
    ensures r == Pass(sells, buys, SameDayRule, fx, 0)
  {
    var ss, bs := sells, buys;
    for i := 0 to |sells|
      invariant |ss| == |sells| && AllSellsOk(ss) && AllBuysOk(bs)
      invariant forall j :: i <= j < |sells| ==> ss[j] == sells[j]
      invariant Pass(sells, buys, SameDayRule, fx, 0) == Pass(ss, bs, SameDayRule, fx, i)
    {
      var s := ss[i];
      assert s.UnmatchedUnits() < 0.0;
      var next := FindNonSectionBuysForSell(s, bs, SameDayRule, fx);
      if next.Fail? {
        return Fail(next.reason);
      }
      ss, bs := ss[i := next.value.0], next.value.1;
    }
    return Ok((ss, bs));
  }

  /** The thirty-day pass: sells already fully matched are skipped. */
  method ThirtyDaySales(sells: seq<MatchedTransaction>, buys: seq<MatchedTransaction>, fx: Fx)
    returns (r: Result<(seq<MatchedTransaction>, seq<MatchedTransaction>)>)
    requires NonZeroRates(fx) && AllSellsOk(sells) && AllBuysOk(buys)
    ensures r == Pass(sells, buys, ThirtyDayRule, fx, 0)
  {
    var ss, bs := sells, buys;
    for i := 0 to |sells|
      invariant |ss| == |sells| && AllSellsOk(ss) && AllBuysOk(bs)
      invariant Pass(sells, buys, ThirtyDayRule, fx, 0) == Pass(ss, bs, ThirtyDayRule, fx, i)
    {
      var s := ss[i];
      assert s.UnmatchedUnits() <= 0.0;
      if s.UnmatchedUnits() == 0.0 {
        continue;
      }
      var next := FindNonSectionBuysForSell(s, bs, ThirtyDayRule, fx);
      if next.Fail? {
        return Fail(next.reason);
      }
      ss, bs := ss[i := next.value.0], next.value.1;
    }
    return Ok((ss, bs));
  }
}
