# beancount-lalitm ledger plugins, modelled in Dafny

This project models the ledger-rewriting core of the beancount-lalitm plugins:

- **uk_cgt_lots**: UK capital gains tax lot matching. Every sale and purchase
  of a security in a configured account is extracted from its transaction.
  Each sale is matched first against purchases on the same day, then against
  purchases in the following thirty days. Whatever is left is matched, in
  date order, against the Section 104 pool. A pool is kept per symbol and
  scope: all taxable accounts share the scope "Taxable", and each tax-free
  account has its own. The pool holds its units, the average cost and the
  total GBP allowable cost. Each transaction is then written back:
  - one posting per matched lot;
  - then the transaction's own postings;
  - then, for a sale with a gain, a capital-gains revenue posting;
  - and, in a taxable account, one pair of GBP gain postings per lot.
- **AccountOracle**: the account-name builder for one brokerage account. It
  includes the table of distribution types read from the Commodity entries.
- **ancillary_accounts**: an Open directive whose metadata names companion
  currencies also opens the companion accounts: commissions, distributions,
  capital gains and withholding tax. Closing the security's account closes
  its companions. A second Open of a registered account stops the plugin
  with an error.
- **stock_split**: in every transaction dated before a configured split, the
  first posting in the split symbol is adjusted. Its units are multiplied by
  the ratio and its price divided by it, and it is moved to the end of the
  postings.

How the model represents things:

- Decimal amounts are exact rationals (`real`). `quantize(Decimal('0.0001'))`
  is `Decimal.Quantize`: round half to even on the 4-place grid, which is
  Python's default decimal rounding.
- Dates are day numbers.
- A failed Python `assert`, a `KeyError` or a `ValueError` is a `Fail` result
  carrying the exception's name.
- Each plugin is a method that is proved equal to a specification function:
  - `UkCgtLots.UkCgtLotsSpec`;
  - `AncillaryAccounts.Outcome(Run(...))`;
  - `StockSplit.AdjustAll`.

  The properties the source promises are lemmas about those functions.
- The uk_cgt_lots records (`MatchedTransaction`) are values. Each carries the
  index of the entry it came from. What the Python code mutates in place, the
  model returns updated, and the driver writes each record's transaction back
  at its entry's index (`UkCgtLots.Reinsert`).

Source asserts about the ledger's contents become error results: zero units,
a missing price, a pool in another currency, selling more than the pool holds,
a posting without metadata, and a transaction dated on its split date.
Asserts about the plugin's own bookkeeping are proved to hold instead:
- the sale still has units to match when a pass reaches it;
- every record is fully matched after pooling;
- a pool never goes negative;
- an emptied pool has exactly zero GBP cost, where the source tolerates 1e-12.

On the example of selling 10 units at 150 that were bought at 100, the
economic gain is 500 and the revenue posting carries −500, the sign of a
credit to a Revenues account: the code computes the price times the
(negative) sold units less the matched cost (`CgtRecords.GainScenario`).

## Model

| member | source | states |
|---|---|---|
| Ledger.RemoveFirstAt | src/beancount_lalitm/plugins/uk_cgt_lots.py:307 | `list.remove` of the k-th element when no earlier element equals it removes exactly position k, keeping the others in order |
| Strings.ContainsIff | src/beancount_lalitm/plugins/uk_cgt_lots.py:299 | the substring test `name in account` holds iff the name occurs at some position of the account |
| Strings.ReplaceChar | src/beancount_lalitm/plugins/uk_cgt_lots.py:282-283 | `replace(':', '-')` keeps the length and changes exactly the colons, each to a dash |
| Strings.ReplaceAllAbsent | src/beancount_lalitm/plugins/uk_cgt_lots.py:360 | removing a pattern that does not occur leaves the string unchanged |
| Strings.ReplaceAllLeading | src/beancount_lalitm/plugins/uk_cgt_lots.py:360 | removing `Assets:` from an account where it occurs only at the head leaves the rest of the name |
| Decimal.RoundHalfEven | src/beancount_lalitm/plugins/uk_cgt_lots.py:71 | the result is an integer within one half of x, and an exact tie goes to the even neighbour |
| Decimal.RoundHalfEvenUnique | src/beancount_lalitm/plugins/uk_cgt_lots.py:71 | any integer with those two properties is the rounding, so half-even rounding is fully determined |
| Decimal.Quantize | src/beancount_lalitm/plugins/uk_cgt_lots.py:71 | `quantize(Decimal('0.0001'))` lands on the 4-place grid, within half a grid step of x |
| Decimal.QuantizeOnGrid | src/beancount_lalitm/plugins/uk_cgt_lots.py:71 | a value already on the 4-place grid is left unchanged |
| Decimal.QuantizeIdempotent | src/beancount_lalitm/plugins/uk_cgt_lots.py:102-103 | quantizing twice is quantizing once |
| Decimal.OnGridSub | src/beancount_lalitm/plugins/uk_cgt_lots.py:102-103 | the difference of two 4-place values is on the grid, so quantizing it changes nothing |
| Decimal.QuantizeNeg | src/beancount_lalitm/plugins/uk_cgt_lots.py:71 | half-even rounding is symmetric: quantizing −x gives the negation of quantizing x |
| AccountNames.JoinSplit | src/beancount_lalitm/plugins/ancillary_accounts.py:76-77 | joining the colon-separated components of an account name with `:` gives the name back |
| AccountNames.SplitJoin | src/beancount_lalitm/plugins/ancillary_accounts.py:76-77 | splitting a join of colon-free components gives the components back |
| AccountNames.SplitPartsColonFree | src/beancount_lalitm/plugins/ancillary_accounts.py:76-77 | no component of a split name contains a colon |
| AccountNames.LeafIsLast | src/beancount_lalitm/plugins/ancillary_accounts.py:77 | `leaf` is the last component |
| AccountNames.SansRootIsRest | src/beancount_lalitm/plugins/ancillary_accounts.py:76 | `sans_root` is the join of all components but the first |
| AccountNames.BeforeLastIsInit | src/beancount_lalitm/plugins/ancillary_accounts.py:76 | the text before the last colon is the join of all components but the last |
| AccountNames.ParentLeaf | src/beancount_lalitm/plugins/ancillary_accounts.py:76-77 | a name with two or more components has a parent, and parent + `:` + leaf is the name |
| AccountNames.SansRootLeaf | src/beancount_lalitm/plugins/ancillary_accounts.py:76-77 | dropping the root drops exactly the first component and keeps the leaf |
| AccountNames.RootAndRest | src/beancount_lalitm/plugins/ancillary_accounts.py:76 | for a colon-free root, `sans_root(root:rest)` is rest and the components are root followed by rest's |
| AccountLookup.DistributionTypesDomain | src/beancount_lalitm/importers/account_lookup.py:22-26 | a symbol has a distribution type iff some entry is a Commodity of that symbol |
| AccountLookup.DistributionTypesLast | src/beancount_lalitm/importers/account_lookup.py:22-26 | the last Commodity entry of a symbol decides its type: its `distribution_type` metadata, or `Dividends` by default |
| AccountLookup.NewAccountOracle | src/beancount_lalitm/importers/account_lookup.py:15-67 | the constructor's loop builds the oracle. The ensures gives every accessor's exact account string. The distribution account exists iff the symbol has a Commodity entry, else `KeyError`, and the last Commodity's type names it. Transfers and stock revenue fail with `ValueError` when not configured |
| AncillaryAccounts.Add | src/beancount_lalitm/plugins/ancillary_accounts.py:42-60 | with the key unset nothing changes. With it set, an Open of the companion is appended, dated like the entry, with the generated metadata and the key's currency, and the name is recorded for closing. A companion name that cannot be built fails only when the key is set |
| AncillaryAccounts.AddStep | src/beancount_lalitm/plugins/ancillary_accounts.py:42-60 | one `add` call appends exactly the Opens and names of the companion its key asks for |
| AncillaryAccounts.CompanionRequests | src/beancount_lalitm/plugins/ancillary_accounts.py:76-106 | the four `add` requests of an Open, in source order, with the names the oracle for the account's parent builds |
| AncillaryAccounts.AddCompanions | src/beancount_lalitm/plugins/ancillary_accounts.py:78-106 | the four `add` calls fail with the first failing request's error, or append the Opens and names of the companions |
| AncillaryAccounts.GatherFour | src/beancount_lalitm/plugins/ancillary_accounts.py:79-106 | the companions of four requests are the four keys' contributions in order, stopping at the first failure |
| AncillaryAccounts.CompanionsOfFails | src/beancount_lalitm/plugins/ancillary_accounts.py:86-92 | an Open fails exactly when its distribution key is set and its symbol has no Commodity entry, and the error is `KeyError: <symbol>` |
| AncillaryAccounts.CompanionsOfOk | src/beancount_lalitm/plugins/ancillary_accounts.py:76-106 | the companions are, for each key that is set and in the fixed order, `Expenses:<base>:<symbol>:Commissions`, `Revenues:<base>:<symbol>:<distribution type>`, `Revenues:<base>:<symbol>:Capital-Gains` and `Expenses:<base>:<symbol>:Withholding-Tax`, each with the key's currency |
| AncillaryAccounts.CompanionBase | src/beancount_lalitm/plugins/ancillary_accounts.py:76-77 | for an account of three or more components, the oracle's base, `:` and the leaf give the account without its root |
| AncillaryAccounts.OpenCompanions | src/beancount_lalitm/plugins/ancillary_accounts.py:70-107 | the Open step of the loop. It either ends the whole plugin with its error, or advances the specification by one entry, with the account registered with its companions |
| AncillaryAccounts.CloseCompanions | src/beancount_lalitm/plugins/ancillary_accounts.py:114-115 | appends one Close per registered companion, with the triggering Close's date and metadata, in registration order |
| AncillaryAccounts.CloseStep | src/beancount_lalitm/plugins/ancillary_accounts.py:109-116 | the Close step for a registered account with companions. It emits their Closes and unregisters the account, advancing the specification by one entry |
| AncillaryAccounts.OtherStep | src/beancount_lalitm/plugins/ancillary_accounts.py:109-112 | any other entry, including a Close of an account with no registered companions, is copied through and leaves the registrations unchanged |
| AncillaryAccounts.RunStopped | src/beancount_lalitm/plugins/ancillary_accounts.py:72-74 | once the pass has failed or stopped as a duplicate, later entries change nothing |
| AncillaryAccounts.RunShape | src/beancount_lalitm/plugins/ancillary_accounts.py:67-116 | while running, the output is one block per input entry in input order. Each block starts with its entry and continues only with the directives inserted for it, and there are none for an entry that is neither Open nor Close |
| AncillaryAccounts.DuplicateStops | src/beancount_lalitm/plugins/ancillary_accounts.py:72-74 | an Open of a registered account ends the plugin with no entries and the duplicate error, whatever follows |
| AncillaryAccounts.ReopenWithoutCompanions | src/beancount_lalitm/plugins/ancillary_accounts.py:109-112 | Open, Close and Open again of an account with no companion keys gives the duplicate error: its Close finds an empty list and leaves it registered |
| AncillaryAccounts.Step | src/beancount_lalitm/plugins/ancillary_accounts.py:67-116 | one loop iteration either ends the plugin with exactly the specification's outcome (duplicate or companion error) or advances the specification by one entry with the output so far |
| AncillaryAccounts.AncillaryAccountsPlugin | src/beancount_lalitm/plugins/ancillary_accounts.py:63-118 | the plugin's loop returns exactly the outcome of the specification pass over all entries |
| CgtRecords.MakeAccount | src/beancount_lalitm/plugins/uk_cgt_lots.py:277-285 | `taxable` defaults to true. A taxable account's pool scope is `Taxable`; any other account's is its name with every colon replaced by a dash |
| CgtRecords.SumNegCostIsNegatedCost | src/beancount_lalitm/plugins/uk_cgt_lots.py:91-92 | the sum of units times negated cost is minus the matched cost |
| CgtRecords.ConvertToGbp | src/beancount_lalitm/plugins/uk_cgt_lots.py:61-71 | the GBP value is on the 4-place grid, within half a step of the rate function's value of units times price |
| CgtRecords.Convertible | src/beancount_lalitm/plugins/uk_cgt_lots.py:67-70 | under the converter's non-zero-result assumption, every conversion of non-zero units at a non-zero price is non-zero |
| CgtRecords.MatchedTransaction.CapitalGains | src/beancount_lalitm/plugins/uk_cgt_lots.py:87-93 | the gain of a sell is on the 4-place grid |
| CgtRecords.MatchedTransaction.GbpCapitalGains | src/beancount_lalitm/plugins/uk_cgt_lots.py:95-104 | one GBP gain per match |
| CgtRecords.Gain | src/beancount_lalitm/plugins/uk_cgt_lots.py:87-93 | the gain is on the 4-place grid |
| CgtRecords.GainIsCostLessProceeds | src/beancount_lalitm/plugins/uk_cgt_lots.py:87-93 | for a fully matched sell, the gain is the matched cost less the price times the matched units, quantized |
| CgtRecords.ProceedsLessNegCost | src/beancount_lalitm/plugins/uk_cgt_lots.py:91-92 | the source's expression equals cost minus proceeds when the matches cover the sold units |
| CgtRecords.NoGainAtSalePrice | src/beancount_lalitm/plugins/uk_cgt_lots.py:87-93 | a sell matched only at its own price has gain exactly zero, so it books no revenue posting |
| CgtRecords.GainScenario | src/beancount_lalitm/plugins/uk_cgt_lots.py:87-93 | selling 10 at 150 against one lot of 10 at 100 gives −500 |
| CgtRecords.GbpCapitalGainsExact | src/beancount_lalitm/plugins/uk_cgt_lots.py:102-104 | each GBP gain is the sale value of its match less its allowable cost exactly: the outer quantize changes nothing |
| CgtMatching.ThirtyDayBoundary | src/beancount_lalitm/plugins/uk_cgt_lots.py:167-172 | the thirty-day rule takes day s+30 but not s+31 or s itself, and never overlaps the same-day rule |
| CgtMatching.Take | src/beancount_lalitm/plugins/uk_cgt_lots.py:148 | the units taken are positive, at most what either side has left, and equal to one of them |
| CgtMatching.SellAfter | src/beancount_lalitm/plugins/uk_cgt_lots.py:150-159 | the sell gains one match of the taken units at the buy's price and date, and its unmatched units move up by the take |
| CgtMatching.BuyAfter | src/beancount_lalitm/plugins/uk_cgt_lots.py:150-160 | the buy gains the opposite match at the same cost, and its unmatched units move down by the take |
| CgtMatching.Scan | src/beancount_lalitm/plugins/uk_cgt_lots.py:130-164 | the scan keeps every record consistent and only appends matches; its only error is a failed assertion |
| CgtMatching.ScanConserves | src/beancount_lalitm/plugins/uk_cgt_lots.py:158-162 | matching conserves units: the sell's unmatched units plus the buys' total unmatched units are unchanged |
| CgtMatching.ScanFrame | src/beancount_lalitm/plugins/uk_cgt_lots.py:130-164 | buys before the scan position are untouched |
| CgtMatching.ScanGreedy | src/beancount_lalitm/plugins/uk_cgt_lots.py:130-164 | buys are drawn on in list order: when the scan changed a later eligible buy in the sell's scope, every earlier eligible buy in that scope has been used up |
| CgtMatching.ScanStops | src/beancount_lalitm/plugins/uk_cgt_lots.py:162-164 | when an eligible buy covers the sell, the sell ends fully matched, that buy loses exactly the sell's units, and no other buy changes |
| CgtMatching.ScanOnlyEligible | src/beancount_lalitm/plugins/uk_cgt_lots.py:130-143 | a buy changes only if it has the sell's symbol and scope, has unmatched units, and the date rule admits it |
| CgtMatching.ScanExhausts | src/beancount_lalitm/plugins/uk_cgt_lots.py:130-164 | if the sell is still unmatched at the end, every buy that the rule admits, with the same symbol and scope, is used up |
| CgtMatching.FindNonSectionBuysForSell | src/beancount_lalitm/plugins/uk_cgt_lots.py:124-164 | the loop computes exactly the scan from the first buy |
| CgtMatching.PassKeeps | src/beancount_lalitm/plugins/uk_cgt_lots.py:312-322 | a pass over the sells keeps every record consistent, only appends matches, and fails only on a failed assertion |
| CgtMatching.SameDaySales | src/beancount_lalitm/plugins/uk_cgt_lots.py:312-315 | the same-day loop is the same-day pass. The `assert < 0` on each sell is proved, not checked |
| CgtMatching.ThirtyDaySales | src/beancount_lalitm/plugins/uk_cgt_lots.py:317-322 | the thirty-day loop is the thirty-day pass, skipping fully matched sells. The `assert <= 0` is proved |
| Section104.PoolFor | src/beancount_lalitm/plugins/uk_cgt_lots.py:187-193 | `setdefault`: a missing pool starts empty, on the record's date, in the price's currency. Every pool is consistent |
| Section104.Reset | src/beancount_lalitm/plugins/uk_cgt_lots.py:195-198 | an empty pool takes the record's date and a zero average; a non-empty one is unchanged |
| Section104.SellFromPool | src/beancount_lalitm/plugins/uk_cgt_lots.py:207-222 | selling from the pool removes the units and a proportional share of the GBP cost, keeping the cost per unit |
| Section104.ProportionalShare | src/beancount_lalitm/plugins/uk_cgt_lots.py:196-208 | the remaining cost per unit is unchanged, and selling all units leaves exactly zero GBP cost (the 1e-12 tolerance is never needed) |
| Section104.AverageAfterBuy | src/beancount_lalitm/plugins/uk_cgt_lots.py:229-241 | the new average times the new units is the old total cost plus price times the bought units; into an empty pool it is the price |
| Section104.BuyIntoPool | src/beancount_lalitm/plugins/uk_cgt_lots.py:240-242 | a buy adds its units and GBP cost and re-weights the average; date and currency are kept |
| Section104.Adjustment | src/beancount_lalitm/plugins/uk_cgt_lots.py:249-271 | a compensating pair is added iff the pool was non-empty and its average moved. It moves the old units from the old average to the new, and the pair's units cancel |
| Section104.SellResidue | src/beancount_lalitm/plugins/uk_cgt_lots.py:200-225 | the sell ends fully matched, with only matches appended |
| Section104.BuyResidue | src/beancount_lalitm/plugins/uk_cgt_lots.py:227-271 | the buy ends fully matched, with the same posting and only matches appended, and the pool stays consistent |
| Section104.PoolStepKeeps | src/beancount_lalitm/plugins/uk_cgt_lots.py:175-271 | `match_to_section` fails exactly when units remain and the record has no price, its pool is in another currency, or it oversells the pool. Otherwise the record ends fully matched, every pool stays consistent, and only the record's own pool changes |
| Section104.PoolSell | src/beancount_lalitm/plugins/uk_cgt_lots.py:200-225 | a sell's residue is one match at the pool's average cost with a proportional share of the GBP cost, and the pool loses those units and that cost |
| Section104.PoolBuy | src/beancount_lalitm/plugins/uk_cgt_lots.py:227-271 | a buy's residue joins the pool at the re-weighted average and converted GBP cost. The transaction keeps its postings and gains the adjustment pair iff the average moved |
| Section104.BuyThenSellNoGain | src/beancount_lalitm/plugins/uk_cgt_lots.py:200-271 | buying units into an empty pool and then selling all of them at the same price from that pool succeeds twice, and the sell records a capital gain of exactly zero |
| Section104.MatchToSection | src/beancount_lalitm/plugins/uk_cgt_lots.py:175-271 | the method computes exactly the pool step |
| Section104.SellToPool | src/beancount_lalitm/plugins/uk_cgt_lots.py:207-222 | the sell branch computes exactly the sell residue and the pool after the sale |
| Section104.BuyToPool | src/beancount_lalitm/plugins/uk_cgt_lots.py:229-271 | the buy branch computes exactly the buy residue and the pool after the buy |
| CgtExtract.FindAccount | src/beancount_lalitm/plugins/uk_cgt_lots.py:299-301 | the account found is a configured one whose name occurs in the posting's account. None is found iff no configured name occurs there |
| CgtExtract.FindAccountFirst | src/beancount_lalitm/plugins/uk_cgt_lots.py:299 | `next(...)` gives the first configured account whose name occurs |
| CgtExtract.FirstCandidate | src/beancount_lalitm/plugins/uk_cgt_lots.py:293-301 | finds the first `Assets` posting, not ending in `Cash`, in a configured account; finds none iff no posting qualifies |
| CgtExtract.ExtractEntrySpec | src/beancount_lalitm/plugins/uk_cgt_lots.py:290-308 | a non-transaction, or one without a candidate, yields nothing. A zero-unit candidate fails. Otherwise it yields a fresh record of the first candidate, removed from its transaction |
| CgtExtract.ExtractedRecord | src/beancount_lalitm/plugins/uk_cgt_lots.py:302-306 | an extracted record is a fresh buy or sell of its own entry |
| CgtExtract.ExtractKeeps | src/beancount_lalitm/plugins/uk_cgt_lots.py:288-308 | extraction yields buys and sells in entry order, each fresh and each from a distinct entry holding its first candidate posting. Its only error is a failed assertion |
| CgtExtract.ExtractRecords | src/beancount_lalitm/plugins/uk_cgt_lots.py:287-308 | the extraction loop computes exactly the extraction function |
| CgtRewrite.LotPostings | src/beancount_lalitm/plugins/uk_cgt_lots.py:334-343 | one lot posting per match |
| CgtRewrite.LotPostingsUnits | src/beancount_lalitm/plugins/uk_cgt_lots.py:334-343 | the lot postings' units add up to minus the matched units |
| CgtRewrite.LotPostingsReplacePosting | src/beancount_lalitm/plugins/uk_cgt_lots.py:330-343 | for a fully matched record, the lot postings together carry exactly the extracted posting's units |
| CgtRewrite.GainPostings | src/beancount_lalitm/plugins/uk_cgt_lots.py:373-391 | two postings per GBP gain |
| CgtRewrite.GainPostingsBalance | src/beancount_lalitm/plugins/uk_cgt_lots.py:373-391 | the GBP gain postings sum to zero and are all in CGT-GBP |
| CgtRewrite.RevenueIsCapitalGainsAccount | src/beancount_lalitm/plugins/uk_cgt_lots.py:360-363 | for an asset account named as the oracle names them, the revenue account is the oracle's capital-gains account |
| CgtRewrite.GainTail | src/beancount_lalitm/plugins/uk_cgt_lots.py:353-391 | a revenue posting of the gain in the price currency, then, in a taxable account, two postings per match |
| CgtRewrite.Rewrite | src/beancount_lalitm/plugins/uk_cgt_lots.py:332-391 | writing back changes only the transaction's postings |
| CgtRewrite.RewriteShape | src/beancount_lalitm/plugins/uk_cgt_lots.py:332-391 | fails iff the posting has no metadata. Otherwise the postings are the lot postings, then the transaction's own, then the gain tail exactly when the record books a gain |
| UkCgtLots.SortOrder | src/beancount_lalitm/plugins/uk_cgt_lots.py:325 | the sort order lists each record index exactly once, by date, with ties in list order |
| UkCgtLots.SortByDate | src/beancount_lalitm/plugins/uk_cgt_lots.py:325 | `sorted(..., key=date)` is a permutation of the records, by date, stable on ties |
| UkCgtLots.SortKeeps | src/beancount_lalitm/plugins/uk_cgt_lots.py:325 | sorting keeps the records consistent, one per entry, each holding its entry's posting |
| UkCgtLots.JoinOk | src/beancount_lalitm/plugins/uk_cgt_lots.py:325 | buys followed by sells are all consistent records |
| UkCgtLots.ExtractedJoin | src/beancount_lalitm/plugins/uk_cgt_lots.py:288-308 | the extracted buys and sells together come from distinct entries, each holding its entry's candidate posting |
| UkCgtLots.MatchedKeeps | src/beancount_lalitm/plugins/uk_cgt_lots.py:312-322 | after both matching passes the records are still consistent and still one per entry, with the same postings |
| UkCgtLots.Visit | src/beancount_lalitm/plugins/uk_cgt_lots.py:328-391 | one pooling iteration leaves its record fully matched, holding the same posting, with only matches appended. It fails only on a failed assertion |
| UkCgtLots.PoolAllKeeps | src/beancount_lalitm/plugins/uk_cgt_lots.py:328-345 | the pooling loop leaves every record from i on fully matched, with the same posting, and the records before i untouched; `assert unmatched == 0` is proved |
| UkCgtLots.VisitRecord | src/beancount_lalitm/plugins/uk_cgt_lots.py:329-391 | the loop body computes exactly one visit |
| UkCgtLots.PoolRecords | src/beancount_lalitm/plugins/uk_cgt_lots.py:326-391 | the pooling loop, starting from no pools, computes exactly the pooling function |
| UkCgtLots.ReinsertFrame | src/beancount_lalitm/plugins/uk_cgt_lots.py:290-308 | an entry no record came from is returned unchanged |
| UkCgtLots.ReinsertWrites | src/beancount_lalitm/plugins/uk_cgt_lots.py:332-344 | each record's rewritten transaction stands at its entry's index |
| UkCgtLots.PipelineKeeps | src/beancount_lalitm/plugins/uk_cgt_lots.py:287-345 | what leaves the pooling loop is one fully matched record per entry with a candidate posting, holding that posting. The only error is a failed assertion |
| UkCgtLots.PooledKeeps | src/beancount_lalitm/plugins/uk_cgt_lots.py:325-345 | sorting and pooling keep one record per entry and leave every record fully matched |
| UkCgtLots.UkCgtLotsFrame | src/beancount_lalitm/plugins/uk_cgt_lots.py:274-393 | the plugin keeps the number of entries, returns every entry it takes no posting from unchanged, and fails only on a failed assertion |
| UkCgtLots.UkCgtLotsWritesBack | src/beancount_lalitm/plugins/uk_cgt_lots.py:328-393 | every record is fully matched and its rewritten transaction replaces its entry in the result |
| UkCgtLots.UkCgtLots | src/beancount_lalitm/plugins/uk_cgt_lots.py:274-393 | the driver (extract, same-day, thirty-day, sort, pool and write back) computes exactly the plugin's specification |
| StockSplit.SplitTableLast | src/beancount_tools/plugins/stock_split.py:35 | a symbol's last configuration is the one in the table |
| StockSplit.SplitTableDomain | src/beancount_tools/plugins/stock_split.py:35 | the table holds exactly the configured symbols |
| StockSplit.AdjustedKeepsValue | src/beancount_tools/plugins/stock_split.py:52-58 | the adjusted posting keeps units times price and everything but the units and price numbers |
| StockSplit.AllPass | src/beancount_tools/plugins/stock_split.py:40-49 | a transaction whose postings are not in split symbols, or all dated after their splits, is unchanged |
| StockSplit.FirstStop | src/beancount_tools/plugins/stock_split.py:40-59 | the first posting the loop does not go past decides the transaction. It fails on the split date, with a cost, with no price, or with zero units or price. A zero ratio fails with decimal.DivisionByZero. Otherwise that posting is removed and appended adjusted, and the scan stops |
| StockSplit.AdjustAllShape | src/beancount_tools/plugins/stock_split.py:37-39 | the plugin keeps every entry in its place, each entry adjusted on its own |
| StockSplit.AdjustAllFails | src/beancount_tools/plugins/stock_split.py:37-59 | the plugin fails iff one of its entries fails |
| StockSplit.RunFails | src/beancount_tools/plugins/stock_split.py:37-59 | the first failing entry's error is the plugin's error |
| StockSplit.FailedPrefix | src/beancount_tools/plugins/stock_split.py:37-59 | once a prefix fails, later entries do not change the result |
| StockSplit.StockSplitPlugin | src/beancount_tools/plugins/stock_split.py:33-61 | the plugin's loop computes exactly the adjustment of all entries under the split table |

## Left out

- YAML parsing of `plugin_config`: the configured accounts and splits are
  given as sequences of records. A missing `accounts` or `splits` key, and
  YAML values of other types, are not modelled.
- The price map of `GbpConverter`: currency conversion is an injected
  function of the date and the amount, giving the number `convert_amount`
  returns. A missing price (a `None` result) is not modelled.
- CgtRecords.ConvertToGbp: requires the converted number to be non-zero. This
  stands for the converter's `assert out`, which the model does not check
  at run time.
- UkCgtLots.UkCgtLots: requires `NonZeroRates(fx)`, so every conversion of
  a non-zero amount is non-zero. A ledger whose rates make the converter's
  `assert out` fail is outside the model. The same precondition is carried
  by CgtMatching.FindNonSectionBuysForSell, Section104.MatchToSection and
  UkCgtLots.PoolRecords.
- Decimal's 28-digit context precision: arithmetic is exact. Divisions and
  products that Python would round at 28 significant digits are exact
  rationals here. The GBP pool total of an emptied pool is therefore exactly
  zero.
- In-place mutation and aliasing: the records, transactions and pools are
  values, and each record refers to its transaction by entry index. Mutation
  through one record becoming visible through another does not arise in the
  source either: each transaction yields at most one record.
- Output to stderr before the over-selling assertion is left out.
- `isinstance(posting, Posting)` assertions always hold for the typed model.
- Metadata values are strings. A key is set when it is present and non-empty,
  which is Python truthiness for strings. Boolean or numeric metadata values
  are not modelled. A generated posting whose metadata is `None` carries the
  empty map, so "no metadata" and "empty metadata" are not told apart there.
- The `booking` field of an Open directive is not modelled: Opens read from
  the ledger pass through unchanged, and the companion Opens the plugin
  generates always have `booking=None`.
- `new_metadata('foo', 1)` is the constant metadata `GeneratedMeta`.
- `str(None)` for an account without a parent is the literal `"None"`.
- beancount.core.account is not part of this model. Its `parent`, `leaf` and
  `sans_root` are defined in AccountNames by splitting at colons.
- The `oracle` field of `CgtAccount`: the driver builds it and never reads
  it, so records carry the name, taxability and pool scope only.
- A failed assertion in the uk_cgt_lots write-back leaves in-place edits of
  earlier transactions in the Python ledger. The model returns only the
  error, as the raised exception discards the result.
- CgtRecords.MatchedTransaction.CapitalGains: states only that the gain is
  on the grid. Its value is stated by CgtRecords.GainIsCostLessProceeds
  and CgtRecords.NoGainAtSalePrice.
