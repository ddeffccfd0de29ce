/** The ledger directives the plugins read and rewrite.  Dates are day numbers,
    so "n days later" is "+ n"; decimal numbers are exact rationals. */
module Ledger {
  import opened Results

  /** Directive and posting metadata.  Values are kept as text; a key is
      "set" (truthy) when it is present with a non-empty value. */
  type Meta = map<string, string>

  predicate Truthy(meta: Meta, key: string) {
    key in meta && meta[key] != ""
  }

  datatype Amount = Amount(number: real, currency: string)

  /** Per-unit cost basis of a lot; `lotLabel` is the optional lot label (`label`). */
  datatype Cost = Cost(number: real, currency: string, date: int, lotLabel: Option<string>)

  datatype Posting = Posting(
    account: string,
    units: Amount,
    cost: Option<Cost>,
    price: Option<Amount>,
    flag: Option<string>,
    meta: Meta)

  datatype Transaction = Transaction(date: int, meta: Meta, narration: string, postings: seq<Posting>)

  datatype Entry =
    | Txn(txn: Transaction)
    | Open(date: int, meta: Meta, account: string, currencies: seq<string>)
    | Close(date: int, meta: Meta, account: string)
    | Commodity(date: int, meta: Meta, currency: string)
    | OtherDirective(date: int, meta: Meta)

  /** A posting carries a usable per-unit price (`assert p.price and p.price.number`). */
  predicate HasPrice(p: Posting) {
    p.price.Some? && p.price.value.number != 0.0
  }

  /** `list.remove(x)`: drop the first element equal to x. */
  function RemoveFirst<T(==)>(xs: seq<T>, x: T): (r: seq<T>)
    ensures x in xs ==> |r| == |xs| - 1
    ensures x !in xs ==> r == xs
    decreases |xs|
  {
    if xs == [] then []
    else if xs[0] == x then xs[1..]
    else [xs[0]] + RemoveFirst(xs[1..], x)
  }

  /** When no earlier element equals xs[k], removing the first occurrence of
      xs[k] removes position k. */
  lemma {:induction false} RemoveFirstAt<T>(xs: seq<T>, k: nat)
    requires k < |xs|
    requires forall j :: 0 <= j < k ==> xs[j] != xs[k]
    ensures RemoveFirst(xs, xs[k]) == xs[..k] + xs[k + 1..]
    decreases k
  {
    if k > 0 {
      RemoveFirstAt(xs[1..], k - 1);
      assert [xs[0]] + (xs[1..][..k - 1] + xs[1..][k..]) == xs[..k] + xs[k + 1..];
    }
  }
}
