/** The balance store: a map from address to amount read with a default of zero,
    and the sum of its entries, against which the total supply is compared. */
module Balances {

  /** An account identity, opaque to the ledger (the host's script hash). */
  type Address = seq<bv8>

  /** A `Fixed<8>` value as its scaled integer numerator: 1 token is `One`. */
  type Amount = int

  /** Number of fractional digits of a `Fixed<8>` amount. */
  const Decimals: nat := 8

  /** The numerator of one whole token, 10^Decimals. */
  const One: Amount := 100_000_000

  /** The persistent balance map; an absent key reads as zero. */
  type Store = map<Address, Amount>

  /** Get-or-default lookup. */
  function Get(m: Store, a: Address): Amount {
    if a in m then m[a] else 0
  }

  /** Every stored balance is non-negative. */
  ghost predicate NonNegative(m: Store) {
    forall a :: a in m ==> m[a] >= 0
  }

  /** The sum of all stored balances. */
  ghost function Sum(m: Store): int
    decreases |m|
  {
    if m == map[] then 0
    else
      var k :| k in m;
      assert |(m - {k}).Keys| < |m.Keys| by {
        assert (m - {k}).Keys == m.Keys - {k};
      }
      m[k] + Sum(m - {k})
  }

  /** Writing a key changes the lookup of that key only. */
  lemma GetSet(m: Store, k: Address, v: Amount, a: Address)
    ensures Get(m[k := v], a) == if a == k then v else Get(m, a)
  {
  }

  /** Any entry can be split off the sum, whichever one `Sum` picked. */
  lemma {:induction false} SumRemove(m: Store, k: Address)
    requires k in m
    ensures Sum(m) == m[k] + Sum(m - {k})
    decreases |m|
  {
    var j :| j in m && Sum(m) == m[j] + Sum(m - {j});
    if j != k {
      assert (m - {j}).Keys == m.Keys - {j};
      assert (m - {k}).Keys == m.Keys - {k};
      SumRemove(m - {j}, k);
      SumRemove(m - {k}, j);
      assert (m - {j}) - {k} == (m - {k}) - {j};
    }
  }

  /** Overwriting one entry shifts the sum by the difference of the two values;
      an absent key counts as a previous value of zero. */
  lemma SumUpdate(m: Store, k: Address, v: Amount)
    ensures Sum(m[k := v]) == Sum(m) - Get(m, k) + v
  {
    SumRemove(m[k := v], k);
    if k in m {
      SumRemove(m, k);
      assert m[k := v] - {k} == m - {k};
    } else {
      assert m[k := v] - {k} == m;
    }
  }

  /** The sum of non-negative balances bounds each of them. */
  lemma SumBoundsEntries(m: Store, a: Address)
    requires NonNegative(m)
    ensures 0 <= Get(m, a) <= Sum(m)
  {
  }
}
