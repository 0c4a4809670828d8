/** Account balances and the total supply they hold. */
module Balances {
  import opened Machine

  type Address = a: nat | a < 0x1_0000_0000_0000_0000_0000_0000_0000_0000_0000_0000

  // An absent account has balance zero.
  type Ledger = map<Address, U256>

  function Get(b: Ledger, a: Address): U256 {
    if a in b then b[a] else 0
  }

  ghost function Pick(b: Ledger): (a: Address)
    requires |b| > 0
    ensures a in b
  {
    var a :| a in b;
    a
  }

  ghost function Supply(b: Ledger): nat
    decreases |b|
  {
    if |b| == 0 then 0 else b[Pick(b)] + Supply(b - {Pick(b)})
  }

  /** `balance_incr` of the journal: the credit is dropped when the sum leaves 256 bits. */
  function Credit(b: Ledger, a: Address, amount: U256): Ledger {
    if Get(b, a) + amount < TWO_256 then b[a := Get(b, a) + amount] else b
  }

  // Supply does not depend on the order in which the accounts are picked.
  lemma {:induction false} SupplyRemove(b: Ledger, a: Address)
    requires a in b
    ensures Supply(b) == b[a] + Supply(b - {a})
    decreases |b|
  {
    var c := Pick(b);
    if c != a {
      RemoveBoth(b, a, c);
      SupplyRemove(b - {c}, a);
      SupplyRemove(b - {a}, c);
    }
  }

  lemma RemoveBoth(b: Ledger, a: Address, c: Address)
    requires a in b && c in b && a != c
    ensures |b - {a}| < |b| && |b - {c}| < |b|
    ensures c in b - {a} && (b - {a})[c] == b[c] && a in b - {c} && (b - {c})[a] == b[a]
    ensures b - {c} - {a} == b - {a} - {c}
  {
  }

  lemma SupplySplit(b: Ledger, a: Address)
    ensures Supply(b) == Get(b, a) + Supply(b - {a})
  {
    if a in b {
      SupplyRemove(b, a);
    } else {
      assert b - {a} == b;
    }
  }

  lemma SetRemove(b: Ledger, a: Address, v: U256)
    ensures b[a := v] - {a} == b - {a}
  {
  }

  lemma SupplySet(b: Ledger, a: Address, v: U256)
    ensures Supply(b[a := v]) == Supply(b) - Get(b, a) + v
  {
    SupplySplit(b, a);
    SupplySplit(b[a := v], a);
    SetRemove(b, a, v);
  }

  lemma BalanceWithinSupply(b: Ledger, a: Address)
    ensures Get(b, a) <= Supply(b)
  {
    SupplySplit(b, a);
  }

  lemma CreditFits(b: Ledger, a: Address, amount: U256)
    requires Get(b, a) + amount < TWO_256
    ensures Credit(b, a, amount) == b[a := Get(b, a) + amount]
  {
  }

  // While the supply stays within 256 bits no credit is dropped.
  lemma CreditSupply(b: Ledger, a: Address, amount: U256)
    requires Supply(b) + amount < TWO_256
    ensures Supply(Credit(b, a, amount)) == Supply(b) + amount
  {
    BalanceWithinSupply(b, a);
    CreditFits(b, a, amount);
    SupplySet(b, a, Get(b, a) + amount);
  }

  // ... and it reaches the credited account and no other.
  lemma CreditGet(b: Ledger, a: Address, amount: U256, c: Address)
    requires Supply(b) + amount < TWO_256
    ensures Get(Credit(b, a, amount), c) == Get(b, c) + (if c == a then amount else 0)
  {
    BalanceWithinSupply(b, a);
  }
}
