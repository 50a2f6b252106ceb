/** The `Token` contract: a single-owner fungible-token ledger. Each mutating
    operation is a total function of (ledger, caller, arguments) that either
    throws, leaving the ledger as it was, or updates balances and supply
    together and appends exactly one `transfer` notification. */
module Token {
  import opened Wrappers
  import opened Balances

  /** The `transfer` event: (from, to, amount); `from` is absent for a mint and
      `to` is absent for a burn. */
  datatype TransferEvent = TransferEvent(from: Option<Address>, to: Option<Address>, amount: Amount)

  /** The errors the contract throws, one per distinct message. */
  datatype Error =
    | SenderNotOwner       // constructor: the owner did not sign the deployment
    | NegativeAmount       // transfer, removeTokens: amount < 0
    | FromNotApproved      // transfer, removeTokens: the debited address did not sign
    | InsufficientBalance  // transfer, removeTokens: the debit exceeds the balance
    | NotOwner             // issue: the owner did not sign

  /** Contract storage plus the notifications emitted so far, oldest first. */
  datatype Ledger = Ledger(balances: Store, supply: Amount, owner: Address, events: seq<TransferEvent>)

  /** Conservation: the supply equals the sum of all balances. */
  ghost predicate Conserved(l: Ledger) {
    l.supply == Sum(l.balances)
  }

  /** Conservation and non-negativity together. */
  ghost predicate Valid(l: Ledger) {
    Conserved(l) && NonNegative(l.balances)
  }

  /** The constructor. `owner` is the optional argument; when absent it
      defaults to `sender`, the deployment's sender address. The deployment
      succeeds only if `caller` is the owner. */
  function Construct(caller: Address, sender: Address, owner: Option<Address>): (r: Result<Ledger, Error>)
    ensures r.Success? <==> caller == owner.GetOr(sender)
    ensures r.Failure? ==> r.error == SenderNotOwner
    ensures r.Success? ==> r.value.owner == caller && r.value.supply == 0 && r.value.events == []
    ensures r.Success? ==> forall a :: BalanceOf(r.value, a) == 0
    ensures r.Success? ==> Valid(r.value)
  {
    var o := owner.GetOr(sender);
    if caller != o then Failure(SenderNotOwner)
    else Success(Ledger(map[], 0, o, []))
  }

  /** The `totalSupply` getter. */
  function TotalSupply(l: Ledger): (r: Amount)
    ensures Conserved(l) ==> r == Sum(l.balances)
  {
    l.supply
  }

  /** `balanceOf`: the stored balance, or zero for an address never written. */
  function BalanceOf(l: Ledger, a: Address): (r: Amount)
    ensures a !in l.balances ==> r == 0
    ensures a in l.balances ==> r == l.balances[a]
  {
    Get(l.balances, a)
  }

  /** In a valid ledger every balance lies between zero and the total supply. */
  lemma BalanceBoundedBySupply(l: Ledger, a: Address)
    requires Valid(l)
    ensures 0 <= BalanceOf(l, a) <= TotalSupply(l)
  {
    SumBoundsEntries(l.balances, a);
  }

  /** Appends one `transfer` notification. */
  function Notify(l: Ledger, from: Option<Address>, to: Option<Address>, amount: Amount): Ledger {
    l.(events := l.events + [TransferEvent(from, to, amount)])
  }

  /** `transfer`, as written: the receiver's balance is read before the
      sender's is written, so when `from == to` the second write wins and the
      balance grows by `amount`. */
  function Transfer(l: Ledger, caller: Address, from: Address, to: Address, amount: Amount): (r: Result<Ledger, Error>)
    ensures amount < 0 ==> r == Failure(NegativeAmount)
    ensures 0 <= amount && caller != from ==> r == Failure(FromNotApproved)
    ensures 0 <= amount && caller == from && BalanceOf(l, from) < amount ==> r == Failure(InsufficientBalance)
    ensures r.Success? <==> caller == from && 0 <= amount <= BalanceOf(l, from)
    ensures r.Success? ==>
      && r.value.supply == l.supply
      && r.value.owner == l.owner
      && r.value.events == l.events + [TransferEvent(Some(from), Some(to), amount)]
      && BalanceOf(r.value, to) == BalanceOf(l, to) + amount
      && (from != to ==> BalanceOf(r.value, from) == BalanceOf(l, from) - amount)
      && (forall a :: a != from && a != to ==> BalanceOf(r.value, a) == BalanceOf(l, a))
  {
    if amount < 0 then Failure(NegativeAmount)
    else if caller != from then Failure(FromNotApproved)
    else
      var fromBalance := BalanceOf(l, from);
      if fromBalance < amount then Failure(InsufficientBalance)
      else
        var toBalance := BalanceOf(l, to);
        var afterDebit := l.balances[from := fromBalance - amount];
        var afterCredit := afterDebit[to := toBalance + amount];
        Success(Notify(l.(balances := afterCredit), Some(from), Some(to), amount))
  }

  /** The shared effect of `issue` and `provide`: credit `addr` and grow the
      supply by `amount`, then notify a mint. */
  function Mint(l: Ledger, addr: Address, amount: Amount): (r: Ledger)
    ensures BalanceOf(r, addr) == BalanceOf(l, addr) + amount
    ensures forall a :: a != addr ==> BalanceOf(r, a) == BalanceOf(l, a)
    ensures r.supply == l.supply + amount
    ensures r.owner == l.owner
    ensures r.events == l.events + [TransferEvent(None, Some(addr), amount)]
  {
    var credited := l.(balances := l.balances[addr := BalanceOf(l, addr) + amount],
                       supply := l.supply + amount);
    Notify(credited, None, Some(addr), amount)
  }

  /** `issue`: only the owner may mint. There is no check on the sign of
      `amount`. */
  function Issue(l: Ledger, caller: Address, addr: Address, amount: Amount): (r: Result<Ledger, Error>)
    ensures r.Success? <==> caller == l.owner
    ensures r.Failure? ==> r.error == NotOwner
    ensures r.Success? ==> r.value == Mint(l, addr, amount)
  {
    if caller != l.owner then Failure(NotOwner)
    else Success(Mint(l, addr, amount))
  }

  /** `provide` (test-only): the effect of `issue` with no authorization check,
      so every caller succeeds. */
  function Provide(l: Ledger, caller: Address, addr: Address, amount: Amount): (r: Result<Ledger, Error>)
    ensures r.Success?
    ensures r.value == Mint(l, addr, amount)
  {
    Success(Mint(l, addr, amount))
  }

  /** `removeTokens` (test-only burn): `addr` must sign its own burn. */
  function RemoveTokens(l: Ledger, caller: Address, addr: Address, amount: Amount): (r: Result<Ledger, Error>)
    ensures amount < 0 ==> r == Failure(NegativeAmount)
    ensures 0 <= amount && caller != addr ==> r == Failure(FromNotApproved)
    ensures 0 <= amount && caller == addr && BalanceOf(l, addr) < amount ==> r == Failure(InsufficientBalance)
    ensures r.Success? <==> caller == addr && 0 <= amount <= BalanceOf(l, addr)
    ensures r.Success? ==>
      && BalanceOf(r.value, addr) == BalanceOf(l, addr) - amount
      && (forall a :: a != addr ==> BalanceOf(r.value, a) == BalanceOf(l, a))
      && r.value.supply == l.supply - amount
      && r.value.owner == l.owner
      && r.value.events == l.events + [TransferEvent(Some(addr), None, amount)]
  {
    if amount < 0 then Failure(NegativeAmount)
    else if caller != addr then Failure(FromNotApproved)
    else
      var fromBalance := BalanceOf(l, addr);
      if fromBalance < amount then Failure(InsufficientBalance)
      else
        var debited := l.(balances := l.balances[addr := BalanceOf(l, addr) - amount],
                          supply := l.supply - amount);
        Success(Notify(debited, Some(addr), None, amount))
  }

  // ---------------------------------------------------------------------------
  // Conservation and non-negativity, operation by operation
  // ---------------------------------------------------------------------------

  /** A transfer between two distinct addresses preserves conservation. */
  lemma TransferConserves(l: Ledger, caller: Address, from: Address, to: Address, amount: Amount)
    requires Conserved(l) && from != to
    requires Transfer(l, caller, from, to, amount).Success?
    ensures Conserved(Transfer(l, caller, from, to, amount).value)
  {
    var fromBalance := BalanceOf(l, from);
    var afterDebit := l.balances[from := fromBalance - amount];
    SumUpdate(l.balances, from, fromBalance - amount);
    SumUpdate(afterDebit, to, BalanceOf(l, to) + amount);
    GetSet(l.balances, from, fromBalance - amount, to);
  }

  /** A successful transfer, self-transfer included, keeps balances non-negative. */
  lemma TransferNonNegative(l: Ledger, caller: Address, from: Address, to: Address, amount: Amount)
    requires NonNegative(l.balances)
    requires Transfer(l, caller, from, to, amount).Success?
    ensures NonNegative(Transfer(l, caller, from, to, amount).value.balances)
  {
  }

  /** A self-transfer as written mints `amount`: the balance ends at
      `old + amount` while the supply stays put, so conservation survives it
      exactly when `amount` is zero. */
  lemma SelfTransferMints(l: Ledger, a: Address, amount: Amount)
    requires Conserved(l)
    requires Transfer(l, a, a, a, amount).Success?
    ensures BalanceOf(Transfer(l, a, a, a, amount).value, a) == BalanceOf(l, a) + amount
    ensures Sum(Transfer(l, a, a, a, amount).value.balances) == TotalSupply(l) + amount
    ensures Conserved(Transfer(l, a, a, a, amount).value) <==> amount == 0
  {
    var fromBalance := BalanceOf(l, a);
    var afterDebit := l.balances[a := fromBalance - amount];
    assert afterDebit[a := fromBalance + amount] == l.balances[a := fromBalance + amount];
    SumUpdate(l.balances, a, fromBalance + amount);
  }

  /** Minting grows the sum of balances and the supply by the same amount. */
  lemma MintConserves(l: Ledger, addr: Address, amount: Amount)
    requires Conserved(l)
    ensures Conserved(Mint(l, addr, amount))
  {
    SumUpdate(l.balances, addr, BalanceOf(l, addr) + amount);
  }

  /** Minting a non-negative amount keeps balances non-negative. */
  lemma MintNonNegative(l: Ledger, addr: Address, amount: Amount)
    requires NonNegative(l.balances) && amount >= 0
    ensures NonNegative(Mint(l, addr, amount).balances)
  {
  }

  /** `issue` has no sign check: the owner can drive a balance below zero. */
  lemma IssueNegativeBreaksNonNegativity(l: Ledger, addr: Address, amount: Amount)
    requires amount < -BalanceOf(l, addr)
    ensures Issue(l, l.owner, addr, amount).Success?
    ensures !NonNegative(Issue(l, l.owner, addr, amount).value.balances)
  {
  }

  /** A successful burn lowers the sum of balances and the supply together. */
  lemma RemoveTokensConserves(l: Ledger, caller: Address, addr: Address, amount: Amount)
    requires Conserved(l)
    requires RemoveTokens(l, caller, addr, amount).Success?
    ensures Conserved(RemoveTokens(l, caller, addr, amount).value)
  {
    SumUpdate(l.balances, addr, BalanceOf(l, addr) - amount);
  }

  /** A successful burn keeps balances non-negative. */
  lemma RemoveTokensNonNegative(l: Ledger, caller: Address, addr: Address, amount: Amount)
    requires NonNegative(l.balances)
    requires RemoveTokens(l, caller, addr, amount).Success?
    ensures NonNegative(RemoveTokens(l, caller, addr, amount).value.balances)
  {
  }

  // ---------------------------------------------------------------------------
  // The self-transfer, corrected
  // ---------------------------------------------------------------------------

  /** `transfer` with the receiver's balance read after the sender's write, so
      that a self-transfer leaves the balance where it was. */
  function TransferCorrected(l: Ledger, caller: Address, from: Address, to: Address, amount: Amount): (r: Result<Ledger, Error>)
    ensures r.Success? <==> Transfer(l, caller, from, to, amount).Success?
    ensures r.Failure? ==> r == Transfer(l, caller, from, to, amount)
    ensures from != to ==> r == Transfer(l, caller, from, to, amount)
    ensures r.Success? && from == to ==> r.value.balances == l.balances[from := BalanceOf(l, from)]
  {
    if amount < 0 then Failure(NegativeAmount)
    else if caller != from then Failure(FromNotApproved)
    else
      var fromBalance := BalanceOf(l, from);
      if fromBalance < amount then Failure(InsufficientBalance)
      else
        var afterDebit := l.balances[from := fromBalance - amount];
        var afterCredit := afterDebit[to := Get(afterDebit, to) + amount];
        Success(Notify(l.(balances := afterCredit), Some(from), Some(to), amount))
  }

  /** The corrected transfer preserves conservation for every input,
      self-transfers included. */
  lemma TransferCorrectedConserves(l: Ledger, caller: Address, from: Address, to: Address, amount: Amount)
    requires Conserved(l)
    requires TransferCorrected(l, caller, from, to, amount).Success?
    ensures Conserved(TransferCorrected(l, caller, from, to, amount).value)
  {
    if from != to {
      TransferConserves(l, caller, from, to, amount);
    } else {
      SumUpdate(l.balances, from, BalanceOf(l, from));
    }
  }

  /** The corrected transfer keeps balances non-negative. */
  lemma TransferCorrectedNonNegative(l: Ledger, caller: Address, from: Address, to: Address, amount: Amount)
    requires NonNegative(l.balances)
    requires TransferCorrected(l, caller, from, to, amount).Success?
    ensures NonNegative(TransferCorrected(l, caller, from, to, amount).value.balances)
  {
  }
}
