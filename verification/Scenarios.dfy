/** Worked runs of the contract on concrete addresses, amounts in whole tokens. */
module Scenarios {
  import opened Wrappers
  import opened Balances
  import opened Token

  const O: Address := [0]
  const A: Address := [1]
  const B: Address := [2]

  /** Deploy by O, issue 100 to A, transfer 30 from A to B, then: an
      over-large transfer and an issue by a non-owner both throw, and B burns
      its 30. */
  lemma IssueTransferBurn()
    ensures Construct(O, O, None).Success?
    ensures
      var l0 := Construct(O, O, None).value;
      && Issue(l0, O, A, 100 * One).Success?
      && var l1 := Issue(l0, O, A, 100 * One).value;
      && BalanceOf(l1, A) == 100 * One && TotalSupply(l1) == 100 * One
      && Transfer(l1, A, A, B, 30 * One).Success?
      && var l2 := Transfer(l1, A, A, B, 30 * One).value;
      && BalanceOf(l2, A) == 70 * One && BalanceOf(l2, B) == 30 * One && TotalSupply(l2) == 100 * One
      && Transfer(l2, A, A, B, 1000 * One) == Failure(InsufficientBalance)
      && Issue(l2, A, A, 10 * One) == Failure(NotOwner)
      && RemoveTokens(l2, B, B, 30 * One).Success?
      && var l3 := RemoveTokens(l2, B, B, 30 * One).value;
      && BalanceOf(l3, B) == 0 && TotalSupply(l3) == 70 * One
  {
  }

  /** A self-transfer of 10 by a holder of 100 leaves 110, not 100, and the
      supply at 100. */
  lemma SelfTransferExample()
    ensures
      var l := Provide(Construct(O, O, None).value, A, A, 100 * One).value;
      && Transfer(l, A, A, A, 10 * One).Success?
      && BalanceOf(Transfer(l, A, A, A, 10 * One).value, A) == 110 * One
      && TotalSupply(Transfer(l, A, A, A, 10 * One).value) == 100 * One
      && TransferCorrected(l, A, A, A, 10 * One).value.balances == l.balances
  {
  }
}
