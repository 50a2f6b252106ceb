# Token ledger model

A Dafny model of the `Token` smart contract of neo-one (`neo-one/contracts/Token.ts`): a single-owner fungible-token ledger with:

- a balance map from address to `Fixed<8>` amount, where an absent address reads as 0;
- a total-supply scalar;
- an immutable owner.

The ledger is an immutable `Token.Ledger` value. It holds the balance map, the supply, the owner and the log of `transfer` notifications emitted so far. Each contract entry point is a pure function of (ledger, signing caller, arguments) that returns `Result<Ledger, Error>`. A `Failure` is a thrown error: the host discards the invocation, so the ledger is left as it was.

Modules:

- `Wrappers`: `Option` (for `Address | undefined`) and `Result`.
- `Balances`: addresses, amounts as scaled integers (1 token = `One` = 10^8), the get-or-default lookup, and the sum of a balance map with its update lemmas.
- `Token`: the constructor, `totalSupply`, `balanceOf`, `transfer`, `issue`, `provide` and `removeTokens`; conservation and non-negativity, operation by operation; and a corrected `transfer`.
- `Trace`: sequences of signed invocations, all-or-nothing application, and conservation and non-negativity across whole traces.
- `Scenarios`: concrete runs on fixed addresses.

`Address.isCaller(x)` is modelled as `caller == x` for an explicit `caller` parameter. `Deploy.senderAddress` is a `sender` parameter to `Token.Construct`; the owner defaults to it. `TotalSupply` is the getter of `mutableSupply`. In a conserved ledger it equals the sum of all balances.

Two behaviours of the code run against the ledger's invariants. The model follows the code in both:

- `transfer` reads the receiver's balance (line 58) before it writes the sender's (line 59). So `transfer(a, a, x)` leaves `a` holding `old + x` while the supply is unchanged. A self-transfer is expected to leave the balance unchanged: it is the only call to `transfer` that breaks conservation, which every other operation keeps. The as-written semantics therefore conserves supply only across traces without non-zero self-transfers (`Trace.RunConserves`). `Token.TransferCorrected` reads the receiver after the debit, and under it conservation holds for every trace (`Trace.RunCorrectedConserves`). `Trace.Semantics` selects which `transfer` a trace runs.
- `issue` has no check on the sign of `amount`, unlike `transfer` and `removeTokens`. The model keeps this gap: the owner can issue a negative amount and drive a balance below zero (`Token.IssueNegativeBreaksNonNegativity`). Non-negativity across traces is proved for traces without negative mints.

## Model

| member | source | states |
|---|---|---|
| Token.Construct | neo-one/contracts/Token.ts:22-30 | deployment succeeds iff the caller is the owner (the argument, defaulting to the deploy sender); otherwise it throws `SenderNotOwner`; on success supply is 0, every balance reads 0, the log is empty and the ledger is valid |
| Token.TotalSupply | neo-one/contracts/Token.ts:32-35 | the supply scalar; in a conserved ledger (`Conserved`) it equals the sum of all balances, and `Token.BalanceBoundedBySupply` bounds every balance by it |
| Token.BalanceOf | neo-one/contracts/Token.ts:37-42 | the stored balance of an address, or 0 when it has no entry |
| Token.BalanceBoundedBySupply | neo-one/contracts/Token.ts:32-42 | in a valid ledger every balance is at least 0 and at most the total supply |
| Token.Transfer | neo-one/contracts/Token.ts:44-64 | throws `NegativeAmount` on amount < 0, then `FromNotApproved` unless `from` signed, then `InsufficientBalance` when balance < amount; succeeds exactly otherwise; on success the supply and owner are unchanged, `to` gains amount, `from` (when distinct) loses it, no other address changes, and one event (from, to, amount) is appended |
| Token.TransferConserves | neo-one/contracts/Token.ts:53-60 | a successful transfer between distinct addresses preserves supply == sum of balances |
| Token.TransferNonNegative | neo-one/contracts/Token.ts:53-60 | a successful transfer, self-transfers included, keeps every balance non-negative |
| Token.SelfTransferMints | neo-one/contracts/Token.ts:58-60 | a successful self-transfer ends at old + amount, the balances then sum to supply + amount, and conservation survives iff amount is 0 |
| Token.Mint | neo-one/contracts/Token.ts:70-72 | credits the address by amount, raises the supply by amount, leaves other addresses and the owner alone, and appends (none, addr, amount) |
| Token.Issue | neo-one/contracts/Token.ts:66-73 | succeeds iff the owner signed, otherwise throws `NotOwner`; on success it has the effect of `Mint` for any amount, negative included |
| Token.Provide | neo-one/contracts/Token.ts:75-80 | succeeds for every caller with the effect of `Mint` |
| Token.RemoveTokens | neo-one/contracts/Token.ts:82-101 | throws `NegativeAmount`, then `FromNotApproved` unless addr signed, then `InsufficientBalance`; succeeds exactly otherwise; on success addr and the supply both drop by amount, nothing else changes, and (addr, none, amount) is appended |
| Token.MintConserves | neo-one/contracts/Token.ts:70-71 | issue and provide raise the sum of balances and the supply by the same amount, so conservation is preserved |
| Token.MintNonNegative | neo-one/contracts/Token.ts:70 | minting a non-negative amount keeps every balance non-negative |
| Token.IssueNegativeBreaksNonNegativity | neo-one/contracts/Token.ts:66-73 | the owner's issue of an amount below minus the balance succeeds and leaves a negative balance |
| Token.RemoveTokensConserves | neo-one/contracts/Token.ts:97-98 | a successful burn preserves conservation |
| Token.RemoveTokensNonNegative | neo-one/contracts/Token.ts:92-97 | a successful burn keeps every balance non-negative |
| Token.TransferCorrected | neo-one/contracts/Token.ts:58-60 | agrees with `transfer` on every failure and on every transfer between distinct addresses; a successful self-transfer leaves the balance map unchanged in value |
| Token.TransferCorrectedConserves | neo-one/contracts/Token.ts:53-60 | the corrected transfer preserves conservation for every input |
| Token.TransferCorrectedNonNegative | neo-one/contracts/Token.ts:53-60 | the corrected transfer keeps balances non-negative |
| Trace.Invoke | neo-one/contracts/Token.ts:11-16 | a successful call appends exactly the event its kind prescribes (transfer: both ends; mint: no from; burn: no to) and keeps the owner; provide always succeeds; issue succeeds iff the owner signed; a negative transfer or burn fails |
| Trace.FailedCallRemovable | neo-one/contracts/Token.ts:44-101 | all or nothing: a call that throws can be removed from any trace without changing the final ledger, notification log included |
| Trace.ApplyConserves | neo-one/contracts/Token.ts:44-101 | one invocation preserves conservation unless it is a non-zero self-transfer under the as-written semantics |
| Trace.ApplyNonNegative | neo-one/contracts/Token.ts:44-101 | one invocation preserves non-negativity unless it mints a negative amount |
| Trace.RunConserves | neo-one/contracts/Token.ts:44-101 | as written, every trace without non-zero self-transfers preserves conservation |
| Trace.RunCorrectedConserves | neo-one/contracts/Token.ts:58-60 | with the corrected transfer, every trace preserves conservation |
| Trace.RunNonNegative | neo-one/contracts/Token.ts:44-101 | every trace without negative mints preserves non-negativity |
| Trace.RunCorrectedValid | neo-one/contracts/Token.ts:22-101 | every ledger reachable from a deployment, with the corrected transfer and without negative mints, is conserved and non-negative |
| Trace.RunAppendsEvents | neo-one/contracts/Token.ts:25 | along any trace the owner never changes, and the notification log only grows, by at most one event per invocation |
| Scenarios.IssueTransferBurn | neo-one/contracts/Token.ts:44-101 | deploy, issue 100 to A, transfer 30 to B (70/30, supply 100); a 1000 transfer throws `InsufficientBalance`; a non-owner issue throws `NotOwner`; B burns 30 (B 0, supply 70) |
| Scenarios.SelfTransferExample | neo-one/contracts/Token.ts:58-60 | a holder of 100 self-transferring 10 ends with 110 while the supply stays 100; the corrected transfer leaves the balances as they were |

## Findings

| source | as written | input that shows it | evidently intended | confidence | as-written member | corrected member |
|---|---|---|---|---|---|---|
| neo-one/contracts/Token.ts:58-60 | the receiver's balance is read before the sender's is written, so the second write overwrites the debit | `transfer(a, a, 10)` signed by `a` holding 100: `a` ends with 110, the supply stays 100 | a self-transfer leaves the balance unchanged, preserving conservation | not executed; high (the proof and `Scenarios.SelfTransferExample` both show it) | Token.SelfTransferMints | Token.TransferCorrectedConserves |

## Left out

- Persistence behind `MapStorage`: the balance map is a Dafny `map` read with get-or-default. Storage failures are not modelled.
- Witness checking behind `Address.isCaller`: one explicit signing `caller` per invocation stands in for it.
- Delivery and indexing of `createEventNotifier` events: notifications are an append-only `seq` of records.
- The `SmartContract` base class and the `@constant` decorator: these are host constructs. Read-only operations are simply functions that return no ledger.
- The static `name`, `symbol` and `decimals` fields: they carry no behaviour (`Balances.Decimals` records the scale).
- Value-range limits of `Fixed<8>`: amounts are unbounded integers, because the host's numeric bounds are not part of the contract.
- Address length: an address is any byte sequence rather than a fixed-length script hash. No operation depends on the length.
- Error message text: each distinct message is one constructor of `Token.Error`.
- The `true` that `transfer` and `removeTokens` return: a `Success` carries it implicitly.
- Trace.RunAppendsEvents: bounds the growth of the log by the number of invocations instead of counting successful ones exactly. The exact per-call statement is the ensures of `Trace.Invoke`, together with `Trace.FailedCallRemovable`.
