/** Sequences of invocations against one ledger. The host runs invocations one
    at a time, each to completion; one that throws leaves the ledger as it was. */
module Trace {
  import opened Wrappers
  import opened Balances
  import Token

  /** A public mutating entry point of the contract, with its arguments. */
  datatype Call =
    | Transfer(from: Address, to: Address, amount: Amount)
    | Issue(addr: Address, amount: Amount)
    | Provide(addr: Address, amount: Amount)
    | RemoveTokens(addr: Address, amount: Amount)

  /** A call together with the address that signed it. */
  datatype Invocation = Invocation(caller: Address, call: Call)

  /** Which `transfer` the trace runs: the one the contract has, or the one
      that reads the receiver's balance after debiting the sender. */
  datatype Semantics = AsWritten | Corrected

  /** The notification a successful call emits. */
  function EventOf(c: Call): Token.TransferEvent {
    match c
    case Transfer(from, to, amount) => Token.TransferEvent(Some(from), Some(to), amount)
    case Issue(addr, amount) => Token.TransferEvent(None, Some(addr), amount)
    case Provide(addr, amount) => Token.TransferEvent(None, Some(addr), amount)
    case RemoveTokens(addr, amount) => Token.TransferEvent(Some(addr), None, amount)
  }

  /** Dispatches one invocation to the contract. */
  function Invoke(sem: Semantics, l: Token.Ledger, inv: Invocation): (r: Result<Token.Ledger, Token.Error>)
    ensures r.Success? ==> r.value.events == l.events + [EventOf(inv.call)]
    ensures r.Success? ==> r.value.owner == l.owner
    ensures inv.call.Provide? ==> r.Success?
    ensures inv.call.Issue? ==> (r.Success? <==> inv.caller == l.owner)
    ensures inv.call.Transfer? || inv.call.RemoveTokens? ==> inv.call.amount < 0 ==> r.Failure?
  {
    match inv.call
    case Transfer(from, to, amount) =>
      if sem == AsWritten then Token.Transfer(l, inv.caller, from, to, amount)
      else Token.TransferCorrected(l, inv.caller, from, to, amount)
    case Issue(addr, amount) => Token.Issue(l, inv.caller, addr, amount)
    case Provide(addr, amount) => Token.Provide(l, inv.caller, addr, amount)
    case RemoveTokens(addr, amount) => Token.RemoveTokens(l, inv.caller, addr, amount)
  }

  /** The ledger after one invocation: the new ledger on success, the old one
      when the call throws. */
  function Apply(sem: Semantics, l: Token.Ledger, inv: Invocation): Token.Ledger {
    match Invoke(sem, l, inv)
    case Success(next) => next
    case Failure(_) => l
  }

  /** The ledger after a sequence of invocations, in order. */
  function Run(sem: Semantics, l: Token.Ledger, invs: seq<Invocation>): Token.Ledger
    decreases |invs|
  {
    if invs == [] then l else Run(sem, Apply(sem, l, invs[0]), invs[1..])
  }

  /** All or nothing: a call that throws can be dropped from any trace
      without changing where the trace ends. */
  lemma FailedCallRemovable(sem: Semantics, l: Token.Ledger, inv: Invocation, invs: seq<Invocation>)
    requires Invoke(sem, l, inv).Failure?
    ensures Run(sem, l, [inv] + invs) == Run(sem, l, invs)
  {
  }

  /** A self-transfer of a non-zero amount: the one call that, as written,
      breaks conservation. */
  predicate SelfMint(inv: Invocation) {
    inv.call.Transfer? && inv.call.from == inv.call.to && inv.call.amount != 0
  }

  /** A mint of a negative amount: the one call that breaks non-negativity. */
  predicate NegativeMint(inv: Invocation) {
    (inv.call.Issue? || inv.call.Provide?) && inv.call.amount < 0
  }

  /** One invocation preserves conservation unless it is a self-mint under the
      as-written semantics. */
  lemma ApplyConserves(sem: Semantics, l: Token.Ledger, inv: Invocation)
    requires Token.Conserved(l)
    requires sem == AsWritten ==> !SelfMint(inv)
    ensures Token.Conserved(Apply(sem, l, inv))
  {
    var r := Invoke(sem, l, inv);
    if r.Success? {
      match inv.call
      case Transfer(from, to, amount) =>
        if sem == Corrected {
          Token.TransferCorrectedConserves(l, inv.caller, from, to, amount);
        } else if from != to {
          Token.TransferConserves(l, inv.caller, from, to, amount);
        } else {
          Token.SelfTransferMints(l, from, amount);
        }
      case Issue(addr, amount) => Token.MintConserves(l, addr, amount);
      case Provide(addr, amount) => Token.MintConserves(l, addr, amount);
      case RemoveTokens(addr, amount) => Token.RemoveTokensConserves(l, inv.caller, addr, amount);
    }
  }

  /** One invocation preserves non-negativity unless it mints a negative amount. */
  lemma ApplyNonNegative(sem: Semantics, l: Token.Ledger, inv: Invocation)
    requires NonNegative(l.balances)
    requires !NegativeMint(inv)
    ensures NonNegative(Apply(sem, l, inv).balances)
  {
  }

  /** As written, conservation holds across any trace without self-mints. */
  lemma {:induction false} RunConserves(l: Token.Ledger, invs: seq<Invocation>)
    requires Token.Conserved(l)
    requires forall i :: 0 <= i < |invs| ==> !SelfMint(invs[i])
    ensures Token.Conserved(Run(AsWritten, l, invs))
    decreases |invs|
  {
    if invs != [] {
      ApplyConserves(AsWritten, l, invs[0]);
      RunConserves(Apply(AsWritten, l, invs[0]), invs[1..]);
    }
  }

  /** With the corrected transfer, conservation holds across every trace. */
  lemma {:induction false} RunCorrectedConserves(l: Token.Ledger, invs: seq<Invocation>)
    requires Token.Conserved(l)
    ensures Token.Conserved(Run(Corrected, l, invs))
    decreases |invs|
  {
    if invs != [] {
      ApplyConserves(Corrected, l, invs[0]);
      RunCorrectedConserves(Apply(Corrected, l, invs[0]), invs[1..]);
    }
  }

  /** Balances stay non-negative across any trace that mints no negative amount. */
  lemma {:induction false} RunNonNegative(sem: Semantics, l: Token.Ledger, invs: seq<Invocation>)
    requires NonNegative(l.balances)
    requires forall i :: 0 <= i < |invs| ==> !NegativeMint(invs[i])
    ensures NonNegative(Run(sem, l, invs).balances)
    decreases |invs|
  {
    if invs != [] {
      ApplyNonNegative(sem, l, invs[0]);
      RunNonNegative(sem, Apply(sem, l, invs[0]), invs[1..]);
    }
  }

  /** From a fresh deployment, with the corrected transfer and no negative
      mints, every reachable ledger is valid. */
  lemma RunCorrectedValid(caller: Address, sender: Address, owner: Option<Address>, invs: seq<Invocation>)
    requires Token.Construct(caller, sender, owner).Success?
    requires forall i :: 0 <= i < |invs| ==> !NegativeMint(invs[i])
    ensures Token.Valid(Run(Corrected, Token.Construct(caller, sender, owner).value, invs))
  {
    var l := Token.Construct(caller, sender, owner).value;
    RunCorrectedConserves(l, invs);
    RunNonNegative(Corrected, l, invs);
  }

  /** The owner never changes and the notification log only grows, by at most
      one event per invocation. */
  lemma {:induction false} RunAppendsEvents(sem: Semantics, l: Token.Ledger, invs: seq<Invocation>)
    ensures Run(sem, l, invs).owner == l.owner
    ensures l.events <= Run(sem, l, invs).events
    ensures |Run(sem, l, invs).events| <= |l.events| + |invs|
    decreases |invs|
  {
    if invs != [] {
      var next := Apply(sem, l, invs[0]);
      RunAppendsEvents(sem, next, invs[1..]);
    }
  }
}
