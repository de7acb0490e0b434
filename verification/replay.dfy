/** The ledger as a sequence of transactions, one instruction each. A transaction is
    atomic: a rejected one leaves every account as it was, and the next transaction
    sees the state left by the last committed one. */
module Replay {
  import opened Results
  import opened Uint
  import opened Pda
  import opened CounterProgram

  datatype Outcome = Committed | Rejected(reason: Failure)

  /** The final ledger and the outcome of each transaction, in order. */
  datatype Trace = Trace(ledger: Ledger, outcomes: seq<Outcome>)

  /** Applies one transaction to the ledger, all or nothing: a committed transaction
      leaves the ledger its instruction produced, a rejected one leaves the ledger as
      it was and carries the instruction's failure. */
  function Apply(ledger: Ledger, rt: Runtime, ix: Instruction): (r: (Ledger, Outcome))
    ensures r.1.Rejected? ==> r.0 == ledger
    ensures r.1.Committed? <==> Execute(ledger, rt, ix).Ok?
    ensures Execute(ledger, rt, ix).Ok? ==> r == (Execute(ledger, rt, ix).value, Committed)
    ensures Execute(ledger, rt, ix).Err? ==> r.1 == Rejected(Execute(ledger, rt, ix).error)
    ensures ledger.Keys <= r.0.Keys
  {
    match Execute(ledger, rt, ix)
    case Ok(next) => (next, Committed)
    case Err(e) => (ledger, Rejected(e))
  }

  /** Applies the transactions in order. Accounts are never closed and bumps are
      never rewritten, whatever the transactions are. */
  function Run(ledger: Ledger, rt: Runtime, txs: seq<Instruction>): (t: Trace)
    ensures |t.outcomes| == |txs|
    ensures ledger.Keys <= t.ledger.Keys
    ensures forall a :: a in ledger ==> t.ledger[a].bump == ledger[a].bump
    decreases |txs|
  {
    if |txs| == 0 then Trace(ledger, [])
    else
      var (next, outcome) := Apply(ledger, rt, txs[0]);
      var rest := Run(next, rt, txs[1..]);
      Trace(rest.ledger, [outcome] + rest.outcomes)
  }

  /** Every counter account sits at the PDA of some user, with the bump of that PDA. */
  ghost predicate WellFormed(rt: Runtime, ledger: Ledger)
  {
    forall a :: a in ledger ==> IsCounterPda(rt, a, ledger[a].bump)
  }

  /** Each instruction keeps every counter at a user's PDA: only `initialize` creates
      accounts, and it creates them only at the derived address with the derived bump. */
  lemma ExecutePreservesWellFormed(ledger: Ledger, rt: Runtime, ix: Instruction)
    requires WellFormed(rt, ledger)
    requires Execute(ledger, rt, ix).Ok?
    ensures WellFormed(rt, Execute(ledger, rt, ix).value)
  {
  }

  /** Any sequence of transactions keeps every counter at a user's PDA. */
  lemma {:induction false} RunPreservesWellFormed(ledger: Ledger, rt: Runtime, txs: seq<Instruction>)
    requires WellFormed(rt, ledger)
    ensures WellFormed(rt, Run(ledger, rt, txs).ledger)
    decreases |txs|
  {
    if |txs| > 0 {
      var (next, outcome) := Apply(ledger, rt, txs[0]);
      if outcome.Committed? {
        ExecutePreservesWellFormed(ledger, rt, txs[0]);
      }
      RunPreservesWellFormed(next, rt, txs[1..]);
    }
  }
}
