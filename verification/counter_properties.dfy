/** Properties that relate several instructions of the counter program. */
module CounterProperties {
  import opened Results
  import opened Uint
  import opened Pda
  import opened CounterProgram
  import opened Replay

  /** A committed `increment(a)` is undone by `decrement(a)`: the decrement is always
      accepted and gives back the very same ledger. */
  lemma IncrementThenDecrementRestores(ledger: Ledger, counter: Pubkey, amount: u64)
    requires Increment(ledger, counter, amount).Ok?
    ensures Decrement(Increment(ledger, counter, amount).value, counter, amount) == Ok(ledger)
  {
    var up := Increment(ledger, counter, amount).value;
    var down := Decrement(up, counter, amount);
    assert down.Ok?;
    assert down.value == ledger by {
      assert down.value.Keys == ledger.Keys;
      assert down.value[counter] == ledger[counter];
    }
  }

  /** The converse fails in general: after a committed `decrement(a)` from count `c`,
      `increment(a)` is accepted exactly when `2a >= c`, and then restores the ledger. */
  lemma DecrementThenIncrement(ledger: Ledger, counter: Pubkey, amount: u64)
    requires Decrement(ledger, counter, amount).Ok?
    ensures Increment(Decrement(ledger, counter, amount).value, counter, amount).Ok? <==>
              2 * amount >= ledger[counter].count
    ensures 2 * amount >= ledger[counter].count ==>
              Increment(Decrement(ledger, counter, amount).value, counter, amount) == Ok(ledger)
  {
    var down := Decrement(ledger, counter, amount).value;
    var up := Increment(down, counter, amount);
    if 2 * amount >= ledger[counter].count {
      assert CheckedAdd(down[counter].count, amount) == Some(ledger[counter].count);
      assert up.Ok?;
      assert up.value == ledger by {
        assert up.value.Keys == ledger.Keys;
        assert up.value[counter] == ledger[counter];
      }
    }
  }

  /** Because every accepted amount is at least the count, a counter at 2^63 or more
      can never be incremented again: every amount is rejected. */
  lemma HighCounterRejectsIncrement(ledger: Ledger, counter: Pubkey, amount: u64)
    requires counter in ledger && ledger[counter].count >= U64_LIMIT / 2
    ensures Increment(ledger, counter, amount).Err?
  {
  }

  /** Each user has at most one counter: once `initialize` is committed for `user`,
      every later `initialize` for that user is rejected, whatever transactions came
      in between and whatever address it names. */
  lemma InitializeOncePerUser(ledger: Ledger, rt: Runtime, user: Pubkey, counter: Pubkey,
                              txs: seq<Instruction>, other: Pubkey)
    requires Initialize(ledger, rt, user, counter).Ok?
    ensures Initialize(Run(Initialize(ledger, rt, user, counter).value, rt, txs).ledger, rt, user, other).Err?
  {
  }

  /** The transactions `increment(amounts[0])`, `increment(amounts[1])`, ... on one counter. */
  function Increments(counter: Pubkey, amounts: seq<u64>): (txs: seq<Instruction>)
    ensures |txs| == |amounts|
    ensures forall i :: 0 <= i < |amounts| ==> txs[i] == IncrementBy(counter, amounts[i])
  {
    seq(|amounts|, i requires 0 <= i < |amounts| => IncrementBy(counter, amounts[i]))
  }

  /** The transactions `decrement(amounts[0])`, `decrement(amounts[1])`, ... on one counter. */
  function Decrements(counter: Pubkey, amounts: seq<u64>): (txs: seq<Instruction>)
    ensures |txs| == |amounts|
    ensures forall i :: 0 <= i < |amounts| ==> txs[i] == DecrementBy(counter, amounts[i])
  {
    seq(|amounts|, i requires 0 <= i < |amounts| => DecrementBy(counter, amounts[i]))
  }

  predicate AllCommitted(outcomes: seq<Outcome>)
  {
    forall i :: 0 <= i < |outcomes| ==> outcomes[i].Committed?
  }

  function Sum(xs: seq<u64>): int
  {
    if |xs| == 0 then 0 else xs[0] + Sum(xs[1..])
  }

  /** A run whose transactions were all committed has its first transaction
      committed and the rest run, all committed, from the ledger it left. */
  lemma CommittedRunSplits(ledger: Ledger, rt: Runtime, txs: seq<Instruction>)
    requires |txs| > 0
    requires AllCommitted(Run(ledger, rt, txs).outcomes)
    ensures Execute(ledger, rt, txs[0]).Ok?
    ensures var next := Execute(ledger, rt, txs[0]).value;
            && AllCommitted(Run(next, rt, txs[1..]).outcomes)
            && Run(ledger, rt, txs).ledger == Run(next, rt, txs[1..]).ledger
  {
    var t := Run(ledger, rt, txs);
    var (next, outcome) := Apply(ledger, rt, txs[0]);
    var rest := Run(next, rt, txs[1..]);
    assert t.outcomes[0] == outcome;
    forall i | 0 <= i < |rest.outcomes|
      ensures rest.outcomes[i].Committed?
    {
      assert rest.outcomes[i] == t.outcomes[i + 1];
    }
  }

  lemma MulMonotonic(a: int, b: int, p: nat)
    requires a >= b
    ensures a * p >= b * p
  {
  }

  /** Every committed increment at least doubles the count, so `k` committed
      increments multiply it by at least 2^k. */
  lemma {:induction false} IncrementsDouble(ledger: Ledger, rt: Runtime, counter: Pubkey, amounts: seq<u64>)
    requires counter in ledger
    requires AllCommitted(Run(ledger, rt, Increments(counter, amounts)).outcomes)
    ensures Run(ledger, rt, Increments(counter, amounts)).ledger[counter].count
              >= ledger[counter].count * Pow2(|amounts|)
    decreases |amounts|
  {
    if |amounts| > 0 {
      var txs := Increments(counter, amounts);
      CommittedRunSplits(ledger, rt, txs);
      var next := Increment(ledger, counter, amounts[0]).value;
      assert Increments(counter, amounts[1..]) == txs[1..];
      IncrementsDouble(next, rt, counter, amounts[1..]);
      var c := ledger[counter].count;
      var p := Pow2(|amounts| - 1);
      MulMonotonic(next[counter].count, 2 * c, p);
      assert (2 * c) * p == c * (2 * p);
    }
  }

  /** Consequently a counter that is already positive accepts at most 63 increments in
      a row: the 64th would need a count of 2^64. */
  lemma IncrementRunIsShort(ledger: Ledger, rt: Runtime, counter: Pubkey, amounts: seq<u64>)
    requires counter in ledger && ledger[counter].count >= 1
    requires AllCommitted(Run(ledger, rt, Increments(counter, amounts)).outcomes)
    ensures |amounts| <= 63
  {
    IncrementsDouble(ledger, rt, counter, amounts);
    if |amounts| >= 64 {
      Pow2Monotonic(64, |amounts|);
      Pow2At64();
      assert false;
    }
  }

  /** Committed decrements take exactly their total off the count; that total never
      exceeds the starting count, and no other account changes. */
  lemma {:induction false} DecrementsSubtract(ledger: Ledger, rt: Runtime, counter: Pubkey, amounts: seq<u64>)
    requires counter in ledger
    requires AllCommitted(Run(ledger, rt, Decrements(counter, amounts)).outcomes)
    ensures Sum(amounts) <= ledger[counter].count
    ensures Run(ledger, rt, Decrements(counter, amounts)).ledger[counter].count
              == ledger[counter].count - Sum(amounts)
    ensures OthersUnchanged(ledger, Run(ledger, rt, Decrements(counter, amounts)).ledger, counter)
    decreases |amounts|
  {
    if |amounts| > 0 {
      var txs := Decrements(counter, amounts);
      CommittedRunSplits(ledger, rt, txs);
      assert Decrements(counter, amounts[1..]) == txs[1..];
      DecrementsSubtract(Decrement(ledger, counter, amounts[0]).value, rt, counter, amounts[1..]);
    }
  }

  /** The walkthrough: `initialize`, `increment(100)`, `decrement(50)` leave the user's
      counter at 50; a following `increment(0)` is rejected with `InvalidAmount` and
      changes nothing. */
  lemma Walkthrough(ledger: Ledger, rt: Runtime, user: Pubkey, counter: Pubkey, bump: u8)
    requires CounterAddress(rt, user) == Some((counter, bump))
    requires counter !in ledger
    ensures var t := Run(ledger, rt, [InitializeCounter(user, counter), IncrementBy(counter, 100),
                                      DecrementBy(counter, 50), IncrementBy(counter, 0)]);
            && t.outcomes == [Committed, Committed, Committed, Rejected(Program(InvalidAmount))]
            && t.ledger == ledger[counter := Counter(50, bump)]
  {
    var txs := [InitializeCounter(user, counter), IncrementBy(counter, 100),
                DecrementBy(counter, 50), IncrementBy(counter, 0)];
    var l1 := ledger[counter := Counter(0, bump)];
    var l2 := ledger[counter := Counter(100, bump)];
    var l3 := ledger[counter := Counter(50, bump)];
    assert Apply(ledger, rt, txs[0]) == (l1, Committed);
    assert Apply(l1, rt, txs[1]) == (l2, Committed) by {
      assert CheckedAdd(0, 100) == Some(100);
      assert l1[counter := Counter(100, bump)] == l2;
    }
    assert Apply(l2, rt, txs[2]) == (l3, Committed) by {
      assert l2[counter := Counter(50, bump)] == l3;
    }
    assert Apply(l3, rt, txs[3]) == (l3, Rejected(Program(InvalidAmount)));
    assert txs[1..][1..][1..][1..] == [];
    assert Run(l3, rt, txs[1..][1..][1..]) == Trace(l3, [Rejected(Program(InvalidAmount))]);
    assert Run(l2, rt, txs[1..][1..]) == Trace(l3, [Committed, Rejected(Program(InvalidAmount))]);
    assert Run(l1, rt, txs[1..]) == Trace(l3, [Committed, Committed, Rejected(Program(InvalidAmount))]);
  }
}
