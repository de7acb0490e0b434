/** The counter program: a `Counter` account per user, created by `initialize` at
    the user's PDA and changed by `increment` and `decrement`. The ledger holds the
    program's `Counter` accounts, keyed by address. */
module CounterProgram {
  import opened Results
  import opened Uint
  import opened Pda

  /** The account record: the current count and the bump of its address. */
  datatype Counter = Counter(count: u64, bump: u8)

  /** The program's own error codes. */
  datatype CounterError = InvalidAmount

  /** Why a transaction carrying one instruction is rejected. */
  datatype Failure =
    | Program(code: CounterError)   // raised by the instruction handler
    | ArithmeticOverflow            // the checked `count += amount` panicked
    | ConstraintSeeds               // the counter passed to `initialize` is not the user's PDA
    | AccountAlreadyInUse           // `init` on an address that already holds an account
    | AccountNotInitialized         // no `Counter` at the address given to increment/decrement
    | DerivationExhausted           // no bump gives an off-curve address for the seeds

  type Ledger = map<Pubkey, Counter>

  /** `after` has the same accounts as `before`, and all but `except` hold the same record. */
  ghost predicate OthersUnchanged(before: Ledger, after: Ledger, except: Pubkey)
  {
    && after.Keys == before.Keys
    && forall a :: a in before && a != except ==> after[a] == before[a]
  }

  /** `initialize`: creates the counter of `user` at `counter`, with count 0 and the
      bump found by the derivation. Fails unless `counter` is the user's PDA, and
      fails if an account already lives there. */
  function Initialize(ledger: Ledger, rt: Runtime, user: Pubkey, counter: Pubkey): (r: Result<Ledger, Failure>)
    ensures CounterAddress(rt, user).None? ==> r == Err(DerivationExhausted)
    ensures CounterAddress(rt, user).Some? && CounterAddress(rt, user).value.0 != counter ==>
              r == Err(ConstraintSeeds)
    ensures CounterAddress(rt, user).Some? && CounterAddress(rt, user).value.0 == counter && counter in ledger ==>
              r == Err(AccountAlreadyInUse)
    ensures r.Ok? <==> exists bump: u8 :: CounterAddress(rt, user) == Some((counter, bump)) && counter !in ledger
    ensures r.Ok? ==>
              && r.value.Keys == ledger.Keys + {counter}
              && r.value[counter] == Counter(0, CounterAddress(rt, user).value.1)
              && forall a :: a in ledger ==> r.value[a] == ledger[a]
  {
    match CounterAddress(rt, user)
    case None => Err(DerivationExhausted)
    case Some((address, bump)) =>
      if address != counter then Err(ConstraintSeeds)
      else if counter in ledger then Err(AccountAlreadyInUse)
      else Ok(ledger[counter := Counter(0, bump)])
  }

  /** `increment`: adds `amount` to the count. The handler accepts only an amount that
      is positive and at least the current count; the sum must fit in 64 bits. Any
      signer may name any counter. */
  function Increment(ledger: Ledger, counter: Pubkey, amount: u64): (r: Result<Ledger, Failure>)
    ensures counter !in ledger ==> r == Err(AccountNotInitialized)
    ensures counter in ledger && (amount == 0 || amount < ledger[counter].count) ==>
              r == Err(Program(InvalidAmount))
    ensures counter in ledger && 0 < amount && ledger[counter].count <= amount
              && ledger[counter].count + amount > U64_MAX ==>
              r == Err(ArithmeticOverflow)
    ensures r.Ok? <==>
              && counter in ledger
              && 0 < amount
              && ledger[counter].count <= amount
              && ledger[counter].count + amount <= U64_MAX
    ensures r.Ok? ==>
              && counter in ledger
              && OthersUnchanged(ledger, r.value, counter)
              && r.value[counter].count == ledger[counter].count + amount
              && r.value[counter].count >= 2 * ledger[counter].count
              && r.value[counter].count > ledger[counter].count
              && r.value[counter].bump == ledger[counter].bump
  {
    if counter !in ledger then Err(AccountNotInitialized)
    else
      var c := ledger[counter];
      if !(amount > 0 && amount >= c.count) then Err(Program(InvalidAmount))
      else match CheckedAdd(c.count, amount)
        case None => Err(ArithmeticOverflow)
        case Some(sum) => Ok(ledger[counter := c.(count := sum)])
  }

  /** `decrement`: subtracts `amount` from the count. The handler accepts only an
      amount that is positive and at most the current count, so the subtraction never
      wraps. Any signer may name any counter. */
  function Decrement(ledger: Ledger, counter: Pubkey, amount: u64): (r: Result<Ledger, Failure>)
    ensures counter !in ledger ==> r == Err(AccountNotInitialized)
    ensures counter in ledger && (amount == 0 || amount > ledger[counter].count) ==>
              r == Err(Program(InvalidAmount))
    ensures r.Ok? <==> counter in ledger && 0 < amount <= ledger[counter].count
    ensures r.Ok? ==>
              && OthersUnchanged(ledger, r.value, counter)
              && r.value[counter].count + amount == ledger[counter].count
              && r.value[counter].count < ledger[counter].count
              && r.value[counter].bump == ledger[counter].bump
  {
    if counter !in ledger then Err(AccountNotInitialized)
    else
      var c := ledger[counter];
      if !(amount > 0 && amount <= c.count) then Err(Program(InvalidAmount))
      else Ok(ledger[counter := c.(count := c.count - amount)])
  }

  /** The program's instructions with their accounts and arguments. */
  datatype Instruction =
    | InitializeCounter(user: Pubkey, counter: Pubkey)
    | IncrementBy(counter: Pubkey, amount: u64)
    | DecrementBy(counter: Pubkey, amount: u64)

  /** Runs one instruction. No instruction removes an account or changes a bump. */
  function Execute(ledger: Ledger, rt: Runtime, ix: Instruction): (r: Result<Ledger, Failure>)
    ensures r.Ok? ==> ledger.Keys <= r.value.Keys
    ensures r.Ok? ==> forall a :: a in ledger ==> r.value[a].bump == ledger[a].bump
    ensures r.Ok? && !ix.InitializeCounter? ==> r.value.Keys == ledger.Keys
  {
    match ix
    case InitializeCounter(user, counter) => Initialize(ledger, rt, user, counter)
    case IncrementBy(counter, amount) => Increment(ledger, counter, amount)
    case DecrementBy(counter, amount) => Decrement(ledger, counter, amount)
  }
}
