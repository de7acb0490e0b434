# Counter program model

A Dafny model of the Anchor counter program `counter_program`. Each user owns one
`Counter { count: u64, bump: u8 }` account. The account lives at the program-derived
address (PDA) of the seeds `["counter", user key]`. Three instructions act on it:

- `initialize` creates the account with `count = 0` and stores the bump found by the derivation.
- `increment(amount)` adds `amount`. It is accepted only when `amount > 0 && amount >= count`.
- `decrement(amount)` subtracts `amount`. It is accepted only when `amount > 0 && amount <= count`.

Both guards fail with the program's single error code, `InvalidAmount`.

The model keeps the program's `Counter` accounts as a ledger, `map<Pubkey, Counter>`.
Instructions are pure functions from a ledger to `Result<Ledger, Failure>`.
`Failure` keeps the program's own error (`Program(InvalidAmount)`) apart from rejections
raised by the framework or runtime: a seeds mismatch, an account already in use, a missing
account, an arithmetic overflow and an exhausted bump search.
`Replay.Apply` applies one transaction to the ledger, all or nothing: it is either committed or rejected. `Replay.Run` applies a sequence of one-instruction transactions in order. These model the ledger's state changes, not a client submitting transactions or waiting for confirmation.

Files:

- `results.dfy`: `Option` and `Result`.
- `uint.dfy`: `u8` and `u64` as ranges of `int`, checked addition, powers of two.
- `pda.dfy`: addresses, the seed list of a counter, and PDA derivation as a function value.
- `counter_program.dfy`: the account record, the error codes, and the three instructions.
- `replay.dfy`: transactions in sequence, and the invariant that every counter sits at a user's PDA.
- `counter_properties.dfy`: round trips, the doubling forced by the increment guard, chains of decrements, and the walkthrough sequence.

Modelling decisions:

- **Overflow.** `count += amount` is modelled as a checked addition. A sum above 2^64 - 1 rejects the transaction with `ArithmeticOverflow`; it never wraps. This assumes the program is built with overflow checks on, as Anchor workspaces configure by default. The build profile is not part of this model.
- **PDA derivation.** The derivation is the `findProgramAddress` field of `Pda.Runtime`. It is a function from seeds and program id to `Option<(address, bump)>`. Being a function, it is deterministic. `None` means the bump search found no off-curve address.
- **Program id.** The program id fixed by `declare_id!` is the `programId` field of the same `Runtime`. Its base58 value plays no part in the behaviour.
- **Initialize checks.** The order of checks is: derive the PDA; reject a `counter` account other than the PDA (`ConstraintSeeds`); reject an address that already holds an account (`AccountAlreadyInUse`).
- **No ownership check.** `increment` and `decrement` take only the counter address. Their account structs do not re-check the seeds, so any signer may name any counter. Nothing in the signatures ties the counter to the signer.
- **Error message versus guard.** The increment guard also rejects `0 < amount < count`, although the error's message only says the amount must be greater than 0. The model follows the code: `CounterProgram.Increment` returns `Program(InvalidAmount)` for those amounts too.

## Model

| member | source | states |
|---|---|---|
| `CounterProgram.Initialize` | programs/counter-program/src/lib.rs:9-14 | Accepted exactly when the user's counter PDA exists, equals the given address and holds no account. The new account has count 0 and the derived bump; every existing account keeps its record. Each rejection carries its reason. |
| `CounterProgram.Increment` | programs/counter-program/src/lib.rs:16-23 | Accepted exactly when the account exists, `0 < amount`, `count <= amount` and `count + amount <= 2^64 - 1`. A missing account is rejected. `amount == 0` or `amount < count` gives `InvalidAmount`. A sum above 2^64 - 1 gives `ArithmeticOverflow`. On success the count grows by `amount`, so it at least doubles and strictly grows. The bump and every other account are unchanged. |
| `CounterProgram.Decrement` | programs/counter-program/src/lib.rs:25-32 | Accepted exactly when the account exists and `0 < amount <= count`; otherwise `InvalidAmount` (or a missing account). On success the count is `count - amount`: it never underflows and is strictly smaller. The bump and every other account are unchanged. |
| `CounterProgram.Execute` | programs/counter-program/src/lib.rs:9-32 | No instruction removes an account or changes a stored bump. Only `initialize` adds an account. |
| `Uint.CheckedAdd` | programs/counter-program/src/lib.rs:21 | The `u64` sum fails exactly when the true sum exceeds 2^64 - 1; otherwise it is the true sum. |
| `Replay.Apply` | programs/counter-program/src/lib.rs:9-32 | A transaction commits exactly when its instruction succeeds, and then leaves the ledger that instruction produced. A rejected transaction leaves the ledger exactly as it was and carries the instruction's failure. |
| `Replay.Run` | programs/counter-program/src/lib.rs:9-32 | Gives one outcome per transaction. Over any sequence of transactions, no account disappears and no bump is rewritten. |
| `Replay.ExecutePreservesWellFormed` | programs/counter-program/src/lib.rs:37-43 | If every counter sits at some user's PDA with that PDA's bump, this still holds after any committed instruction. |
| `Replay.RunPreservesWellFormed` | programs/counter-program/src/lib.rs:37-43 | The same invariant holds after any sequence of transactions. |
| `CounterProperties.InitializeOncePerUser` | programs/counter-program/src/lib.rs:37-43 | After a committed `initialize` for a user, an `initialize` for that user is rejected after any sequence of transactions, whatever address it names. |
| `Pda.CounterSeeds` | programs/counter-program/src/lib.rs:39 | A counter's seed list is exactly two seeds: the ASCII tag `counter`, then the user's key. |
| `CounterProperties.IncrementThenDecrementRestores` | programs/counter-program/src/lib.rs:16-32 | After a committed `increment(a)`, `decrement(a)` is always accepted and restores the whole ledger. |
| `CounterProperties.DecrementThenIncrement` | programs/counter-program/src/lib.rs:16-32 | After a committed `decrement(a)` from count `c`, `increment(a)` is accepted if and only if `2a >= c`. When accepted, it restores the whole ledger. |
| `CounterProperties.HighCounterRejectsIncrement` | programs/counter-program/src/lib.rs:17-21 | A counter at 2^63 or more rejects every increment. |
| `CounterProperties.IncrementsDouble` | programs/counter-program/src/lib.rs:17-21 | If `k` increments in a row are all committed on a counter, its count ends at least 2^k times its starting value. |
| `CounterProperties.IncrementRunIsShort` | programs/counter-program/src/lib.rs:17-21 | A positive counter accepts at most 63 increments in a row. |
| `CounterProperties.DecrementsSubtract` | programs/counter-program/src/lib.rs:25-32 | If a run of decrements is all committed, their total is at most the starting count and the count ends lower by exactly that total. Every other account is unchanged. |
| `CounterProperties.Walkthrough` | programs/counter-program/src/lib.rs:9-32 | `initialize`, `increment(100)`, `decrement(50)`, `increment(0)` give the outcomes committed, committed, committed, then rejected with `InvalidAmount`. The counter ends at 50 with the derived bump. |

## Left out

- PDA derivation internals: hashing, the off-curve test and the bump search are a function value the model cannot look into. Only determinism and "found or exhausted" are modelled.
- Anchor account validation beyond the seeds check: `Signer` checks, owner and discriminator checks, the `mut` flags, and the system-program call that creates the account. A missing or foreign account is modelled as a single `AccountNotInitialized` rejection.
- Rent, lamports and the `payer` of `initialize`: the ledger holds only this program's `Counter` accounts. Other accounts at a counter address, and funding failures, are not modelled.
- Account serialization, the discriminator and the `INIT_SPACE` constant: these are encoding details with no behaviour beyond the constant.
- Error message strings: only the single error kind `InvalidAmount` is distinguished.
- Transactions holding several instructions: each transaction carries one instruction.
- Client-side test harness, transaction submission, confirmation polling and RPC: none of these are in the program. They are I/O and asynchronous.
