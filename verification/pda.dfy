/** Addresses and program-derived address (PDA) derivation, treated as a
    deterministic function the model cannot look into. */
module Pda {
  import opened Results
  import opened Uint

  /** A 32-byte account address. */
  type Pubkey = s: seq<u8> | |s| == 32 witness seq(32, i => 0)

  /** A derivation: seeds and owning program id to the derived address and the bump
      byte found by the bump search, or `None` when the search is exhausted. Being a
      function value, the same seeds and program id always give the same answer. */
  type Deriver = (seq<seq<u8>>, Pubkey) -> Option<(Pubkey, u8)>

  /** The environment the program runs in: its own id (fixed by `declare_id!`) and
      the runtime's PDA derivation. */
  datatype Runtime = Runtime(programId: Pubkey, findProgramAddress: Deriver)

  /** The ASCII bytes of the seed tag "counter". */
  const CounterTag: seq<u8> := [0x63, 0x6f, 0x75, 0x6e, 0x74, 0x65, 0x72]

  /** The seed list of a user's counter account: the tag, then the user's key. */
  function CounterSeeds(user: Pubkey): (seeds: seq<seq<u8>>)
    ensures |seeds| == 2 && seeds[0] == CounterTag && seeds[1] == user
  {
    [CounterTag, user]
  }

  /** The counter address and bump derived for `user`. */
  function CounterAddress(rt: Runtime, user: Pubkey): Option<(Pubkey, u8)>
  {
    rt.findProgramAddress(CounterSeeds(user), rt.programId)
  }

  /** `address` with `bump` is the counter PDA of some user. */
  ghost predicate IsCounterPda(rt: Runtime, address: Pubkey, bump: u8)
  {
    exists user: Pubkey :: CounterAddress(rt, user) == Some((address, bump))
  }
}
