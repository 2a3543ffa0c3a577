/**
 * The accounts the pet program reads and writes: addresses and their
 * derivation, the pet record, the token account and mint it burns from, the
 * errors a transaction can end with, and the token program's `burn`.
 */
module Accounts {
  import opened Ints

  /** An on-curve public key, written in its base58 text form. */
  type Pubkey = string

  const PET_PROGRAM_ID: Pubkey := "PetyQKNeqSCSxyrjgiMJvyjU3aktgKmoEimVBCfRjZb"
  const TOKEN_PROGRAM_ID: Pubkey := "TokenkegQfeZyiNwAJbNbGKPFXCWuBvf9Ss623VQ5DA"
  const ASSOCIATED_TOKEN_PROGRAM_ID: Pubkey := "ATokenGPvbdGVxr1b2hGZbYjJeLYo8JMvzLM8TMwSkV"

  /** `constants::PET_SEED`, the bytes of "pet". */
  const PET_SEED: seq<bv8> := [0x70, 0x65, 0x74]

  /** Happiness of a freshly initialised pet. */
  const INITIAL_HAPPINESS: U8 := 100

  /**
   * An account address: either a key that has a private key (a wallet, a
   * mint keypair), or a program-derived address, kept symbolically as the
   * program and seeds it was derived from. Two derived addresses are equal
   * only when program and seeds are, and no derived address is a wallet key:
   * this is what the hash and the off-curve bump search guarantee.
   */
  datatype Address = OnCurve(key: Pubkey) | OffCurve(program: Pubkey, seeds: seq<Seed>)

  /** One seed of a derivation: literal bytes, or the 32 bytes of an address. */
  datatype Seed = Literal(bytes: seq<bv8>) | KeyOf(address: Address)

  /** `Pubkey::find_program_address(seeds, program)`. */
  function FindProgramAddress(seeds: seq<Seed>, program: Pubkey): (a: Address)
    ensures !a.OnCurve?
  {
    OffCurve(program, seeds)
  }

  /** The pet record's address for `owner`: seeds `[PET_SEED, owner]` under the pet program. */
  function PetAddress(owner: Pubkey): Address
  {
    FindProgramAddress([Literal(PET_SEED), KeyOf(OnCurve(owner))], PET_PROGRAM_ID)
  }

  /** The associated token account of `owner` for `mint`: seeds `[owner, token program, mint]`. */
  function AssociatedTokenAddress(owner: Pubkey, mint: Address): Address
  {
    FindProgramAddress([KeyOf(OnCurve(owner)), KeyOf(OnCurve(TOKEN_PROGRAM_ID)), KeyOf(mint)],
                       ASSOCIATED_TOKEN_PROGRAM_ID)
  }

  /** True of exactly the addresses `PetAddress(o)`, whatever `o`. */
  predicate IsPetAddress(a: Address)
  {
    a.OffCurve? && a.program == PET_PROGRAM_ID && |a.seeds| == 2 &&
    a.seeds[0] == Literal(PET_SEED) && a.seeds[1].KeyOf? && a.seeds[1].address.OnCurve?
  }

  /** `PetDataAccount`. */
  datatype PetDataAccount = PetDataAccount(happiness: U8, playedAtSlot: U64)

  /** The token program's account record, as far as `burn` uses it. */
  datatype TokenAccount = TokenAccount(mint: Address, owner: Address, amount: U64)

  /** The token program's mint record, as far as `burn` and the program use it. */
  datatype Mint = Mint(supply: U64, decimals: U8)

  /** The slice of the ledger the program touches. */
  datatype LedgerState = LedgerState(
    pets: map<Address, PetDataAccount>,
    tokenAccounts: map<Address, TokenAccount>,
    mints: map<Address, Mint>)

  /**
   * Which step panicked: an `unwrap` of `None` or, for `pow`, an
   * arithmetic-overflow panic. On chain every one is the same panic.
   */
  datatype PanicSite =
    | HappinessBelowAmount   // happiness.checked_sub(amount)
    | SlotBeforePlayedAt     // clock.slot.checked_sub(played_at_slot)
    | DiffExceedsU8          // diff.try_into::<u8>()
    | HappinessBelowDiff     // happiness.checked_sub(diff)
    | DecimalsPowOverflow    // 10u64.pow(decimals)
    | BurnAmountOverflow     // amount.checked_mul(10^decimals)

  datatype Error =
    | NoTokensToPlay          // the program's own error code
    | Panic(site: PanicSite)  // an unwrap of None or an arithmetic-overflow panic
    | AccountNotInitialized   // a required account does not exist
    | ConstraintAssociated    // the token account is not the signer's associated account for the mint
    | ConstraintSeeds         // the pet account is not derived from [PET_SEED, signer]
    | InsufficientFunds       // token program: balance below the burn amount
    | SupplyOverflow          // token program: mint supply below the burn amount

  datatype Result<T> = Ok(value: T) | Err(error: Error)

  /**
   * The token program's `burn` of `amount` from `account` of `mint`: the
   * balance must cover it, then balance and supply both drop by `amount`.
   * Only the token program's two checks on the amount are modelled; it is
   * the one definition of `burn`, which `PetProgram.Ledger.PlayPet` applies
   * to its state.
   */
  function Burn(st: LedgerState, account: Address, mint: Address, amount: U64): (r: Result<LedgerState>)
    requires account in st.tokenAccounts && mint in st.mints
  {
    var holder := st.tokenAccounts[account];
    var m := st.mints[mint];
    if holder.amount < amount then Err(InsufficientFunds)
    else if m.supply < amount then Err(SupplyOverflow)
    else Ok(st.(tokenAccounts := st.tokenAccounts[account := holder.(amount := holder.amount - amount)],
                mints := st.mints[mint := m.(supply := m.supply - amount)]))
  }
}
