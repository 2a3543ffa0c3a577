/**
 * What the pet program's two instructions do to the ledger, stated over
 * unbounded integers: each one either yields the whole new state or an error,
 * and an error commits nothing. `PetProgram.Ledger` implements these step by
 * step with the program's checked arithmetic.
 */
module PetSpec {
  import opened Ints
  import opened Accounts

  /** The account checks Anchor makes before `initialize` runs (`InitializePet`). */
  function InitializeAccountsError(signer: Pubkey, newPetAccount: Address): Option<Error>
  {
    if newPetAccount != PetAddress(signer) then Some(ConstraintSeeds) else None
  }

  /**
   * `initialize` at `slot`: the record at the signer's pet address is created
   * if needed and, existing or not, becomes happiness 100 played at `slot`.
   */
  function Initialize(st: LedgerState, signer: Pubkey, newPetAccount: Address, slot: U64): Result<LedgerState>
  {
    match InitializeAccountsError(signer, newPetAccount)
    case Some(e) => Err(e)
    case None => Ok(st.(pets := st.pets[newPetAccount := PetDataAccount(INITIAL_HAPPINESS, slot)]))
  }

  /**
   * The account checks Anchor makes before `play_pet` runs (`PlayPet`): the
   * accounts are loaded in field order, then the associated-token and seeds
   * constraints are checked in field order.
   */
  function PlayAccountsError(st: LedgerState, signer: Pubkey, userTokenAccount: Address,
                             mint: Address, petAccount: Address): Option<Error>
  {
    if userTokenAccount !in st.tokenAccounts || mint !in st.mints || petAccount !in st.pets then
      Some(AccountNotInitialized)
    else if userTokenAccount != AssociatedTokenAddress(signer, mint)
         || st.tokenAccounts[userTokenAccount].owner != OnCurve(signer)
         || st.tokenAccounts[userTokenAccount].mint != mint then
      Some(ConstraintAssociated)
    else if petAccount != PetAddress(signer) then
      Some(ConstraintSeeds)
    else
      None
  }

  /** The number of base units `play_pet` burns: `amount * 10^decimals`, unbounded. */
  function BurnAmount(amount: U8, decimals: U8): (n: int)
    ensures 0 <= n
    ensures decimals == 0 ==> n == amount as int
  {
    PowNonNegative(10, decimals as nat);
    amount as int * Pow(10, decimals as nat)
  }

  /**
   * `play_pet(amount)` at `slot`, case by case in the order the program
   * reaches each failure. On success the record loses `amount` plus one per
   * slot elapsed since `played_at_slot`, keeps `played_at_slot`, and the
   * signer's token account and the mint lose `amount * 10^decimals`.
   */
  function PlayPet(st: LedgerState, signer: Pubkey, userTokenAccount: Address, mint: Address,
                   petAccount: Address, amount: U8, slot: U64): Result<LedgerState>
  {
    match PlayAccountsError(st, signer, userTokenAccount, mint, petAccount)
    case Some(e) => Err(e)
    case None =>
      var pet := st.pets[petAccount];
      var happiness := pet.happiness as int;
      var elapsed := slot as int - pet.playedAtSlot as int;
      var scale := Pow(10, st.mints[mint].decimals as nat);
      var burn := BurnAmount(amount, st.mints[mint].decimals);
      if happiness < amount as int then Err(Panic(HappinessBelowAmount))
      else if amount == 0 then Err(NoTokensToPlay)
      else if elapsed < 0 then Err(Panic(SlotBeforePlayedAt))
      else if elapsed > U8_MAX then Err(Panic(DiffExceedsU8))
      else if happiness - amount as int < elapsed then Err(Panic(HappinessBelowDiff))
      else if scale > U64_MAX then Err(Panic(DecimalsPowOverflow))
      else if burn > U64_MAX then Err(Panic(BurnAmountOverflow))
      else
        var played := pet.(happiness := (happiness - amount as int - elapsed) as U8);
        Burn(st.(pets := st.pets[petAccount := played]), userTokenAccount, mint, burn as U64)
  }

  /** One instruction of the program, with the accounts the client passes. */
  datatype Instruction =
    | InitializeIx(signer: Pubkey, newPetAccount: Address)
    | PlayPetIx(signer: Pubkey, userTokenAccount: Address, mint: Address, petAccount: Address, amount: U8)

  /** A transaction carrying one instruction, executed at `slot`. */
  datatype Transaction = Transaction(instruction: Instruction, slot: U64)

  function Dispatch(st: LedgerState, tx: Transaction): Result<LedgerState>
  {
    match tx.instruction
    case InitializeIx(signer, newPetAccount) => Initialize(st, signer, newPetAccount, tx.slot)
    case PlayPetIx(signer, uta, mint, pet, amount) => PlayPet(st, signer, uta, mint, pet, amount, tx.slot)
  }

  /** The runtime commits a transaction's writes only if it succeeds. */
  function Execute(st: LedgerState, tx: Transaction): LedgerState
  {
    match Dispatch(st, tx)
    case Ok(next) => next
    case Err(_) => st
  }

  /** Transactions run one after another, each to completion. */
  function Run(st: LedgerState, txs: seq<Transaction>): LedgerState
    decreases |txs|
  {
    if txs == [] then st else Run(Execute(st, txs[0]), txs[1..])
  }

  /**
   * The invariant the program keeps: every record sits at a pet address and
   * its happiness is at most 100.
   */
  ghost predicate Valid(st: LedgerState)
  {
    forall a | a in st.pets :: IsPetAddress(a) && st.pets[a].happiness <= INITIAL_HAPPINESS
  }
}
