/**
 * The pet program as it runs: a ledger whose account maps the instructions
 * update. Each instruction works on a staged copy of the pet record (Anchor's
 * deserialised `Account`), returns early on the first failure, and writes the
 * record back only when it reaches the end, so a failed instruction leaves
 * every account as it was.
 */
module PetProgram {
  import opened Ints
  import opened Accounts
  import opened PetSpec
  import PetProperties

  /** How an instruction ends: `Ok(())` or an error. */
  datatype Outcome = Pass | Fail(error: Error)

  class Ledger {
    var pets: map<Address, PetDataAccount>
    var tokenAccounts: map<Address, TokenAccount>
    var mints: map<Address, Mint>

    function State(): LedgerState
      reads this
    {
      LedgerState(pets, tokenAccounts, mints)
    }

    /** A ledger with token accounts and mints and no pet records yet. */
    constructor (tokenAccounts: map<Address, TokenAccount>, mints: map<Address, Mint>)
      ensures State() == LedgerState(map[], tokenAccounts, mints)
      ensures Valid(State())
    {
      this.pets := map[];
      this.tokenAccounts := tokenAccounts;
      this.mints := mints;
    }

    /** `initialize`: `init_if_needed` then the two field writes. */
    method Initialize(signer: Pubkey, newPetAccount: Address, slot: U64) returns (r: Outcome)
      modifies this
      ensures r.Pass? ==> PetSpec.Initialize(old(State()), signer, newPetAccount, slot) == Ok(State())
      ensures r.Fail? ==> PetSpec.Initialize(old(State()), signer, newPetAccount, slot) == Err(r.error)
      ensures r.Fail? ==> State() == old(State())
      ensures old(Valid(State())) ==> Valid(State())
    {
      var accountError := InitializeAccountsError(signer, newPetAccount);
      if accountError.Some? {
        return Fail(accountError.value);
      }
      // init_if_needed: a missing account is created zero-filled; an existing one is loaded
      var pet := if newPetAccount in pets then pets[newPetAccount] else PetDataAccount(0, 0);
      pet := pet.(happiness := INITIAL_HAPPINESS);
      pet := pet.(playedAtSlot := slot);
      pets := pets[newPetAccount := pet];
      r := Pass;
      if old(Valid(State())) {
        PetProperties.InitializeKeepsValid(old(State()), signer, newPetAccount, slot);
      }
    }

    /** `play_pet(amount)` at `slot`, step by step with checked arithmetic. */
    method PlayPet(signer: Pubkey, userTokenAccount: Address, mint: Address, petAccount: Address,
                   amount: U8, slot: U64) returns (r: Outcome)
      modifies this
      ensures r.Pass? ==>
        PetSpec.PlayPet(old(State()), signer, userTokenAccount, mint, petAccount, amount, slot) == Ok(State())
      ensures r.Fail? ==>
        PetSpec.PlayPet(old(State()), signer, userTokenAccount, mint, petAccount, amount, slot) == Err(r.error)
      ensures r.Fail? ==> State() == old(State())
      ensures old(Valid(State())) ==> Valid(State())
    {
      var accountError := PlayAccountsError(State(), signer, userTokenAccount, mint, petAccount);
      if accountError.Some? {
        return Fail(accountError.value);
      }
      var pet := pets[petAccount];

      var happiness := CheckedSubU8(pet.happiness, amount);
      if happiness.None? {
        return Fail(Panic(HappinessBelowAmount));
      }
      pet := pet.(happiness := happiness.value);

      if amount == 0 {
        return Fail(NoTokensToPlay);
      }

      var diff := CheckedSubU64(slot, pet.playedAtSlot);
      if diff.None? {
        return Fail(Panic(SlotBeforePlayedAt));
      }
      var diffU8 := TryIntoU8(diff.value);
      if diffU8.None? {
        return Fail(Panic(DiffExceedsU8));
      }
      happiness := CheckedSubU8(pet.happiness, diffU8.value);
      if happiness.None? {
        return Fail(Panic(HappinessBelowDiff));
      }
      pet := pet.(happiness := happiness.value);

      var scale := CheckedPowU64(10, mints[mint].decimals as nat);
      if scale.None? {
        return Fail(Panic(DecimalsPowOverflow));
      }
      var burnAmount := CheckedMulU64(amount as int as U64, scale.value);
      if burnAmount.None? {
        return Fail(Panic(BurnAmountOverflow));
      }

      // the cross-program call into the token program's `burn`
      var burned := Accounts.Burn(State(), userTokenAccount, mint, burnAmount.value);
      if burned.Err? {
        return Fail(burned.error);
      }
      tokenAccounts, mints := burned.value.tokenAccounts, burned.value.mints;
      // Anchor serialises the modified record back when the instruction returns Ok
      pets := pets[petAccount := pet];
      r := Pass;
      if old(Valid(State())) {
        PetProperties.PlayPetKeepsValid(old(State()), signer, userTokenAccount, mint, petAccount, amount, slot);
      }
    }
  }
}
