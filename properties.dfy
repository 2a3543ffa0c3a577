/**
 * What the pet program guarantees, proved about the transitions of `PetSpec`:
 * where records live, what `initialize` and `play_pet` do and when they fail,
 * that happiness stays within [0, 100] and never rises between resets, and
 * the run the repository's test makes.
 */
module PetProperties {
  import opened Ints
  import opened Accounts
  import opened PetSpec

  // ---------------------------------------------------------------- addresses

  /** Each owner has one pet address, no two owners share one, and it is no wallet or token account. */
  lemma PetAddressIsUnique(owner: Pubkey, other: Pubkey, mint: Address)
    ensures PetAddress(owner) == PetAddress(other) <==> owner == other
    ensures IsPetAddress(PetAddress(owner))
    ensures PetAddress(owner) != OnCurve(other)
    ensures PetAddress(owner) != AssociatedTokenAddress(other, mint)
  {
  }

  /** Every address of pet-address shape is the pet address of the key in its second seed. */
  lemma IsPetAddressHasOwner(a: Address)
    requires IsPetAddress(a)
    ensures a == PetAddress(a.seeds[1].address.key)
  {
  }

  // --------------------------------------------------------------- initialize

  /**
   * `initialize` succeeds exactly on the signer's own pet address, and then
   * sets that record to happiness 100 played at `slot`, whether or not it
   * existed before; nothing else changes.
   */
  lemma InitializeResets(st: LedgerState, signer: Pubkey, newPetAccount: Address, slot: U64)
    ensures Initialize(st, signer, newPetAccount, slot).Ok? <==> newPetAccount == PetAddress(signer)
    ensures Initialize(st, signer, newPetAccount, slot).Err? ==>
      Initialize(st, signer, newPetAccount, slot).error == ConstraintSeeds
    ensures Initialize(st, signer, newPetAccount, slot).Ok? ==>
      var next := Initialize(st, signer, newPetAccount, slot).value;
      next.pets == st.pets[newPetAccount := PetDataAccount(100, slot)] &&
      next.tokenAccounts == st.tokenAccounts && next.mints == st.mints
  {
  }

  lemma InitializeKeepsValid(st: LedgerState, signer: Pubkey, newPetAccount: Address, slot: U64)
    requires Valid(st)
    ensures Initialize(st, signer, newPetAccount, slot).Ok? ==>
      Valid(Initialize(st, signer, newPetAccount, slot).value)
  {
  }

  // ----------------------------------------------------------------- play_pet

  /** With the accounts accepted, `play_pet(0)` fails with `NoTokensToPlay`. */
  lemma PlayZeroFails(st: LedgerState, signer: Pubkey, uta: Address, mint: Address, petAccount: Address, slot: U64)
    requires PlayAccountsError(st, signer, uta, mint, petAccount).None?
    ensures PlayPet(st, signer, uta, mint, petAccount, 0, slot) == Err(NoTokensToPlay)
  {
  }

  /**
   * `play_pet` panics when the amount exceeds happiness, when the slot is
   * before `played_at_slot`, when more than 255 slots have passed, or when
   * the slots passed exceed what is left of happiness after the amount.
   */
  lemma PlayArithmeticAborts(st: LedgerState, signer: Pubkey, uta: Address, mint: Address,
                             petAccount: Address, amount: U8, slot: U64)
    requires PlayAccountsError(st, signer, uta, mint, petAccount).None?
    requires 0 < amount
    requires var pet := st.pets[petAccount];
      amount > pet.happiness || slot < pet.playedAtSlot ||
      slot as int - pet.playedAtSlot as int > U8_MAX ||
      slot as int - pet.playedAtSlot as int > pet.happiness as int - amount as int
    ensures PlayPet(st, signer, uta, mint, petAccount, amount, slot).Err?
    ensures PlayPet(st, signer, uta, mint, petAccount, amount, slot).error.Panic?
  {
  }

  /**
   * With the accounts accepted, `play_pet` succeeds exactly when the amount is
   * positive and at most happiness, the slot is not before `played_at_slot`,
   * the slots passed fit in what is left of happiness, and the signer's
   * balance and the mint's supply both cover `amount * 10^decimals`.
   */
  lemma PlaySucceedsIff(st: LedgerState, signer: Pubkey, uta: Address, mint: Address,
                        petAccount: Address, amount: U8, slot: U64)
    requires PlayAccountsError(st, signer, uta, mint, petAccount).None?
    ensures PlayPet(st, signer, uta, mint, petAccount, amount, slot).Ok? <==>
      var pet := st.pets[petAccount];
      var burn := BurnAmount(amount, st.mints[mint].decimals);
      0 < amount <= pet.happiness && pet.playedAtSlot <= slot &&
      slot as int - pet.playedAtSlot as int <= pet.happiness as int - amount as int &&
      burn <= st.tokenAccounts[uta].amount as int && burn <= st.mints[mint].supply as int
  {
  }

  /**
   * A `play_pet` that fails for want of tokens, after every check of the
   * program passed, fails with the token program's `InsufficientFunds`.
   */
  lemma PlayInsufficientFunds(st: LedgerState, signer: Pubkey, uta: Address, mint: Address,
                              petAccount: Address, amount: U8, slot: U64)
    requires PlayAccountsError(st, signer, uta, mint, petAccount).None?
    requires var pet := st.pets[petAccount];
      0 < amount <= pet.happiness && pet.playedAtSlot <= slot &&
      slot as int - pet.playedAtSlot as int <= pet.happiness as int - amount as int
    requires BurnAmount(amount, st.mints[mint].decimals) <= U64_MAX
    requires BurnAmount(amount, st.mints[mint].decimals) > st.tokenAccounts[uta].amount as int
    ensures PlayPet(st, signer, uta, mint, petAccount, amount, slot) == Err(InsufficientFunds)
  {
  }

  /** If `amount * 10^decimals` does not fit in `u64`, `play_pet` fails. */
  lemma PlayBurnOverflowAborts(st: LedgerState, signer: Pubkey, uta: Address, mint: Address,
                               petAccount: Address, amount: U8, slot: U64)
    requires mint in st.mints && BurnAmount(amount, st.mints[mint].decimals) > U64_MAX
    ensures PlayPet(st, signer, uta, mint, petAccount, amount, slot).Err?
  {
  }

  /**
   * A signer cannot play with another owner's pet: the call fails, and once
   * every account exists and the token account is the signer's own, it fails
   * on the `[PET_SEED, signer]` seeds constraint.
   */
  lemma PlayOtherOwnersPetFails(st: LedgerState, signer: Pubkey, owner: Pubkey, uta: Address,
                                mint: Address, amount: U8, slot: U64)
    requires signer != owner
    ensures PlayPet(st, signer, uta, mint, PetAddress(owner), amount, slot).Err?
    ensures uta in st.tokenAccounts && mint in st.mints && PetAddress(owner) in st.pets &&
            uta == AssociatedTokenAddress(signer, mint) &&
            st.tokenAccounts[uta].owner == OnCurve(signer) && st.tokenAccounts[uta].mint == mint ==>
      PlayPet(st, signer, uta, mint, PetAddress(owner), amount, slot).error == ConstraintSeeds
  {
  }

  /**
   * `play_pet` burns only from the signer's associated token account for the
   * mint: any other existing token account is refused with `ConstraintAssociated`.
   */
  lemma PlayOtherTokenAccountFails(st: LedgerState, signer: Pubkey, uta: Address, mint: Address,
                                   petAccount: Address, amount: U8, slot: U64)
    requires uta in st.tokenAccounts && mint in st.mints && petAccount in st.pets
    requires uta != AssociatedTokenAddress(signer, mint) || st.tokenAccounts[uta].owner != OnCurve(signer) ||
             st.tokenAccounts[uta].mint != mint
    ensures PlayPet(st, signer, uta, mint, petAccount, amount, slot) == Err(ConstraintAssociated)
  {
  }

  /**
   * A successful `play_pet` acts only on the signer's own record and its
   * associated token account for the mint; the record loses `amount` plus
   * one per slot passed and keeps `played_at_slot`; balance and supply lose
   * `amount * 10^decimals`; every other account is unchanged.
   */
  lemma PlaySuccessEffect(st: LedgerState, signer: Pubkey, uta: Address, mint: Address,
                          petAccount: Address, amount: U8, slot: U64)
    requires PlayPet(st, signer, uta, mint, petAccount, amount, slot).Ok?
    ensures petAccount == PetAddress(signer) && uta == AssociatedTokenAddress(signer, mint)
    ensures var next := PlayPet(st, signer, uta, mint, petAccount, amount, slot).value;
      var pet := st.pets[petAccount];
      var burn := BurnAmount(amount, st.mints[mint].decimals);
      petAccount in next.pets && uta in next.tokenAccounts && mint in next.mints &&
      next.pets[petAccount].happiness as int ==
        pet.happiness as int - amount as int - (slot as int - pet.playedAtSlot as int) &&
      next.pets[petAccount].playedAtSlot == pet.playedAtSlot &&
      next.pets[petAccount].happiness < pet.happiness &&
      next.pets == st.pets[petAccount := next.pets[petAccount]] &&
      next.tokenAccounts[uta].amount as int == st.tokenAccounts[uta].amount as int - burn &&
      next.tokenAccounts == st.tokenAccounts[uta := st.tokenAccounts[uta].(amount := next.tokenAccounts[uta].amount)] &&
      next.mints[mint].supply as int == st.mints[mint].supply as int - burn &&
      next.mints == st.mints[mint := st.mints[mint].(supply := next.mints[mint].supply)]
  {
  }

  lemma PlayPetKeepsValid(st: LedgerState, signer: Pubkey, uta: Address, mint: Address,
                          petAccount: Address, amount: U8, slot: U64)
    requires Valid(st)
    ensures PlayPet(st, signer, uta, mint, petAccount, amount, slot).Ok? ==>
      Valid(PlayPet(st, signer, uta, mint, petAccount, amount, slot).value)
  {
  }

  // ------------------------------------------------------ sequences of transactions

  lemma ExecuteKeepsValid(st: LedgerState, tx: Transaction)
    requires Valid(st)
    ensures Valid(Execute(st, tx))
  {
  }

  /** Whatever transactions run, every record keeps happiness within [0, 100]. */
  lemma {:induction false} RunKeepsValid(st: LedgerState, txs: seq<Transaction>)
    requires Valid(st)
    ensures Valid(Run(st, txs))
    decreases |txs|
  {
    if txs != [] {
      ExecuteKeepsValid(st, txs[0]);
      RunKeepsValid(Execute(st, txs[0]), txs[1..]);
    }
  }

  /** The transaction is an `initialize` signed by `owner`, the only way to reset owner's pet. */
  predicate ResetsPet(tx: Transaction, owner: Pubkey)
  {
    tx.instruction.InitializeIx? && tx.instruction.signer == owner
  }

  lemma ExecuteNeverRaisesHappiness(st: LedgerState, tx: Transaction, owner: Pubkey)
    requires PetAddress(owner) in st.pets
    requires !ResetsPet(tx, owner)
    ensures PetAddress(owner) in Execute(st, tx).pets
    ensures Execute(st, tx).pets[PetAddress(owner)].happiness <= st.pets[PetAddress(owner)].happiness
    ensures Execute(st, tx).pets[PetAddress(owner)].playedAtSlot == st.pets[PetAddress(owner)].playedAtSlot
  {
  }

  /**
   * Between two `initialize` calls of its owner, a pet's happiness never
   * rises and its `played_at_slot` never changes, whatever else runs.
   */
  lemma {:induction false} RunNeverRaisesHappiness(st: LedgerState, txs: seq<Transaction>, owner: Pubkey)
    requires PetAddress(owner) in st.pets
    requires forall i | 0 <= i < |txs| :: !ResetsPet(txs[i], owner)
    ensures PetAddress(owner) in Run(st, txs).pets
    ensures Run(st, txs).pets[PetAddress(owner)].happiness <= st.pets[PetAddress(owner)].happiness
    ensures Run(st, txs).pets[PetAddress(owner)].playedAtSlot == st.pets[PetAddress(owner)].playedAtSlot
    decreases |txs|
  {
    if txs != [] {
      ExecuteNeverRaisesHappiness(st, txs[0], owner);
      RunNeverRaisesHappiness(Execute(st, txs[0]), txs[1..], owner);
    }
  }

  // ------------------------------------------------------------- the test's run

  /**
   * The repository's test: a mint with 0 decimals and 100 tokens in the
   * payer's associated account; `initialize` gives happiness 100, and a
   * later `play_pet(5)` leaves happiness 85 exactly when it runs 10 slots
   * after `initialize`, burning 5 tokens.
   */
  lemma TestRun(payer: Pubkey, mintKey: Pubkey, initSlot: U64, playSlot: U64)
    ensures
      var mint := OnCurve(mintKey);
      var ata := AssociatedTokenAddress(payer, mint);
      var start := LedgerState(map[], map[ata := TokenAccount(mint, OnCurve(payer), 100)], map[mint := Mint(100, 0)]);
      var initialized := Execute(start, Transaction(InitializeIx(payer, PetAddress(payer)), initSlot));
      var played := PlayPet(initialized, payer, ata, mint, PetAddress(payer), 5, playSlot);
      PetAddress(payer) in initialized.pets &&
      initialized.pets[PetAddress(payer)].happiness == 100 &&
      ((played.Ok? && played.value.pets[PetAddress(payer)].happiness == 85) <==>
        playSlot as int - initSlot as int == 10) &&
      (played.Ok? ==> played.value.tokenAccounts[ata].amount == 95)
  {
  }
}
