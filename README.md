# A verified model of the Solana pet program

The pet program keeps one `PetDataAccount { happiness: u8, played_at_slot: u64 }`
per signer, at the program-derived address of the seeds `[b"pet", signer]`.
Two instructions act on it:

- `initialize` creates the record if needed (`init_if_needed`) and sets
  `happiness = 100`, `played_at_slot = slot`. Calling it again resets the
  record; it never fails with "already initialised".
- `play_pet(amount: u8)` subtracts `amount` from happiness (checked, so
  underflow panics), rejects `amount == 0` with `NoTokensToPlay`, subtracts the
  number of slots since `played_at_slot` (checked; the difference must fit in
  a `u8`), computes `amount * 10^decimals` (checked), and burns that many base
  units from the signer's associated token account. It never writes
  `played_at_slot`.

Any failure aborts the transaction and the runtime keeps no write.

## Layout

- `ints.dfy`, module `Ints`. Rust's `u8` and `u64` are newtypes here. The
  module builds `checked_sub`, `checked_mul` and `try_into::<u8>` from the
  truncated machine result and a flag for lost information. It proves that
  each is `None` exactly when the true result is out of range. Rust builds
  `checked_mul` this way; `checked_sub` and `u8::try_from` compare with the
  bound first, with the same outcome. `u64::pow` returns a plain `u64`. In a build with overflow checks it
  panics exactly when the true power exceeds `u64::MAX`. The model stands
  for that panic with `None`. It reaches the same outcome by repeated
  checked multiplication, while Rust uses repeated squaring.
- `accounts.dfy`, module `Accounts`. It defines addresses and their
  derivation, the pet record, the token account and mint, the error codes,
  and the token program's `burn` as a function on the ledger.
- `pet_spec.dfy`, module `PetSpec`. It states the two instructions over
  unbounded integers, as a list of cases in the order the program meets each
  failure. It also defines a runtime that executes transactions one at a time
  and commits only those that succeed (`Execute`, `Run`), and the invariant
  `Valid`: every record sits at a pet address and has happiness at most 100.
- `properties.dfy`, module `PetProperties`. The lemmas about `PetSpec`.
- `pet_program.dfy`, module `PetProgram`. The class `Ledger` holds the account
  maps. Its methods `Initialize` and `PlayPet` follow the Rust code step by
  step, using the checked operations on a staged copy of the record.
  `PlayPet` applies the token program's `burn` from `Accounts` to the
  current state. Both methods return at the first failure and write the record back only at the end, so
  a failure changes no field. Each method is proved to produce exactly the
  state, or the error, that `PetSpec` gives, and to keep `Valid`.

Inputs that come from the runtime are parameters: the current slot, the
signer's key, and the accounts the client passes. A program-derived address
is the datatype value `OffCurve(program, seeds)`. So derivation is injective
by construction, and a derived address never equals a wallet key.

On chain, an `unwrap` of `None` and an arithmetic-overflow panic end the
same way: the program panics.
The model tags each panic with the step that failed (`Panic(site)`). This
only helps state the lemmas.

## Model

| member | source | states |
|---|---|---|
| `Ints.CheckedSubU8` | programs/pet-program/src/lib.rs:36-38 | built from the wrapping `u8` difference and its overflow flag, `happiness.checked_sub(amount)` is proved to be defined exactly when `amount <= happiness`, and then to be the true difference |
| `Ints.CheckedSubU64` | programs/pet-program/src/lib.rs:47 | built from the wrapping `u64` difference, `slot.checked_sub(played_at_slot)` is proved to be defined exactly when `played_at_slot <= slot`, and then to be the true difference |
| `Ints.TryIntoU8` | programs/pet-program/src/lib.rs:52 | built from the truncating cast, `diff.try_into()` is proved to succeed exactly when `diff <= 255`, keeping its value |
| `Ints.CheckedMulU64` | programs/pet-program/src/lib.rs:56-58 | built from the low 64 bits of the product and its overflow flag, `checked_mul` is proved to be defined exactly when the true product is at most `u64::MAX`, and then to equal it |
| `Ints.CheckedPowU64` | programs/pet-program/src/lib.rs:57 | under overflow checks, `10u64.pow(decimals)` panics (`None`) exactly when the true power exceeds `u64::MAX`, and otherwise equals it |
| `Accounts.FindProgramAddress` | programs/pet-program/src/lib.rs:78-81 | a derived address is never an on-curve wallet key |
| `PetSpec.BurnAmount` | programs/pet-program/src/lib.rs:56-58 | the burn amount is never negative, and equals `amount` when the mint has 0 decimals |
| `PetProperties.PetAddressIsUnique` | programs/pet-program/src/lib.rs:80 | two owners share a pet address exactly when they are the same owner; it is no wallet key and no associated token account |
| `PetProperties.IsPetAddressHasOwner` | programs/pet-program/src/lib.rs:101 | every address of pet-address shape is the pet address of the key in its second seed |
| `PetProperties.InitializeResets` | programs/pet-program/src/lib.rs:22-31 | `initialize` succeeds exactly on the signer's pet address, with or without an existing record; it then holds happiness 100 played at the current slot, and nothing else changes; otherwise it fails with `ConstraintSeeds` |
| `PetProperties.InitializeKeepsValid` | programs/pet-program/src/lib.rs:26-29 | `initialize` keeps every record at a pet address with happiness at most 100 |
| `PetProperties.PlayZeroFails` | programs/pet-program/src/lib.rs:40-42 | with its accounts accepted, `play_pet(0)` fails with `NoTokensToPlay` |
| `PetProperties.PlayArithmeticAborts` | programs/pet-program/src/lib.rs:36-53 | a positive amount above happiness, a slot before `played_at_slot`, more than 255 slots passed, or more slots passed than happiness left after the amount, each make `play_pet` panic |
| `PetProperties.PlaySucceedsIff` | programs/pet-program/src/lib.rs:34-70 | with the accounts accepted, `play_pet` succeeds exactly when the amount is positive and at most happiness, the slot is not before `played_at_slot`, the slots passed fit in what happiness is left, and balance and supply both cover `amount * 10^decimals` |
| `PetProperties.PlayInsufficientFunds` | programs/pet-program/src/lib.rs:60-67 | when every check of the program passes but the balance is below the burn amount, `play_pet` fails with `InsufficientFunds` |
| `PetProperties.PlayBurnOverflowAborts` | programs/pet-program/src/lib.rs:56-58 | when `amount * 10^decimals` exceeds `u64`, `play_pet` fails |
| `PetProperties.PlayOtherOwnersPetFails` | programs/pet-program/src/lib.rs:101 | `play_pet` on another owner's pet address always fails; with the other accounts in order it fails with `ConstraintSeeds` |
| `PetProperties.PlayOtherTokenAccountFails` | programs/pet-program/src/lib.rs:95 | a token account that is not the signer's associated account for the mint, or whose owner or mint differ, is refused with `ConstraintAssociated` |
| `PetProperties.PlaySuccessEffect` | programs/pet-program/src/lib.rs:34-70 | a successful `play_pet` acts only on the signer's pet record and associated token account. Happiness drops by `amount` plus one per slot passed, so it strictly falls. `played_at_slot` is kept. Balance and supply drop by `amount * 10^decimals`. No other record, token account or mint changes |
| `PetProperties.PlayPetKeepsValid` | programs/pet-program/src/lib.rs:36-53 | `play_pet` keeps every record at a pet address with happiness at most 100 |
| `PetProperties.ExecuteKeepsValid` | programs/pet-program/src/lib.rs:19-71 | one transaction of either instruction, committed or rolled back, keeps the invariant |
| `PetProperties.RunKeepsValid` | programs/pet-program/src/lib.rs:19-71 | after any sequence of transactions, every record has happiness within [0, 100] |
| `PetProperties.ExecuteNeverRaisesHappiness` | programs/pet-program/src/lib.rs:34-70 | a transaction other than the owner's `initialize` keeps the owner's record, never raises its happiness and never changes its `played_at_slot` |
| `PetProperties.RunNeverRaisesHappiness` | programs/pet-program/src/lib.rs:34-70 | the same over any sequence of transactions without an `initialize` by the owner |
| `PetProperties.TestRun` | tests/pet-program.ts:134-157 | on the test's setup (0 decimals, 100 tokens), `initialize` gives happiness 100. A later `play_pet(5)` leaves happiness 85 exactly when it runs 10 slots later, and then leaves 95 tokens |
| `PetProgram.Ledger.Initialize` | programs/pet-program/src/lib.rs:22-31 | the method's new state or error is the one `PetSpec.Initialize` gives; a failure changes nothing; the invariant is kept |
| `PetProgram.Ledger.PlayPet` | programs/pet-program/src/lib.rs:34-70 | the checked, staged steps give the new state or error that `PetSpec.PlayPet` gives; a failure changes nothing; the invariant is kept |

## Left out

- Clock: `Clock::get()` is the `slot` parameter. The model does not include its failure.
- Rent: the lamports that `init_if_needed` takes from the payer are not modelled. So the model has no failure for an underfunded payer.
- Address derivation: the real scheme (SHA-256 of the seeds, then a search for an off-curve bump) is a cryptographic routine. It is replaced by a symbolic address that is injective by construction.
- Anchor's account loading: discriminator bytes, the owner-program check, `space`, and the `mut`/`Signer` flags are not modelled. Accounts are loaded in field order, with `AccountNotInitialized` for a missing one, and then the constraints are checked. The associated-token checks on address, owner and mint all report one error, `ConstraintAssociated`. Exact Anchor error names differ between versions.
- Token program: `burn` is modelled only by its balance check (`InsufficientFunds`) and its supply check (`SupplyOverflow`). Frozen accounts, delegates and multisig authorities are not modelled. The authority check is covered by the associated-token constraint.
- Ints.CheckedPowU64: assumes the program is built with overflow checks, the Anchor workspace default. In such a build `pow` panics on overflow; without them it wraps. The workspace `Cargo.toml` is not part of this model.
- Logging: `msg!` has no effect on the state and is not modelled.
- Concurrency: transactions run one at a time, to completion.
- `tests/pet-program.ts`: the RPC calls, key files, mint creation and slot polling are I/O. Only its setup and its assertions of 100 and 85 are modelled, in `TestRun`.
