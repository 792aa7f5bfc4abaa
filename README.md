# Social recovery wallet, modelled in Dafny

This project models a social-recovery wallet for one owner. The wallet is a TypeScript class,
`SocialRecoveryWallet`, that imitates a Clarity contract. The owner appoints guardians and an
approval threshold. Any guardian can propose a new owner, and other guardians vote on the
proposal. Once the votes reach the threshold that was recorded when the proposal was made,
anyone can execute the proposal, and ownership passes to the proposed address. The owner can
cancel a proposal that is still open. Every operation returns either `ok` or an error with a
fixed code from 1 to 8.

The model has three layers:

- `WalletModel` (`wallet_model.dfy`) is the state machine on values.
  - `WalletState` holds the owner, the guardian set and its tracked count, the threshold, the
    recovery nonce, the set of wallet owners, the votes and the proposals.
  - The votes are a set of (proposal id, guardian) pairs.
  - Each operation is a function from (state, caller, argument) to an `Outcome`: the new state
    and a `Result`.
  - `Inv` is the wallet invariant. One lemma per operation proves that the operation keeps it.
- `WalletTraces` (`wallet_traces.dfy`) covers any sequence of calls.
  - The invariant holds in every state reachable from a fresh wallet.
  - Proposals and votes are never lost.
  - A finished proposal is frozen.
  - Proposal ids are handed out as 0, 1, 2, …
  - Only an `initialize` while the owner is the empty string, or a successful `executeRecovery`,
    changes the owner.
- `SocialRecovery.SocialRecoveryWallet` (`social_recovery_wallet.dfy`) is the object itself.
  - Its fields have the source's names and types. Maps of booleans become sets, and the proposal
    table becomes a `map<int, Proposal>`.
  - Its methods update those fields in place (`modifies this`). Each method is proved equal to the
    matching `WalletModel` function on `State()`, and each keeps `Valid()`.
  - The read-only queries are functions.
- `WalletScenarios` (`wallet_scenarios.dfy`) holds concrete runs adapted from the test file's
  scenarios, and the behaviours below.

The caller of each operation is an explicit parameter. It replaces the ambient sender that the
source sets with `setSender`.

Behaviours that the model keeps as the code has them:

- `removeGuardian` deletes the guardian and decrements the count before it checks the threshold,
  and it never rolls back.
  - So an `InvalidThreshold` result leaves the guardian removed (`RemovalStandsOnThresholdError`).
  - The test at social-recovery-wallet/tests/social_wallet.test.ts:321 asserts that the guardian
    is still present. The code does not do that, so the model follows the code.
- Neither `initialize` nor `addGuardian` checks the threshold against the guardian count.
  - So `1 <= threshold <= guardianCount` holds after a successful `updateThreshold`, and
    `threshold <= guardianCount` after a successful `removeGuardian`.
  - It need not hold after `initialize` or `addGuardian` (`AddGuardianLeavesThresholdUnchecked`).
- `initialize` decides "already initialised" by comparing the owner with the empty string.
  - After `initialize("")`, a second `initialize` succeeds.
  - The empty address then stays in the set of wallet owners beside the new owner
    (`EmptyOwnerAllowsSecondInitialize`).
  - A successful `executeRecovery` whose proposed owner is the empty string reopens `initialize`:
    any caller can then initialize again, becoming owner and setting any threshold
    (`RecoveryToEmptyOwnerReopensInitialize`).
  - The invariant is therefore stated for non-empty addresses: a non-empty address passes the
    owner check exactly when it is the owner.

## Model

| member | source | states |
|---|---|---|
| `WalletModel.Code` | social-recovery-wallet/tests/social_wallet.test.ts:23-30 | every error kind has a code between 1 and 8 |
| `WalletModel.CodeInjective` | social-recovery-wallet/tests/social_wallet.test.ts:23-30 | two error kinds share a code only if they are the same kind, so the codes are stable identifiers |
| `WalletModel.Empty` | social-recovery-wallet/tests/social_wallet.test.ts:5-20 | a fresh wallet has no owner, no guardians and no proposals, and it satisfies the wallet invariant |
| `WalletModel.Voters` | social-recovery-wallet/tests/social_wallet.test.ts:235-237 | an address is among a proposal's voters exactly when its vote on that proposal is recorded |
| `WalletModel.CheckOwner` | social-recovery-wallet/tests/social_wallet.test.ts:51-56 | the check passes exactly for members of the wallet-owner set, and it fails only with Unauthorized |
| `WalletModel.CheckOwnerMeansOwner` | social-recovery-wallet/tests/social_wallet.test.ts:51-56 | under the invariant, a non-empty caller passes the owner check exactly when it is the owner |
| `WalletModel.Initialize` | social-recovery-wallet/tests/social_wallet.test.ts:38-48 | succeeds exactly while the owner is the empty string (unset, or set to it by a recovery), and then sets owner and threshold (unchecked) and authorises the new owner; otherwise Unauthorized with no change |
| `WalletModel.AddGuardian` | social-recovery-wallet/tests/social_wallet.test.ts:59-73 | succeeds exactly for an owner caller and a new guardian, and then inserts it and adds one to the count; every failure is Unauthorized with no change |
| `WalletModel.RemoveGuardian` | social-recovery-wallet/tests/social_wallet.test.ts:76-94 | a non-owner gets Unauthorized and a non-guardian InvalidGuardian, both with no change; otherwise the guardian is removed and the count drops by one, and the result is InvalidThreshold (removal kept) when the threshold exceeds the new count |
| `WalletModel.UpdateThreshold` | social-recovery-wallet/tests/social_wallet.test.ts:97-109 | an owner's call succeeds exactly when 0 < t <= guardianCount, leaving 1 <= threshold <= guardianCount; every failure (Unauthorized or InvalidThreshold) leaves the state unchanged |
| `WalletModel.InitiateRecovery` | social-recovery-wallet/tests/social_wallet.test.ts:112-134 | succeeds exactly for a current guardian; it returns the old nonce, adds the nonce by one, stores an active, uncompleted proposal with one vote and the current threshold, and records the initiator's vote; otherwise InvalidGuardian with no change |
| `WalletModel.SupportRecovery` | social-recovery-wallet/tests/social_wallet.test.ts:137-163 | errors in the order RecoveryNotActive, RecoveryCompleted, InvalidGuardian (current guardians), AlreadyVoted, with no change; on success it records the vote and adds exactly one to the vote count |
| `WalletModel.ExecuteRecovery` | social-recovery-wallet/tests/social_wallet.test.ts:166-193 | succeeds, for any caller, exactly when the proposal is active, not completed and has at least its snapshotted threshold of votes; it then completes and deactivates the proposal and installs the proposed owner as owner and in the owner set; otherwise RecoveryNotActive, RecoveryCompleted or ThresholdNotMet with no change |
| `WalletModel.CancelRecovery` | social-recovery-wallet/tests/social_wallet.test.ts:196-216 | succeeds exactly for an owner caller on an active, uncompleted proposal, and then deactivates it and leaves it uncompleted; otherwise Unauthorized, RecoveryNotActive or RecoveryCompleted with no change |
| `WalletModel.InitializeKeepsInv` | social-recovery-wallet/tests/social_wallet.test.ts:38-48 | initialize keeps the wallet invariant |
| `WalletModel.AddGuardianKeepsInv` | social-recovery-wallet/tests/social_wallet.test.ts:59-73 | addGuardian keeps the invariant, in particular guardianCount = number of guardians |
| `WalletModel.RemoveGuardianKeepsInv` | social-recovery-wallet/tests/social_wallet.test.ts:76-94 | removeGuardian keeps the invariant, in particular guardianCount = number of guardians, on the error path too |
| `WalletModel.UpdateThresholdKeepsInv` | social-recovery-wallet/tests/social_wallet.test.ts:97-109 | updateThreshold keeps the invariant |
| `WalletModel.InitiateRecoveryKeepsInv` | social-recovery-wallet/tests/social_wallet.test.ts:112-134 | initiateRecovery keeps the invariant: proposal ids stay exactly 0..nonce-1 and the new proposal's one vote is its initiator's |
| `WalletModel.SupportRecoveryKeepsInv` | social-recovery-wallet/tests/social_wallet.test.ts:137-163 | supportRecovery keeps every proposal's vote count equal to its number of distinct recorded voters |
| `WalletModel.ExecuteRecoveryKeepsInv` | social-recovery-wallet/tests/social_wallet.test.ts:166-193 | executeRecovery keeps the invariant: the new owner is the only non-empty address in the owner set, and a completed proposal is inactive |
| `WalletModel.CancelRecoveryKeepsInv` | social-recovery-wallet/tests/social_wallet.test.ts:196-216 | cancelRecovery keeps the invariant |
| `WalletTraces.NextKeepsInv` | social-recovery-wallet/tests/social_wallet.test.ts:38-216 | every mutating call keeps the invariant |
| `WalletTraces.RunKeepsInv` | social-recovery-wallet/tests/social_wallet.test.ts:38-216 | any sequence of calls keeps the invariant |
| `WalletTraces.ReachableStatesKeepInv` | social-recovery-wallet/tests/social_wallet.test.ts:4-216 | every state reachable from a fresh wallet satisfies the invariant |
| `WalletTraces.NextKeepsHistory` | social-recovery-wallet/tests/social_wallet.test.ts:112-216 | one call never lowers the nonce, drops a vote or a proposal, or changes a proposal's initiator, proposed owner or threshold snapshot; completed stays completed and an inactive proposal is untouched |
| `WalletTraces.RunKeepsHistory` | social-recovery-wallet/tests/social_wallet.test.ts:112-216 | the same holds across any sequence of calls |
| `WalletTraces.FinishedProposalIsFrozen` | social-recovery-wallet/tests/social_wallet.test.ts:140-146 | an executed or cancelled proposal stays stored and unchanged after any calls |
| `WalletTraces.FinishedProposalRejectsCalls` | social-recovery-wallet/tests/social_wallet.test.ts:196-210 | on an inactive proposal, support and execute fail with RecoveryNotActive and cancel with RecoveryNotActive or (non-owner) Unauthorized, all without change |
| `WalletTraces.OwnerChangesOnlyByRecovery` | social-recovery-wallet/tests/social_wallet.test.ts:185-190 | the owner changes only by an initialize while the owner is the empty string, or by a successful executeRecovery that installs the proposed owner |
| `WalletTraces.IdCount` | social-recovery-wallet/tests/social_wallet.test.ts:117-131 | a set of ids that is exactly 0..n-1 has n elements |
| `WalletTraces.InitiateRecoveryIdIsFresh` | social-recovery-wallet/tests/social_wallet.test.ts:117-131 | a successful initiateRecovery returns the number of proposals made so far, an id not used before, and adds exactly that id |
| `WalletTraces.RecoveryCompletedIsNeverReturned` | social-recovery-wallet/tests/social_wallet.test.ts:144-146 | under the invariant, support, execute and cancel never return RecoveryCompleted, because a completed proposal is always inactive and the activity check comes first |
| `WalletTraces.OnlyInitiateRecoveryAllocatesIds` | social-recovery-wallet/tests/social_wallet.test.ts:38-216 | no other call moves the nonce or adds or drops a proposal |
| `SocialRecovery.SocialRecoveryWallet.constructor` | social-recovery-wallet/tests/social_wallet.test.ts:5-20 | a new wallet is the empty state and satisfies the invariant |
| `SocialRecovery.SocialRecoveryWallet.Initialize` | social-recovery-wallet/tests/social_wallet.test.ts:38-48 | updates the fields exactly as `WalletModel.Initialize` and keeps the invariant |
| `SocialRecovery.SocialRecoveryWallet.CheckOwner` | social-recovery-wallet/tests/social_wallet.test.ts:51-56 | the check passes exactly for members of the owner set, which for a non-empty caller means being the owner; it fails only with Unauthorized |
| `SocialRecovery.SocialRecoveryWallet.AddGuardian` | social-recovery-wallet/tests/social_wallet.test.ts:59-73 | updates the fields exactly as `WalletModel.AddGuardian` and keeps the invariant |
| `SocialRecovery.SocialRecoveryWallet.RemoveGuardian` | social-recovery-wallet/tests/social_wallet.test.ts:76-94 | updates the fields exactly as `WalletModel.RemoveGuardian` (removal kept on InvalidThreshold) and keeps the invariant |
| `SocialRecovery.SocialRecoveryWallet.UpdateThreshold` | social-recovery-wallet/tests/social_wallet.test.ts:97-109 | updates the fields exactly as `WalletModel.UpdateThreshold` and keeps the invariant |
| `SocialRecovery.SocialRecoveryWallet.InitiateRecovery` | social-recovery-wallet/tests/social_wallet.test.ts:112-134 | updates the fields exactly as `WalletModel.InitiateRecovery` and keeps the invariant |
| `SocialRecovery.SocialRecoveryWallet.SupportRecovery` | social-recovery-wallet/tests/social_wallet.test.ts:137-163 | updates the fields exactly as `WalletModel.SupportRecovery` and keeps the invariant |
| `SocialRecovery.SocialRecoveryWallet.ExecuteRecovery` | social-recovery-wallet/tests/social_wallet.test.ts:166-193 | updates the fields exactly as `WalletModel.ExecuteRecovery` and keeps the invariant |
| `SocialRecovery.SocialRecoveryWallet.CancelRecovery` | social-recovery-wallet/tests/social_wallet.test.ts:196-216 | updates the fields exactly as `WalletModel.CancelRecovery` and keeps the invariant |
| `SocialRecovery.SocialRecoveryWallet.GetOwner` | social-recovery-wallet/tests/social_wallet.test.ts:219-221 | the owner returned is the one non-empty address the owner check admits |
| `SocialRecovery.SocialRecoveryWallet.GetThreshold` | social-recovery-wallet/tests/social_wallet.test.ts:223-225 | returns the threshold that initialize or updateThreshold last stored, the one a new proposal snapshots; the value is otherwise unconstrained, since initialize accepts any number |
| `SocialRecovery.SocialRecoveryWallet.IsGuardian` | social-recovery-wallet/tests/social_wallet.test.ts:227-229 | a guardian is reported only when there is at least one guardian |
| `SocialRecovery.SocialRecoveryWallet.GetRecoveryStatus` | social-recovery-wallet/tests/social_wallet.test.ts:231-233 | a proposal is found exactly for ids 0..nonce-1; its vote count is its number of voters, its initiator has voted, and a completed proposal is inactive |
| `SocialRecovery.SocialRecoveryWallet.HasVoted` | social-recovery-wallet/tests/social_wallet.test.ts:235-238 | a vote is recorded only on an existing proposal id |
| `SocialRecovery.SocialRecoveryWallet.GetGuardianCount` | social-recovery-wallet/tests/social_wallet.test.ts:240-242 | the count returned is the number of guardians |
| `WalletScenarios.ThreeGuardians` | social-recovery-wallet/tests/social_wallet.test.ts:430-434 | initialize plus three addGuardian calls give the expected owner, guardians and threshold |
| `WalletScenarios.TwoGuardians` | social-recovery-wallet/tests/social_wallet.test.ts:410-413 | initialize plus two addGuardian calls give the expected owner, guardians and threshold |
| `WalletScenarios.InitializeIsOneShot` | social-recovery-wallet/tests/social_wallet.test.ts:256-263 | after initialize with a non-empty owner, any second initialize fails with Unauthorized and changes nothing |
| `WalletScenarios.EmptyOwnerAllowsSecondInitialize` | social-recovery-wallet/tests/social_wallet.test.ts:38-48 | with the empty address as first owner, a second initialize succeeds and both addresses end up in the owner set |
| `WalletScenarios.RecoveryExecutesAtThreshold` | social-recovery-wallet/tests/social_wallet.test.ts:426-454 | threshold 2 with two votes: ids start at 0, the vote count reaches 2, execution by anyone succeeds and installs the new owner |
| `WalletScenarios.RecoveryBelowThresholdFails` | social-recovery-wallet/tests/social_wallet.test.ts:456-480 | threshold 3 with two votes: execution fails with ThresholdNotMet and the owner is unchanged |
| `WalletScenarios.InitiatorCannotVoteAgain` | social-recovery-wallet/tests/social_wallet.test.ts:405-424 | the initiator's explicit second vote is refused with AlreadyVoted |
| `WalletScenarios.RemovalStandsOnThresholdError` | social-recovery-wallet/tests/social_wallet.test.ts:86-91 | removing a guardian below the threshold reports InvalidThreshold, yet the guardian is gone and the count is 1 |
| `WalletScenarios.AddGuardianLeavesThresholdUnchecked` | social-recovery-wallet/tests/social_wallet.test.ts:59-73 | a successful addGuardian can leave the threshold above the guardian count |
| `WalletScenarios.RecoveryToEmptyOwnerReopensInitialize` | social-recovery-wallet/tests/social_wallet.test.ts:185-190 | after a recovery to the empty address, initialize succeeds again for a new owner and threshold, and the new owner passes the owner check |
| `WalletScenarios.NonOwnerCannotCancel` | social-recovery-wallet/tests/social_wallet.test.ts:506-528 | a non-owner's cancel fails with Unauthorized and the proposal stays active |
| `WalletScenarios.CancelledProposalCannotExecute` | social-recovery-wallet/tests/social_wallet.test.ts:482-504 | a cancelled proposal is inactive and uncompleted, and executing it fails with RecoveryNotActive |

## Left out

- The ambient sender (`setSender`, `currentSender`) is not state. Each operation takes its caller as a parameter.
- Vote keys: the source builds the string `"<id>-<address>"`. The model keeps the pair (id, address). For integer ids this encoding is injective, so nothing is lost.
- Proposal records are values in a map. The source keeps mutable objects and returns the stored object from `getRecoveryStatus`, so a caller could change a proposal through that alias. The model does not capture this aliasing.
- JavaScript numbers are modelled as unbounded integers. Fractional or non-finite thresholds and ids, and precision loss above 2^53, are not modelled.
- The `RecoveryInProgress` error (code 6) is declared but no operation returns it.
- The test harness (the `describe`/`it` blocks) is not modelled as such. Several of its scenarios appear as lemmas in `WalletScenarios`. The assertion at line 321 contradicts the code at lines 86-91, so it is not encoded.
- The Clarity contract that the class imitates is not part of this model.
