/**
 * Concrete runs of the state machine, and the facts about pairs of calls
 * that they illustrate.
 */
module WalletScenarios {
  import opened WalletModel

  /** A wallet owned by "O" with guardians "G1", "G2", "G3" and the given threshold. */
  function ThreeGuardians(threshold: int): (s: WalletState)
    ensures Inv(s)
    ensures s.owner == "O" && s.guardians == {"G1", "G2", "G3"} && s.threshold == threshold
    ensures s.proposals == map[]
  {
    var s1 := Initialize(Empty(), "O", threshold).state;
    var s2 := AddGuardian(s1, "O", "G1").state;
    var s3 := AddGuardian(s2, "O", "G2").state;
    var s4 := AddGuardian(s3, "O", "G3").state;
    InitializeKeepsInv(Empty(), "O", threshold);
    AddGuardianKeepsInv(s1, "O", "G1");
    AddGuardianKeepsInv(s2, "O", "G2");
    AddGuardianKeepsInv(s3, "O", "G3");
    s4
  }

  /** A wallet owned by "O" with guardians "G1", "G2" and the given threshold. */
  function TwoGuardians(threshold: int): (s: WalletState)
    ensures Inv(s)
    ensures s.owner == "O" && s.guardians == {"G1", "G2"} && s.threshold == threshold
    ensures s.proposals == map[]
  {
    var s1 := Initialize(Empty(), "O", threshold).state;
    var s2 := AddGuardian(s1, "O", "G1").state;
    var s3 := AddGuardian(s2, "O", "G2").state;
    InitializeKeepsInv(Empty(), "O", threshold);
    AddGuardianKeepsInv(s1, "O", "G1");
    AddGuardianKeepsInv(s2, "O", "G2");
    s3
  }

  /**
   * Once a non-empty owner is set, initialize fails with Unauthorized and
   * changes nothing, whatever its arguments.
   */
  lemma InitializeIsOneShot(s: WalletState, owner1: Address, t1: int, owner2: Address, t2: int)
    requires owner1 != ""
    ensures var s1 := Initialize(s, owner1, t1).state;
      Initialize(s1, owner2, t2) == Outcome(s1, Err(Unauthorized))
  {
  }

  /**
   * With the empty address as the first owner, initialize can succeed a
   * second time, and the empty address stays among the wallet owners beside
   * the new owner.
   */
  lemma EmptyOwnerAllowsSecondInitialize()
    ensures var o1 := Initialize(Empty(), "", 1);
      var o2 := Initialize(o1.state, "O", 2);
      && o1.result.Ok? && o2.result.Ok?
      && o2.state.owner == "O" && o2.state.walletOwners == {"", "O"}
  {
  }

  /**
   * Threshold 2, votes from G1 (initiator) and G2: the recovery executes,
   * whoever calls it, and "N" becomes the owner.
   */
  lemma RecoveryExecutesAtThreshold(anyone: Address)
    ensures var s := ThreeGuardians(2);
      var o1 := InitiateRecovery(s, "G1", "N");
      var o2 := SupportRecovery(o1.state, "G2", 0);
      var o3 := ExecuteRecovery(o2.state, anyone, 0);
      && o1.result == Ok(0)
      && o2.result == Ok(())
      && o2.state.proposals[0].voteCount == 2
      && o3.result == Ok(())
      && o3.state.owner == "N"
      && o3.state.proposals[0].completed && !o3.state.proposals[0].active
  {
  }

  /** Threshold 3 and only two votes: execution fails and "O" stays the owner. */
  lemma RecoveryBelowThresholdFails(anyone: Address)
    ensures var s := ThreeGuardians(3);
      var o1 := InitiateRecovery(s, "G1", "N");
      var o2 := SupportRecovery(o1.state, "G2", 0);
      var o3 := ExecuteRecovery(o2.state, anyone, 0);
      && o1.result == Ok(0)
      && o2.result == Ok(())
      && o3 == Outcome(o2.state, Err(ThresholdNotMet))
      && o3.state.owner == "O"
  {
  }

  /** The initiator's vote is counted at creation, so its explicit vote is refused. */
  lemma InitiatorCannotVoteAgain()
    ensures var s := TwoGuardians(2);
      var o1 := InitiateRecovery(s, "G1", "N");
      SupportRecovery(o1.state, "G1", 0) == Outcome(o1.state, Err(AlreadyVoted))
  {
  }

  /**
   * Threshold 2 and two guardians: removing G1 reports InvalidThreshold,
   * yet G1 is no longer a guardian and the count has dropped to 1.
   */
  lemma RemovalStandsOnThresholdError()
    ensures var s1 := Initialize(Empty(), "O", 2).state;
      var s2 := AddGuardian(s1, "O", "G1").state;
      var s3 := AddGuardian(s2, "O", "G2").state;
      var o := RemoveGuardian(s3, "O", "G1");
      && o.result == Err(InvalidThreshold)
      && "G1" !in o.state.guardians
      && o.state.guardianCount == 1
  {
  }

  /**
   * addGuardian does not look at the threshold: a threshold set by
   * initialize above the guardian count stays above it after a successful add.
   */
  lemma AddGuardianLeavesThresholdUnchecked()
    ensures var s1 := Initialize(Empty(), "O", 2).state;
      var o := AddGuardian(s1, "O", "G1");
      && o.result.Ok?
      && o.state.threshold > o.state.guardianCount
  {
  }

  /**
   * A recovery whose proposed owner is the empty address reopens
   * initialize: anyone can then install a new owner and threshold.
   */
  lemma RecoveryToEmptyOwnerReopensInitialize(anyone: Address)
    ensures var s := ThreeGuardians(1);
      var o1 := InitiateRecovery(s, "G1", "");
      var o2 := ExecuteRecovery(o1.state, anyone, 0);
      var o3 := Initialize(o2.state, "Mallory", 0);
      && o2.result == Ok(())
      && o3.result == Ok(())
      && o3.state.owner == "Mallory" && o3.state.threshold == 0
      && CheckOwner(o3.state, "Mallory") == Ok(())
  {
  }

  /** A non-owner's cancel is refused and the proposal stays active. */
  lemma NonOwnerCannotCancel()
    ensures var s := TwoGuardians(2);
      var o1 := InitiateRecovery(s, "G1", "N");
      var o2 := CancelRecovery(o1.state, "random-address", 0);
      && o2 == Outcome(o1.state, Err(Unauthorized))
      && o2.state.proposals[0].active
  {
  }

  /**
   * The owner cancels a proposal; it is inactive and not completed, and a
   * later execute is refused with RecoveryNotActive.
   */
  lemma CancelledProposalCannotExecute(anyone: Address)
    ensures var s := TwoGuardians(2);
      var o1 := InitiateRecovery(s, "G1", "N");
      var o2 := CancelRecovery(o1.state, "O", 0);
      && o2.result == Ok(())
      && !o2.state.proposals[0].active && !o2.state.proposals[0].completed
      && ExecuteRecovery(o2.state, anyone, 0) == Outcome(o2.state, Err(RecoveryNotActive))
  {
  }
}
