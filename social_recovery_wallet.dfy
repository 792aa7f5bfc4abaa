/**
 * The wallet object. Its fields are the wallet's storage and its methods
 * update them in place; the caller of each operation is an explicit
 * parameter. Every method is proved to do what the matching function of
 * WalletModel does to State(), and to keep Valid().
 */
module SocialRecovery {
  import opened WalletModel

  class SocialRecoveryWallet {
    var owner: Address
    var guardians: set<Address>
    var guardianThreshold: int
    var guardianCount: int
    var recoveryNonce: nat
    var walletOwners: set<Address>
    var recoveryVotes: set<(int, Address)>
    var recoveryStatus: map<int, Proposal>

    /** The fields, read as one value of the state machine. */
    ghost function State(): WalletState
      reads this
    {
      WalletState(owner, guardians, guardianThreshold, guardianCount, recoveryNonce,
                  walletOwners, recoveryVotes, recoveryStatus)
    }

    ghost predicate Valid()
      reads this
    {
      Inv(State())
    }

    constructor ()
      ensures Valid() && State() == Empty()
    {
      owner := "";
      guardians := {};
      guardianThreshold := 0;
      guardianCount := 0;
      recoveryNonce := 0;
      walletOwners := {};
      recoveryVotes := {};
      recoveryStatus := map[];
    }

    method Initialize(newOwner: Address, threshold: int) returns (r: Result<()>)
      requires Valid()
      modifies this
      ensures Valid()
      ensures Outcome(State(), r) == WalletModel.Initialize(old(State()), newOwner, threshold)
    {
      if owner != "" {
        return Err(Unauthorized);
      }
      owner := newOwner;
      guardianThreshold := threshold;
      walletOwners := walletOwners + {newOwner};
      r := Ok(());
      InitializeKeepsInv(old(State()), newOwner, threshold);
    }

    /** The owner check; it reads the wallet and changes nothing. */
    method CheckOwner(caller: Address) returns (r: Result<()>)
      requires Valid()
      ensures r == Ok(()) || r == Err(Unauthorized)
      ensures r.Ok? <==> caller in walletOwners
      ensures caller != "" ==> (r.Ok? <==> caller == owner)
    {
      if caller != "" {
        CheckOwnerMeansOwner(State(), caller);
      }
      r := if caller in walletOwners then Ok(()) else Err(Unauthorized);
    }

    method AddGuardian(caller: Address, guardian: Address) returns (r: Result<()>)
      requires Valid()
      modifies this
      ensures Valid()
      ensures Outcome(State(), r) == WalletModel.AddGuardian(old(State()), caller, guardian)
    {
      var ownerCheck := CheckOwner(caller);
      if ownerCheck.Err? {
        return ownerCheck;
      }
      if guardian in guardians {
        return Err(Unauthorized);
      }
      guardians := guardians + {guardian};
      guardianCount := guardianCount + 1;
      r := Ok(());
      AddGuardianKeepsInv(old(State()), caller, guardian);
    }

    method RemoveGuardian(caller: Address, guardian: Address) returns (r: Result<()>)
      requires Valid()
      modifies this
      ensures Valid()
      ensures Outcome(State(), r) == WalletModel.RemoveGuardian(old(State()), caller, guardian)
    {
      var ownerCheck := CheckOwner(caller);
      if ownerCheck.Err? {
        return ownerCheck;
      }
      if guardian !in guardians {
        return Err(InvalidGuardian);
      }
      guardians := guardians - {guardian};
      guardianCount := guardianCount - 1;
      RemoveGuardianKeepsInv(old(State()), caller, guardian);
      if guardianThreshold > guardianCount {
        return Err(InvalidThreshold);
      }
      r := Ok(());
    }

    method UpdateThreshold(caller: Address, newThreshold: int) returns (r: Result<()>)
      requires Valid()
      modifies this
      ensures Valid()
      ensures Outcome(State(), r) == WalletModel.UpdateThreshold(old(State()), caller, newThreshold)
    {
      var ownerCheck := CheckOwner(caller);
      if ownerCheck.Err? {
        return ownerCheck;
      }
      if newThreshold > guardianCount || newThreshold <= 0 {
        return Err(InvalidThreshold);
      }
      guardianThreshold := newThreshold;
      r := Ok(());
      UpdateThresholdKeepsInv(old(State()), caller, newThreshold);
    }

    method InitiateRecovery(caller: Address, proposedOwner: Address) returns (r: Result<int>)
      requires Valid()
      modifies this
      ensures Valid()
      ensures Outcome(State(), r) == WalletModel.InitiateRecovery(old(State()), caller, proposedOwner)
    {
      if caller !in guardians {
        return Err(InvalidGuardian);
      }
      var recoveryId := recoveryNonce;
      recoveryStatus := recoveryStatus[recoveryId :=
        Proposal(caller, proposedOwner, 1, guardianThreshold, true, false)];
      recoveryVotes := recoveryVotes + {(recoveryId, caller)};
      recoveryNonce := recoveryNonce + 1;
      r := Ok(recoveryId);
      InitiateRecoveryKeepsInv(old(State()), caller, proposedOwner);
    }

    method SupportRecovery(caller: Address, recoveryId: int) returns (r: Result<()>)
      requires Valid()
      modifies this
      ensures Valid()
      ensures Outcome(State(), r) == WalletModel.SupportRecovery(old(State()), caller, recoveryId)
    {
      if recoveryId !in recoveryStatus || !recoveryStatus[recoveryId].active {
        return Err(RecoveryNotActive);
      }
      var recovery := recoveryStatus[recoveryId];
      if recovery.completed {
        return Err(RecoveryCompleted);
      }
      if caller !in guardians {
        return Err(InvalidGuardian);
      }
      if (recoveryId, caller) in recoveryVotes {
        return Err(AlreadyVoted);
      }
      recoveryVotes := recoveryVotes + {(recoveryId, caller)};
      recovery := recovery.(voteCount := recovery.voteCount + 1);
      recoveryStatus := recoveryStatus[recoveryId := recovery];
      r := Ok(());
      SupportRecoveryKeepsInv(old(State()), caller, recoveryId);
    }

    method ExecuteRecovery(caller: Address, recoveryId: int) returns (r: Result<()>)
      requires Valid()
      modifies this
      ensures Valid()
      ensures Outcome(State(), r) == WalletModel.ExecuteRecovery(old(State()), caller, recoveryId)
    {
      if recoveryId !in recoveryStatus || !recoveryStatus[recoveryId].active {
        return Err(RecoveryNotActive);
      }
      var recovery := recoveryStatus[recoveryId];
      if recovery.completed {
        return Err(RecoveryCompleted);
      }
      if recovery.voteCount < recovery.threshold {
        return Err(ThresholdNotMet);
      }
      recovery := recovery.(active := false, completed := true);
      recoveryStatus := recoveryStatus[recoveryId := recovery];
      var oldOwner := owner;
      var newOwner := recovery.proposedOwner;
      walletOwners := walletOwners - {oldOwner};
      owner := newOwner;
      walletOwners := walletOwners + {newOwner};
      r := Ok(());
      ExecuteRecoveryKeepsInv(old(State()), caller, recoveryId);
    }

    method CancelRecovery(caller: Address, recoveryId: int) returns (r: Result<()>)
      requires Valid()
      modifies this
      ensures Valid()
      ensures Outcome(State(), r) == WalletModel.CancelRecovery(old(State()), caller, recoveryId)
    {
      var ownerCheck := CheckOwner(caller);
      if ownerCheck.Err? {
        return ownerCheck;
      }
      if recoveryId !in recoveryStatus || !recoveryStatus[recoveryId].active {
        return Err(RecoveryNotActive);
      }
      var recovery := recoveryStatus[recoveryId];
      if recovery.completed {
        return Err(RecoveryCompleted);
      }
      recovery := recovery.(active := false);
      recoveryStatus := recoveryStatus[recoveryId := recovery];
      r := Ok(());
      CancelRecoveryKeepsInv(old(State()), caller, recoveryId);
    }

    // Read-only queries: no authorisation, no change.

    /** The owner: the one non-empty address the owner check admits (none while unset). */
    function GetOwner(): (o: Address)
      reads this
      requires Valid()
      ensures forall a | a != "" :: a in walletOwners <==> a == o
    {
      assert forall a | a != "" :: a in walletOwners <==> a in walletOwners - {""};
      owner
    }

    /**
     * The threshold last stored by initialize or updateThreshold, which a
     * proposal made now would snapshot.
     */
    function GetThreshold(): (t: int)
      reads this
      ensures t == State().threshold
    {
      guardianThreshold
    }

    /** Whether `address` is a guardian now; if so there is at least one guardian. */
    function IsGuardian(address: Address): (b: bool)
      reads this
      requires Valid()
      ensures b ==> GetGuardianCount() >= 1
    {
      address in guardians
    }

    /**
     * The stored proposal, if any: there is one exactly for the ids
     * 0 .. recoveryNonce-1, and its vote count is the number of guardians
     * recorded as having voted on it, its initiator among them.
     */
    function GetRecoveryStatus(recoveryId: int): (p: Option<Proposal>)
      reads this
      requires Valid()
      ensures p.Some? <==> 0 <= recoveryId < recoveryNonce
      ensures p.Some? ==>
        && p.value.voteCount == |Voters(recoveryVotes, recoveryId)|
        && HasVoted(recoveryId, p.value.initiator)
        && (p.value.completed ==> !p.value.active)
    {
      if recoveryId in recoveryStatus then
        assert ProposalInv(State(), recoveryId);
        Some(recoveryStatus[recoveryId])
      else None
    }

    /** Whether `guardian` voted on `recoveryId`; votes exist only on stored proposals. */
    function HasVoted(recoveryId: int, guardian: Address): (b: bool)
      reads this
      requires Valid()
      ensures b ==> 0 <= recoveryId < recoveryNonce
    {
      (recoveryId, guardian) in recoveryVotes
    }

    /** The number of guardians. */
    function GetGuardianCount(): (n: int)
      reads this
      requires Valid()
      ensures n == |guardians|
    {
      guardianCount
    }
  }
}
