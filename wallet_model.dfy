/**
 * The social recovery wallet as a state machine on values.
 *
 * Every operation of the wallet is a function of (state, caller, argument)
 * to an Outcome: the new state and the tagged result the caller sees.
 * Inv collects what holds in every state the operations can reach, and one
 * lemma per mutating operation shows that the operation keeps it.
 */
module WalletModel {

  /** An account address (a principal in the contract this wallet imitates). */
  type Address = string

  /** The eight error kinds, declared in the order of their numeric codes. */
  datatype Error =
    | Unauthorized
    | InvalidThreshold
    | AlreadyVoted
    | RecoveryNotActive
    | InvalidGuardian
    | RecoveryInProgress  // declared with a code but never returned
    | RecoveryCompleted
    | ThresholdNotMet

  /** The stable numeric code of each error kind. */
  function Code(e: Error): (c: int)
    ensures 1 <= c <= 8
  {
    match e
    case Unauthorized => 1
    case InvalidThreshold => 2
    case AlreadyVoted => 3
    case RecoveryNotActive => 4
    case InvalidGuardian => 5
    case RecoveryInProgress => 6
    case RecoveryCompleted => 7
    case ThresholdNotMet => 8
  }

  /** Distinct error kinds have distinct codes, so a code identifies its kind. */
  lemma CodeInjective(e1: Error, e2: Error)
    ensures Code(e1) == Code(e2) <==> e1 == e2
  {
  }

  datatype Result<T> = Ok(value: T) | Err(error: Error)

  datatype Option<T> = None | Some(value: T)

  /** One recovery proposal; `threshold` is the wallet threshold when it was created. */
  datatype Proposal = Proposal(
    initiator: Address,
    proposedOwner: Address,
    voteCount: int,
    threshold: int,
    active: bool,
    completed: bool)

  /**
   * The whole wallet. `votes` holds a pair (id, guardian) for every vote
   * cast on proposal `id`; `walletOwners` is the set consulted when the
   * caller must be the owner.
   */
  datatype WalletState = WalletState(
    owner: Address,
    guardians: set<Address>,
    threshold: int,
    guardianCount: int,
    recoveryNonce: nat,
    walletOwners: set<Address>,
    votes: set<(int, Address)>,
    proposals: map<int, Proposal>)

  /** What an operation leaves behind and what it returns. */
  datatype Outcome<T> = Outcome(state: WalletState, result: Result<T>)

  /** The guardians recorded as having voted on proposal `id`. */
  function Voters(votes: set<(int, Address)>, id: int): (r: set<Address>)
    ensures forall g :: g in r <==> (id, g) in votes
  {
    set v | v in votes && v.0 == id :: v.1
  }

  /** What holds of one stored proposal. */
  ghost predicate ProposalInv(s: WalletState, id: int)
    requires id in s.proposals
  {
    var p := s.proposals[id];
    && (p.completed ==> !p.active)
    && (id, p.initiator) in s.votes
    && p.voteCount == |Voters(s.votes, id)|
  }

  /**
   * The wallet invariant: the tracked count is the number of guardians; the
   * only non-empty address authorised as owner is the owner; the proposals
   * are exactly those numbered 0 .. recoveryNonce-1; every vote is on an
   * existing proposal; and each proposal's vote count is its number of voters.
   */
  ghost predicate Inv(s: WalletState)
  {
    && s.guardianCount == |s.guardians|
    && s.walletOwners - {""} == {s.owner} - {""}
    && (forall id :: id in s.proposals <==> 0 <= id < s.recoveryNonce)
    && (forall v | v in s.votes :: v.0 in s.proposals)
    && (forall id | id in s.proposals :: ProposalInv(s, id))
  }

  /** The state of a freshly constructed wallet: no owner, nothing stored. */
  function Empty(): (s: WalletState)
    ensures Inv(s)
    ensures s.owner == "" && s.guardians == {} && s.proposals == map[]
  {
    WalletState("", {}, 0, 0, 0, {}, {}, map[])
  }

  /** The owner check: the caller must be in the set of wallet owners. */
  function CheckOwner(s: WalletState, caller: Address): (r: Result<()>)
    ensures r == Ok(()) || r == Err(Unauthorized)
    ensures r.Ok? <==> caller in s.walletOwners
  {
    if caller in s.walletOwners then Ok(()) else Err(Unauthorized)
  }

  /** For a non-empty caller, passing the owner check means being the owner. */
  lemma CheckOwnerMeansOwner(s: WalletState, caller: Address)
    requires Inv(s)
    requires caller != ""
    ensures CheckOwner(s, caller).Ok? <==> caller == s.owner
  {
    assert caller in s.walletOwners <==> caller in s.walletOwners - {""};
  }

  /**
   * initialize: fails with Unauthorized once an owner is set; otherwise sets
   * the owner and the threshold (unchecked) and authorises the new owner.
   */
  function Initialize(s: WalletState, newOwner: Address, threshold: int): (o: Outcome<()>)
    ensures o.result.Ok? <==> s.owner == ""
    ensures o.result.Err? ==> o == Outcome(s, Err(Unauthorized))
    ensures o.result.Ok? ==>
      o.state == s.(owner := newOwner, threshold := threshold,
                    walletOwners := s.walletOwners + {newOwner})
  {
    if s.owner != "" then Outcome(s, Err(Unauthorized))
    else Outcome(s.(owner := newOwner, threshold := threshold,
                    walletOwners := s.walletOwners + {newOwner}), Ok(()))
  }

  /**
   * addGuardian: only the owner may add; re-adding an existing guardian is
   * rejected with Unauthorized; otherwise the guardian is inserted and the
   * count goes up by one.
   */
  function AddGuardian(s: WalletState, caller: Address, guardian: Address): (o: Outcome<()>)
    ensures o.result.Ok? <==> caller in s.walletOwners && guardian !in s.guardians
    ensures o.result.Err? ==> o == Outcome(s, Err(Unauthorized))
    ensures o.result.Ok? ==>
      o.state == s.(guardians := s.guardians + {guardian}, guardianCount := s.guardianCount + 1)
  {
    if CheckOwner(s, caller).Err? then Outcome(s, Err(Unauthorized))
    else if guardian in s.guardians then Outcome(s, Err(Unauthorized))
    else Outcome(s.(guardians := s.guardians + {guardian},
                    guardianCount := s.guardianCount + 1), Ok(()))
  }

  /**
   * removeGuardian: only the owner may remove; a non-guardian is rejected
   * with InvalidGuardian. Otherwise the guardian is deleted and the count
   * decremented, and only THEN is the threshold compared with the new
   * count: when it exceeds the count the result is InvalidThreshold but the
   * removal stands.
   */
  function RemoveGuardian(s: WalletState, caller: Address, guardian: Address): (o: Outcome<()>)
    ensures caller !in s.walletOwners ==> o == Outcome(s, Err(Unauthorized))
    ensures caller in s.walletOwners && guardian !in s.guardians ==>
      o == Outcome(s, Err(InvalidGuardian))
    ensures caller in s.walletOwners && guardian in s.guardians ==>
      && o.state == s.(guardians := s.guardians - {guardian}, guardianCount := s.guardianCount - 1)
      && o.result == (if s.threshold > s.guardianCount - 1 then Err(InvalidThreshold) else Ok(()))
  {
    if CheckOwner(s, caller).Err? then Outcome(s, Err(Unauthorized))
    else if guardian !in s.guardians then Outcome(s, Err(InvalidGuardian))
    else
      var s' := s.(guardians := s.guardians - {guardian}, guardianCount := s.guardianCount - 1);
      if s'.threshold > s'.guardianCount then Outcome(s', Err(InvalidThreshold))
      else Outcome(s', Ok(()))
  }

  /**
   * updateThreshold: only the owner may update; the new threshold must lie
   * in 1 .. guardianCount, else InvalidThreshold and nothing changes.
   */
  function UpdateThreshold(s: WalletState, caller: Address, newThreshold: int): (o: Outcome<()>)
    ensures caller !in s.walletOwners ==> o == Outcome(s, Err(Unauthorized))
    ensures caller in s.walletOwners ==>
      (o.result.Ok? <==> 0 < newThreshold <= s.guardianCount)
    ensures o.result.Err? ==> o.state == s
    ensures caller in s.walletOwners && o.result.Err? ==> o.result.error == InvalidThreshold
    ensures o.result.Ok? ==>
      o.state == s.(threshold := newThreshold) && 1 <= o.state.threshold <= o.state.guardianCount
  {
    if CheckOwner(s, caller).Err? then Outcome(s, Err(Unauthorized))
    else if newThreshold > s.guardianCount || newThreshold <= 0 then Outcome(s, Err(InvalidThreshold))
    else Outcome(s.(threshold := newThreshold), Ok(()))
  }

  /**
   * initiateRecovery: only a current guardian may propose. The proposal gets
   * the next nonce as its id, the initiator's vote, and a snapshot of the
   * current threshold; the nonce then moves on by one.
   */
  function InitiateRecovery(s: WalletState, caller: Address, proposedOwner: Address): (o: Outcome<int>)
    ensures o.result.Ok? <==> caller in s.guardians
    ensures o.result.Err? ==> o == Outcome(s, Err(InvalidGuardian))
    ensures o.result.Ok? ==>
      && o.result.value == s.recoveryNonce
      && o.state.recoveryNonce == s.recoveryNonce + 1
      && o.state.proposals == s.proposals[s.recoveryNonce :=
           Proposal(caller, proposedOwner, 1, s.threshold, true, false)]
      && o.state.votes == s.votes + {(s.recoveryNonce, caller)}
      && o.state.(recoveryNonce := s.recoveryNonce, proposals := s.proposals, votes := s.votes) == s
  {
    if caller !in s.guardians then Outcome(s, Err(InvalidGuardian))
    else
      var id := s.recoveryNonce;
      var p := Proposal(caller, proposedOwner, 1, s.threshold, true, false);
      Outcome(s.(proposals := s.proposals[id := p],
                 votes := s.votes + {(id, caller)},
                 recoveryNonce := s.recoveryNonce + 1), Ok(id))
  }

  /**
   * supportRecovery: checks, in this order, that the proposal exists and is
   * active, that it is not completed, that the caller is a guardian now,
   * and that the caller has not voted on it yet. A vote is then recorded
   * and the vote count goes up by one.
   */
  function SupportRecovery(s: WalletState, caller: Address, id: int): (o: Outcome<()>)
    ensures o.result.Err? ==> o.state == s
    ensures id !in s.proposals || !s.proposals[id].active ==> o.result == Err(RecoveryNotActive)
    ensures id in s.proposals && s.proposals[id].active ==>
      o.result == (if s.proposals[id].completed then Err(RecoveryCompleted)
                   else if caller !in s.guardians then Err(InvalidGuardian)
                   else if (id, caller) in s.votes then Err(AlreadyVoted)
                   else Ok(()))
    ensures o.result.Ok? ==>
      && o.state.votes == s.votes + {(id, caller)}
      && o.state.proposals == s.proposals[id := s.proposals[id].(voteCount := s.proposals[id].voteCount + 1)]
      && o.state.(votes := s.votes, proposals := s.proposals) == s
  {
    if id !in s.proposals || !s.proposals[id].active then Outcome(s, Err(RecoveryNotActive))
    else
      var p := s.proposals[id];
      if p.completed then Outcome(s, Err(RecoveryCompleted))
      else if caller !in s.guardians then Outcome(s, Err(InvalidGuardian))
      else if (id, caller) in s.votes then Outcome(s, Err(AlreadyVoted))
      else Outcome(s.(votes := s.votes + {(id, caller)},
                      proposals := s.proposals[id := p.(voteCount := p.voteCount + 1)]), Ok(()))
  }

  /**
   * executeRecovery: anyone may call it. It succeeds exactly when the
   * proposal is active, not completed, and has at least as many votes as
   * the threshold snapshotted at its creation; the proposal then becomes
   * completed and inactive and the proposed owner replaces the owner, also
   * in the set of wallet owners.
   */
  function ExecuteRecovery(s: WalletState, caller: Address, id: int): (o: Outcome<()>)
    ensures o.result.Ok? <==>
      && id in s.proposals && s.proposals[id].active && !s.proposals[id].completed
      && s.proposals[id].voteCount >= s.proposals[id].threshold
    ensures o.result.Err? ==> o.state == s
    ensures o.result.Err? ==>
      o.result.error == (if id !in s.proposals || !s.proposals[id].active then RecoveryNotActive
                         else if s.proposals[id].completed then RecoveryCompleted
                         else ThresholdNotMet)
    ensures o.result.Ok? ==>
      var p := s.proposals[id];
      && o.state.proposals == s.proposals[id := p.(active := false, completed := true)]
      && o.state.owner == p.proposedOwner
      && o.state.walletOwners == s.walletOwners - {s.owner} + {p.proposedOwner}
      && o.state.(proposals := s.proposals, owner := s.owner, walletOwners := s.walletOwners) == s
  {
    if id !in s.proposals || !s.proposals[id].active then Outcome(s, Err(RecoveryNotActive))
    else
      var p := s.proposals[id];
      if p.completed then Outcome(s, Err(RecoveryCompleted))
      else if p.voteCount < p.threshold then Outcome(s, Err(ThresholdNotMet))
      else Outcome(s.(proposals := s.proposals[id := p.(active := false, completed := true)],
                      owner := p.proposedOwner,
                      walletOwners := s.walletOwners - {s.owner} + {p.proposedOwner}), Ok(()))
  }

  /**
   * cancelRecovery: only the current owner may cancel; the proposal must be
   * active and not completed. Cancelling makes it inactive and leaves it not
   * completed, which tells a cancelled proposal from an executed one.
   */
  function CancelRecovery(s: WalletState, caller: Address, id: int): (o: Outcome<()>)
    ensures o.result.Err? ==> o.state == s
    ensures o.result.Ok? <==>
      caller in s.walletOwners && id in s.proposals && s.proposals[id].active && !s.proposals[id].completed
    ensures o.result.Err? ==>
      o.result.error == (if caller !in s.walletOwners then Unauthorized
                         else if id !in s.proposals || !s.proposals[id].active then RecoveryNotActive
                         else RecoveryCompleted)
    ensures o.result.Ok? ==>
      o.state == s.(proposals := s.proposals[id := s.proposals[id].(active := false)])
  {
    if CheckOwner(s, caller).Err? then Outcome(s, Err(Unauthorized))
    else if id !in s.proposals || !s.proposals[id].active then Outcome(s, Err(RecoveryNotActive))
    else
      var p := s.proposals[id];
      if p.completed then Outcome(s, Err(RecoveryCompleted))
      else Outcome(s.(proposals := s.proposals[id := p.(active := false)]), Ok(()))
  }

  // ---------------------------------------------------------------------
  // Each mutating operation keeps the invariant.
  // ---------------------------------------------------------------------

  /** Adding a vote on `id` adds the voter to `id`'s voters and to no other proposal's. */
  lemma VotersAfterVote(votes: set<(int, Address)>, id: int, g: Address, other: int)
    ensures Voters(votes + {(id, g)}, other) ==
      if other == id then Voters(votes, other) + {g} else Voters(votes, other)
  {
  }

  lemma InitializeKeepsInv(s: WalletState, newOwner: Address, threshold: int)
    requires Inv(s)
    ensures Inv(Initialize(s, newOwner, threshold).state)
  {
    var s' := Initialize(s, newOwner, threshold).state;
    if s.owner == "" {
      assert s.walletOwners - {""} == {};
      assert s'.walletOwners - {""} == {newOwner} - {""};
      forall id | id in s'.proposals ensures ProposalInv(s', id) {
        assert ProposalInv(s, id);
      }
    }
  }

  lemma AddGuardianKeepsInv(s: WalletState, caller: Address, guardian: Address)
    requires Inv(s)
    ensures Inv(AddGuardian(s, caller, guardian).state)
  {
  }

  lemma RemoveGuardianKeepsInv(s: WalletState, caller: Address, guardian: Address)
    requires Inv(s)
    ensures Inv(RemoveGuardian(s, caller, guardian).state)
  {
  }

  lemma UpdateThresholdKeepsInv(s: WalletState, caller: Address, newThreshold: int)
    requires Inv(s)
    ensures Inv(UpdateThreshold(s, caller, newThreshold).state)
  {
  }

  lemma InitiateRecoveryKeepsInv(s: WalletState, caller: Address, proposedOwner: Address)
    requires Inv(s)
    ensures Inv(InitiateRecovery(s, caller, proposedOwner).state)
  {
    var o := InitiateRecovery(s, caller, proposedOwner);
    var s' := o.state;
    if o.result.Ok? {
      var n := s.recoveryNonce;
      assert forall g :: (n, g) !in s.votes;
      assert Voters(s.votes, n) == {};
      forall id | id in s'.proposals ensures ProposalInv(s', id) {
        VotersAfterVote(s.votes, n, caller, id);
        if id != n {
          assert ProposalInv(s, id);
        }
      }
    }
  }

  lemma SupportRecoveryKeepsInv(s: WalletState, caller: Address, id: int)
    requires Inv(s)
    ensures Inv(SupportRecovery(s, caller, id).state)
  {
    var o := SupportRecovery(s, caller, id);
    var s' := o.state;
    if o.result.Ok? {
      forall k | k in s'.proposals ensures ProposalInv(s', k) {
        VotersAfterVote(s.votes, id, caller, k);
        assert ProposalInv(s, k);
      }
    }
  }

  lemma ExecuteRecoveryKeepsInv(s: WalletState, caller: Address, id: int)
    requires Inv(s)
    ensures Inv(ExecuteRecovery(s, caller, id).state)
  {
    var o := ExecuteRecovery(s, caller, id);
    var s' := o.state;
    if o.result.Ok? {
      var n := s.proposals[id].proposedOwner;
      assert s'.walletOwners - {""} == {n} - {""} by {
        forall a ensures a in s'.walletOwners - {""} <==> a in {n} - {""} {
          if a != "" && a != n && a in s.walletOwners {
            assert a in s.walletOwners - {""};
          }
        }
      }
      forall k | k in s'.proposals ensures ProposalInv(s', k) {
        assert ProposalInv(s, k);
      }
    }
  }

  lemma CancelRecoveryKeepsInv(s: WalletState, caller: Address, id: int)
    requires Inv(s)
    ensures Inv(CancelRecovery(s, caller, id).state)
  {
  }
}
