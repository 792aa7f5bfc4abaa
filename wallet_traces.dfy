/**
 * Sequences of calls on the wallet. A Call names one mutating operation
 * with its caller and argument; Run applies a sequence of them in order.
 * The lemmas here hold for every sequence of calls: the invariant, the
 * growth of proposals and votes, the fate of finished proposals, and which
 * calls can change the owner.
 */
module WalletTraces {
  import opened WalletModel

  datatype Call =
    | InitializeCall(newOwner: Address, threshold: int)
    | AddGuardianCall(caller: Address, guardian: Address)
    | RemoveGuardianCall(caller: Address, guardian: Address)
    | UpdateThresholdCall(caller: Address, newThreshold: int)
    | InitiateRecoveryCall(caller: Address, proposedOwner: Address)
    | SupportRecoveryCall(caller: Address, id: int)
    | ExecuteRecoveryCall(caller: Address, id: int)
    | CancelRecoveryCall(caller: Address, id: int)

  /** The state after one call. */
  function Next(s: WalletState, c: Call): WalletState
  {
    match c
    case InitializeCall(o, t) => Initialize(s, o, t).state
    case AddGuardianCall(a, g) => AddGuardian(s, a, g).state
    case RemoveGuardianCall(a, g) => RemoveGuardian(s, a, g).state
    case UpdateThresholdCall(a, t) => UpdateThreshold(s, a, t).state
    case InitiateRecoveryCall(a, o) => InitiateRecovery(s, a, o).state
    case SupportRecoveryCall(a, id) => SupportRecovery(s, a, id).state
    case ExecuteRecoveryCall(a, id) => ExecuteRecovery(s, a, id).state
    case CancelRecoveryCall(a, id) => CancelRecovery(s, a, id).state
  }

  /** The state after the calls, applied first to last. */
  function Run(s: WalletState, calls: seq<Call>): WalletState
    decreases |calls|
  {
    if calls == [] then s else Run(Next(s, calls[0]), calls[1..])
  }

  /** Every call keeps the invariant. */
  lemma NextKeepsInv(s: WalletState, c: Call)
    requires Inv(s)
    ensures Inv(Next(s, c))
  {
    match c
    case InitializeCall(o, t) => InitializeKeepsInv(s, o, t);
    case AddGuardianCall(a, g) => AddGuardianKeepsInv(s, a, g);
    case RemoveGuardianCall(a, g) => RemoveGuardianKeepsInv(s, a, g);
    case UpdateThresholdCall(a, t) => UpdateThresholdKeepsInv(s, a, t);
    case InitiateRecoveryCall(a, o) => InitiateRecoveryKeepsInv(s, a, o);
    case SupportRecoveryCall(a, id) => SupportRecoveryKeepsInv(s, a, id);
    case ExecuteRecoveryCall(a, id) => ExecuteRecoveryKeepsInv(s, a, id);
    case CancelRecoveryCall(a, id) => CancelRecoveryKeepsInv(s, a, id);
  }

  /** Any sequence of calls keeps the invariant. */
  lemma {:induction false} RunKeepsInv(s: WalletState, calls: seq<Call>)
    requires Inv(s)
    ensures Inv(Run(s, calls))
    decreases |calls|
  {
    if calls != [] {
      NextKeepsInv(s, calls[0]);
      RunKeepsInv(Next(s, calls[0]), calls[1..]);
    }
  }

  /** Every state reachable from a fresh wallet satisfies the invariant. */
  lemma ReachableStatesKeepInv(calls: seq<Call>)
    ensures Inv(Run(Empty(), calls))
  {
    RunKeepsInv(Empty(), calls);
  }

  /** Whether `p` and `q` are the same proposal: same initiator, proposed owner and threshold snapshot. */
  predicate SameProposal(p: Proposal, q: Proposal)
  {
    p.initiator == q.initiator && p.proposedOwner == q.proposedOwner && p.threshold == q.threshold
  }

  /**
   * One call never removes a proposal, a vote or a guardian-independent fact
   * about a proposal: the nonce only grows, every stored proposal stays with
   * the same initiator, proposed owner and threshold snapshot, an inactive
   * proposal is never touched again, and a completed one stays completed.
   */
  lemma NextKeepsHistory(s: WalletState, c: Call)
    requires Inv(s)
    ensures Next(s, c).recoveryNonce >= s.recoveryNonce
    ensures s.votes <= Next(s, c).votes
    ensures forall id | id in s.proposals ::
      && id in Next(s, c).proposals
      && SameProposal(s.proposals[id], Next(s, c).proposals[id])
      && (s.proposals[id].completed ==> Next(s, c).proposals[id].completed)
      && (!s.proposals[id].active ==> Next(s, c).proposals[id] == s.proposals[id])
  {
  }

  /** What one call keeps, any sequence of calls keeps. */
  lemma {:induction false} RunKeepsHistory(s: WalletState, calls: seq<Call>)
    requires Inv(s)
    ensures Run(s, calls).recoveryNonce >= s.recoveryNonce
    ensures s.votes <= Run(s, calls).votes
    ensures forall id | id in s.proposals ::
      && id in Run(s, calls).proposals
      && SameProposal(s.proposals[id], Run(s, calls).proposals[id])
      && (s.proposals[id].completed ==> Run(s, calls).proposals[id].completed)
      && (!s.proposals[id].active ==> Run(s, calls).proposals[id] == s.proposals[id])
    decreases |calls|
  {
    if calls != [] {
      var s1 := Next(s, calls[0]);
      NextKeepsHistory(s, calls[0]);
      NextKeepsInv(s, calls[0]);
      RunKeepsHistory(s1, calls[1..]);
    }
  }

  /**
   * A finished proposal (executed or cancelled, so inactive) is frozen:
   * after any calls it is still stored, unchanged.
   */
  lemma FinishedProposalIsFrozen(s: WalletState, calls: seq<Call>, id: int)
    requires Inv(s)
    requires id in s.proposals && !s.proposals[id].active
    ensures id in Run(s, calls).proposals && Run(s, calls).proposals[id] == s.proposals[id]
  {
    RunKeepsHistory(s, calls);
  }

  /**
   * On a finished proposal every later support, execute or cancel fails and
   * changes nothing: RecoveryNotActive, except that a cancel by a caller who
   * is not an owner is refused first with Unauthorized.
   */
  lemma FinishedProposalRejectsCalls(s: WalletState, caller: Address, id: int)
    requires id in s.proposals && !s.proposals[id].active
    ensures SupportRecovery(s, caller, id) == Outcome(s, Err(RecoveryNotActive))
    ensures ExecuteRecovery(s, caller, id) == Outcome(s, Err(RecoveryNotActive))
    ensures CancelRecovery(s, caller, id) ==
      Outcome(s, Err(if caller in s.walletOwners then RecoveryNotActive else Unauthorized))
  {
  }

  /**
   * The owner changes only by an initialize while the owner is the empty
   * string, or by a successful executeRecovery, which installs the proposed owner.
   */
  lemma OwnerChangesOnlyByRecovery(s: WalletState, c: Call)
    requires Next(s, c).owner != s.owner
    ensures
      || (c.InitializeCall? && s.owner == "" && Next(s, c).owner == c.newOwner)
      || (c.ExecuteRecoveryCall? && ExecuteRecovery(s, c.caller, c.id).result.Ok?
          && Next(s, c).owner == s.proposals[c.id].proposedOwner)
  {
  }

  /**
   * RecoveryCompleted is never returned in a reachable state: a completed
   * proposal is inactive, and the activity check comes before it.
   */
  lemma RecoveryCompletedIsNeverReturned(s: WalletState, caller: Address, id: int)
    requires Inv(s)
    ensures SupportRecovery(s, caller, id).result != Err(RecoveryCompleted)
    ensures ExecuteRecovery(s, caller, id).result != Err(RecoveryCompleted)
    ensures CancelRecovery(s, caller, id).result != Err(RecoveryCompleted)
  {
    if id in s.proposals {
      assert ProposalInv(s, id);
    }
  }

  /** A set that holds exactly the numbers 0 .. n-1 has n elements. */
  lemma {:induction false} IdCount(ids: set<int>, n: nat)
    requires forall id :: id in ids <==> 0 <= id < n
    ensures |ids| == n
    decreases n
  {
    if n == 0 {
      assert ids == {} by {
        forall id ensures id !in ids {
        }
      }
    } else {
      var rest := ids - {n - 1};
      IdCount(rest, n - 1);
      assert ids == rest + {n - 1};
    }
  }

  /**
   * Proposal ids are handed out as 0, 1, 2, ... in creation order: a
   * successful initiateRecovery returns the number of proposals made so
   * far, which is an id not used before, and adds exactly that id.
   */
  lemma InitiateRecoveryIdIsFresh(s: WalletState, caller: Address, proposedOwner: Address)
    requires Inv(s)
    requires InitiateRecovery(s, caller, proposedOwner).result.Ok?
    ensures var o := InitiateRecovery(s, caller, proposedOwner);
      && o.result.value == |s.proposals|
      && o.result.value !in s.proposals
      && o.state.proposals.Keys == s.proposals.Keys + {o.result.value}
  {
    IdCount(s.proposals.Keys, s.recoveryNonce);
  }

  /** No call other than initiateRecovery moves the nonce or adds or drops a proposal. */
  lemma OnlyInitiateRecoveryAllocatesIds(s: WalletState, c: Call)
    requires !c.InitiateRecoveryCall?
    ensures Next(s, c).recoveryNonce == s.recoveryNonce
    ensures Next(s, c).proposals.Keys == s.proposals.Keys
  {
  }
}
