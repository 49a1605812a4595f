/**
  Tables of the authority pipeline and the database session the services share.

  A row's identifier is a number drawn from `next`, standing for the random identifiers of
  the source, which never repeat.  The clock is the integer `now` given to each operation.
*/
module ControlPlane {
  import opened Hashing
  import opened PolicyEngine

  type Id = nat

  datatype Principal = Principal(kind: string, id: string)

  datatype ContractStatus = ContractValid | ContractInvalid | ContractUnsupported

  datatype ApprovalState =
    | ApprovalNotRequired | ApprovalNotStarted | ApprovalPending
    | ApprovalSatisfied | ApprovalRejected | ApprovalExpired | ApprovalCanceled

  datatype EvidenceState = EvidenceNotRequired | EvidencePending | EvidenceSatisfied | EvidenceLapsed

  datatype Intent = Intent(tenant: string, requester: Principal, contract: ContractStatus, decision: DecisionState,
                           digest: string, approval: Option<ApprovalRequirement>, evidence: Option<EvidenceRequirement>,
                           createdAt: int, approvalState: ApprovalState, evidenceState: EvidenceState)

  datatype RequestStatus = RequestPending | RequestSatisfied | RequestRejected | RequestExpired | RequestCanceled

  datatype AssignmentStatus = Assigned | AssignmentCompleted | AssignmentExpired

  datatype Assignment = Assignment(principal: Principal, status: AssignmentStatus)

  /** `roles` are the roles the actor claimed; the source checks them and does not store them. */
  datatype Decision = Decision(decider: Principal, roles: seq<string>, approve: bool)

  datatype ApprovalRequest = ApprovalRequest(intent: Id, tenant: string, required: nat, roles: seq<string>, requesterSeparation: bool,
                                             expiresAt: Option<int>, status: RequestStatus,
                                             assignments: seq<Assignment>, decisions: seq<Decision>)

  datatype EvidenceStatus = EvidenceActive | EvidenceExpired | EvidenceRevoked

  datatype Evidence = Evidence(intent: Id, tenant: string, kind: string, expiresAt: Option<int>, status: EvidenceStatus)

  datatype ProofStatus = ProofRequested | ProofIssued | ProofRejected | ProofFailed | ProofRevoked | ProofExpired

  /** What makes two issuance requests the same request; scope enters through its hash. */
  datatype ProofKey = ProofKey(tenant: string, intent: Id, kind: string, audience: string, scopeHash: Digest, digest: string)

  datatype Proof = Proof(key: ProofKey, scope: seq<string>, status: ProofStatus, expiresAt: int)

  datatype EscrowStatus = Held | Released | Consumed | Revoked | Quarantined | Expired

  datatype ExecutionState =
    | CapabilityHeld | CapabilityReleased | DispatchRequested | DispatchConfirmed
    | ResultObserved | FailureObserved | ExecutionRevoked | ExecutionQuarantined | ExecutionExpired

  datatype TransitionType = HoldCreated | CapabilityRelease | Consumption | Revocation | Quarantine | ExecutionUpdate | Expiry

  datatype Transition = Transition(kind: TransitionType, fromStatus: Option<EscrowStatus>, toStatus: EscrowStatus,
                                   fromExecution: Option<ExecutionState>, toExecution: ExecutionState)

  datatype Escrow = Escrow(proof: Id, capability: string, resource: string, external: bool,
                           audience: string, scope: seq<string>, scopeHash: Digest, digest: string,
                           status: EscrowStatus, execution: ExecutionState, tokenDigest: Option<Digest>,
                           heldAt: int, expiresAt: int, log: seq<Transition>)

  datatype Settings = Settings(proofDefaultTtl: int, proofMaxTtl: int,
                               capabilityDefaultTtl: int, capabilityMaxTtl: int, externalRelease: bool)

  datatype Db = Db(intents: map<Id, Intent>, requests: map<Id, ApprovalRequest>, evidence: map<Id, Evidence>,
                   proofs: map<Id, Proof>, escrows: map<Id, Escrow>, next: Id)

  /** `requested or default`: zero counts as not given. */
  function EffectiveTtl(requested: Option<int>, default: int): (ttl: int) {
    if requested.None? || requested.value == 0 then default else requested.value
  }

  const EMPTY_DB: Db := Db(map[], map[], map[], map[], map[], 0)

  /** The unit of work: changes are invisible to others until `Commit`, and gone after `Rollback`. */
  class Session {
    var work: Db
    var committed: Db

    ghost predicate Clean()
      reads this
    {
      work == committed
    }

    constructor (db: Db)
      ensures Clean() && committed == db
    {
      work, committed := db, db;
    }

    method Commit()
      modifies this`committed
      ensures Clean() && committed == work == old(work)
    {
      committed := work;
    }

    method Rollback()
      modifies this`work
      ensures Clean() && work == committed == old(committed)
    {
      work := committed;
    }
  }
}
