/** `action_intents.py`: how a submitted action becomes a decided record with its approval request. */
module Intake {
  import opened Hashing
  import opened ControlPlane
  import PolicyEngine
  import Approvals

  datatype IntakeError = PolicyFailed(error: PolicyEngine.PolicyError) | DuplicateAssignee

  datatype Submission = Submission(tenant: string, requester: Principal, digest: string, request: PolicyEngine.Request)

  function ContractStatusOf(q: PolicyEngine.Request): (s: ContractStatus) {
    if !q.supported then ContractUnsupported else if !q.valid then ContractInvalid else ContractValid
  }

  predicate Distinct(ps: seq<string>) {
    forall i, j :: 0 <= i < j < |ps| ==> ps[i] != ps[j]
  }

  function Answer(db: Db, s: Submission): (r: Result<Id, IntakeError>) {
    match PolicyEngine.Decide(s.request)
    case Err(e) => Err(PolicyFailed(e))
    case Ok(d) => if d.approval.Some? && !Distinct(d.approval.value.principals) then Err(DuplicateAssignee) else Ok(db.next)
  }

  function NewIntent(s: Submission, d: PolicyEngine.PolicyDecision, now: int): (r: Intent) {
    Intent(s.tenant, s.requester, ContractStatusOf(s.request), d.state, s.digest, d.approval, d.evidence, now,
           if d.approval.Some? then ApprovalNotStarted else ApprovalNotRequired,
           if d.evidence.Some? then EvidencePending else EvidenceNotRequired)
  }

  /** The whole effect of a first `intake`; the approval request and its assignments come with the record or not at all. */
  ghost function Submit(db: Db, s: Submission, now: int): (db': Db) {
    if Answer(db, s).Err? then db
    else
      var d := PolicyEngine.Decide(s.request).value;
      var record := NewIntent(s, d, now);
      PolicyEngine.RequirementsPresent(s.request);
      if d.approval.None? then db.(intents := db.intents[db.next := record], next := db.next + 1)
      else
        var rows := db.(intents := db.intents[db.next := record], requests := db.requests[db.next + 1 := Approvals.NewRequest(db.next, record)],
                        next := db.next + 2);
        Approvals.SyncApprovals(rows, db.next, now)
  }

  class IntakeService {
    const session: Session
    const approvals: Approvals.ApprovalService

    constructor (session: Session, approvals: Approvals.ApprovalService)
      requires approvals.session == session
      ensures this.session == session && this.approvals == approvals
    {
      this.session, this.approvals := session, approvals;
    }

    method Unrepeated(ps: seq<string>) returns (b: bool)
      ensures b <==> Distinct(ps)
    {
      for i := 0 to |ps|
        invariant Distinct(ps[..i])
      {
        if ps[i] in ps[..i] {
          ghost var k :| 0 <= k < i && ps[k] == ps[i];
          return false;
        }
      }
      assert ps[..|ps|] == ps;
      b := true;
    }

    /** `intake` for a new idempotency key. */
    method Accept(s: Submission, now: int) returns (r: Result<Id, IntakeError>)
      requires approvals.session == session && session.Clean()
      modifies session
      ensures session.Clean()
      ensures session.committed == Submit(old(session.committed), s, now)
      ensures r == Answer(old(session.committed), s)
    {
      hide PolicyEngine.Decide, Approvals.SyncApprovals;
      var db := session.work;
      var decision := PolicyEngine.Evaluate(s.request);
      if decision.Err? {
        return Err(PolicyFailed(decision.error));
      }
      var d := decision.value;
      var record := NewIntent(s, d, now);
      PolicyEngine.RequirementsPresent(s.request);
      session.work := db.(intents := db.intents[db.next := record], next := db.next + 1);
      if d.approval.Some? {
        session.work := session.work.(requests := db.requests[db.next + 1 := Approvals.NewRequest(db.next, record)], next := db.next + 2);
        var distinct := Unrepeated(d.approval.value.principals);
        if !distinct {
          session.Rollback();
          return Err(DuplicateAssignee);
        }
        var state := approvals.Synchronize(db.next, now);
      }
      session.Commit();
      r := Ok(db.next);
    }
  }
}
