/** `approvals.py`: decisions, expiry, and the approval state of an intent. */
module Approvals {
  import opened Hashing
  import opened PolicyEngine
  import opened ControlPlane

  datatype ApprovalError =
    | RequestNotFound | RequestNotOpen | AlreadyDecided
    | NotAssigned | RoleNotEligible | RequesterMayNotApprove
    | EvidenceMissing | EvidenceForeign | EvidenceNotActive

  // ----- One request -----

  predicate Due(r: ApprovalRequest, now: int) {
    r.status == RequestPending && r.expiresAt.Some? && r.expiresAt.value <= now
  }

  function ExpireAssignments(a: seq<Assignment>): (b: seq<Assignment>)
    ensures |b| == |a|
    ensures forall i :: 0 <= i < |a| ==> b[i] == (if a[i].status == Assigned then a[i].(status := AssignmentExpired) else a[i])
  {
    seq(|a|, i requires 0 <= i < |a| => if a[i].status == Assigned then a[i].(status := AssignmentExpired) else a[i])
  }

  function CompleteAssignments(a: seq<Assignment>, p: Principal): (b: seq<Assignment>)
    ensures |b| == |a|
    ensures forall i :: 0 <= i < |a| ==> b[i] == (if a[i].principal == p then a[i].(status := AssignmentCompleted) else a[i])
  {
    seq(|a|, i requires 0 <= i < |a| => if a[i].principal == p then a[i].(status := AssignmentCompleted) else a[i])
  }

  /** The request as any reader sees it at `now`. */
  function Refreshed(r: ApprovalRequest, now: int): (r': ApprovalRequest) {
    if Due(r, now) then r.(status := RequestExpired, assignments := ExpireAssignments(r.assignments)) else r
  }

  predicate IsAssigned(r: ApprovalRequest, p: Principal) {
    exists i :: 0 <= i < |r.assignments| && r.assignments[i].principal == p
  }

  /** `_validate_actor` as one condition: assignment, role and separation from the requester. */
  predicate MayDecide(r: ApprovalRequest, requester: Principal, p: Principal, claimed: seq<string>) {
    && (r.assignments != [] ==> IsAssigned(r, p))
    && (r.roles != [] ==> exists role :: role in claimed && role in r.roles)
    && (r.requesterSeparation ==> p != requester)
  }

  function ApprovalCount(ds: seq<Decision>): (n: nat) {
    if ds == [] then 0
    else ApprovalCount(ds[..|ds| - 1]) + (if ds[|ds| - 1].approve then 1 else 0)
  }

  function StatusAfter(r: ApprovalRequest, d: Decision): (s: RequestStatus) {
    if !d.approve then RequestRejected
    else if ApprovalCount(r.decisions + [d]) >= r.required then RequestSatisfied
    else RequestPending
  }

  function Decided(r: ApprovalRequest, d: Decision): (r': ApprovalRequest) {
    r.(decisions := r.decisions + [d], assignments := CompleteAssignments(r.assignments, d.decider), status := StatusAfter(r, d))
  }

  // ----- Quorum -----

  ghost predicate DistinctDeciders(ds: seq<Decision>) {
    forall i, j :: 0 <= i < j < |ds| ==> ds[i].decider != ds[j].decider
  }

  ghost predicate NoRejection(ds: seq<Decision>) {
    forall d :: d in ds ==> d.approve
  }

  /** What every reachable request satisfies. */
  ghost predicate RequestInv(r: ApprovalRequest, requester: Principal) {
    && r.required >= 1
    && DistinctDeciders(r.decisions)
    && (forall d :: d in r.decisions ==> MayDecide(r, requester, d.decider, d.roles))
    && (match r.status
        case RequestPending => NoRejection(r.decisions) && ApprovalCount(r.decisions) < r.required
        case RequestExpired => NoRejection(r.decisions) && ApprovalCount(r.decisions) < r.required
        case RequestSatisfied => NoRejection(r.decisions) && ApprovalCount(r.decisions) == r.required
        case RequestRejected => !NoRejection(r.decisions) && ApprovalCount(r.decisions) < r.required
        case RequestCanceled => false)
  }

  /** The principals who approved. */
  ghost function Approvers(ds: seq<Decision>): (ps: set<Principal>) {
    set d | d in ds && d.approve :: d.decider
  }

  lemma {:induction false} ApproversCounted(ds: seq<Decision>)
    requires DistinctDeciders(ds)
    ensures |Approvers(ds)| == ApprovalCount(ds)
  {
    if ds == [] {
      assert Approvers(ds) == {};
    } else {
      var t := |ds| - 1;
      ApproversCounted(ds[..t]);
      assert ds == ds[..t] + [ds[t]];
      assert ds[t].approve ==> ds[t].decider !in Approvers(ds[..t]);
      hide ApprovalCount, DistinctDeciders;
      assert ApprovalCount(ds) == ApprovalCount(ds[..t]) + (if ds[t].approve then 1 else 0) by { CountSnoc(ds[..t], ds[t]); }
      if ds[t].approve {
        assert Approvers(ds) == Approvers(ds[..t]) + {ds[t].decider};
      } else {
        assert Approvers(ds) == Approvers(ds[..t]);
      }
    }
  }

  /**
    Quorum, both ways: a request is satisfied exactly when nobody rejected and the required number
    of different principals, each entitled to decide, approved; otherwise fewer have approved.
  */
  lemma QuorumExact(r: ApprovalRequest, requester: Principal)
    requires RequestInv(r, requester)
    ensures r.status == RequestSatisfied <==> NoRejection(r.decisions) && |Approvers(r.decisions)| == r.required
    ensures r.status == RequestSatisfied <==> NoRejection(r.decisions) && |Approvers(r.decisions)| >= r.required
    ensures r.status == RequestRejected <==> !NoRejection(r.decisions)
    ensures r.status != RequestSatisfied ==> |Approvers(r.decisions)| < r.required
    ensures forall p :: p in Approvers(r.decisions) ==>
              exists d :: d in r.decisions && d.decider == p && d.approve && MayDecide(r, requester, p, d.roles)
  {
    ApproversCounted(r.decisions);
  }

  lemma CountSnoc(ds: seq<Decision>, d: Decision)
    ensures ApprovalCount(ds + [d]) == ApprovalCount(ds) + (if d.approve then 1 else 0)
  {
    assert (ds + [d])[..|ds|] == ds;
  }

  lemma RefreshedInv(r: ApprovalRequest, requester: Principal, now: int)
    requires RequestInv(r, requester)
    ensures RequestInv(Refreshed(r, now), requester)
  {
    var r' := Refreshed(r, now);
    forall d | d in r.decisions ensures MayDecide(r', requester, d.decider, d.roles) {
      SameAssignees(r, r', d.decider);
    }
  }

  lemma SameAssignees(r: ApprovalRequest, r': ApprovalRequest, p: Principal)
    requires |r.assignments| == |r'.assignments|
    requires forall i :: 0 <= i < |r.assignments| ==> r.assignments[i].principal == r'.assignments[i].principal
    ensures IsAssigned(r, p) <==> IsAssigned(r', p)
  {
  }

  lemma DecidedInv(r: ApprovalRequest, requester: Principal, d: Decision)
    requires RequestInv(r, requester) && r.status == RequestPending
    requires MayDecide(r, requester, d.decider, d.roles) && forall e :: e in r.decisions ==> e.decider != d.decider
    ensures RequestInv(Decided(r, d), requester)
  {
    var r' := Decided(r, d);
    CountSnoc(r.decisions, d);
    forall e | e in r'.decisions ensures MayDecide(r', requester, e.decider, e.roles) {
      SameAssignees(r, r', e.decider);
    }
    assert d in r'.decisions;
    assert forall e :: e in r.decisions ==> e in r'.decisions;
  }

  // ----- The requests of an intent -----

  ghost function RequestsOf(db: Db, intent: Id): (ids: set<Id>) {
    set i | i in db.requests && db.requests[i].intent == intent
  }

  ghost function StatusesOf(db: Db, intent: Id): (s: set<RequestStatus>) {
    set i | i in RequestsOf(db, intent) :: db.requests[i].status
  }

  /** The approval state an intent derives from its requests. */
  function StateFrom(statuses: set<RequestStatus>, required: bool): (s: ApprovalState) {
    if statuses == {} then (if required then ApprovalNotStarted else ApprovalNotRequired)
    else if RequestRejected in statuses then ApprovalRejected
    else if RequestExpired in statuses then ApprovalExpired
    else if statuses == {RequestSatisfied} then ApprovalSatisfied
    else if statuses == {RequestCanceled} then ApprovalCanceled
    else ApprovalPending
  }

  ghost function RefreshRequests(db: Db, intent: Id, now: int): (db': Db) {
    db.(requests := map i | i in db.requests ::
          if db.requests[i].intent == intent then Refreshed(db.requests[i], now) else db.requests[i])
  }

  /** `synchronize_action_intent_state`. */
  ghost function SyncApprovals(db: Db, intent: Id, now: int): (db': Db)
    requires intent in db.intents
  {
    var d := RefreshRequests(db, intent, now);
    var record := d.intents[intent];
    d.(intents := d.intents[intent := record.(approvalState := StateFrom(StatusesOf(d, intent), record.approval.Some?))])
  }

  // ----- Opening a request for a new intent -----

  function AssignmentsFor(principals: seq<string>): (a: seq<Assignment>)
    ensures |a| == |principals| && forall i :: 0 <= i < |a| ==> a[i] == Assignment(Principal("user", principals[i]), Assigned)
  {
    seq(|principals|, i requires 0 <= i < |principals| => Assignment(Principal("user", principals[i]), Assigned))
  }

  function Deadline(base: int, ttl: Option<int>): (t: Option<int>) {
    if ttl.None? || ttl.value == 0 then None else Some(base + ttl.value)
  }

  function NewRequest(intent: Id, record: Intent): (r: ApprovalRequest)
    requires record.approval.Some?
    requires record.approval.value.requiredCount >= 1
    ensures RequestInv(r, record.requester) && r.intent == intent && r.status == RequestPending
  {
    var q := record.approval.value;
    ApprovalRequest(intent, record.tenant, q.requiredCount, q.roles, q.requesterSeparation,
                    Deadline(record.createdAt, q.ttl), RequestPending, AssignmentsFor(q.principals), [])
  }

  // ----- Recording a decision -----

  function CheckActor(r: ApprovalRequest, requester: Principal, p: Principal,
          claimed: seq<string>): (e: Option<ApprovalError>)
    ensures e.None? <==> MayDecide(r, requester, p, claimed)
  {
    if r.assignments != [] && !IsAssigned(r, p) then Some(NotAssigned)
    else if r.roles != [] && !(exists role :: role in claimed && role in r.roles) then Some(RoleNotEligible)
    else if r.requesterSeparation && p == requester then Some(RequesterMayNotApprove)
    else None
  }

  ghost predicate CitationsExist(db: Db, cited: seq<Id>) {
    forall i :: i in cited ==> i in db.evidence
  }

  /** What is wrong with one cited object: tenant and intent are looked at before the status. */
  function Fault(r: ApprovalRequest, x: Evidence): (e: Option<ApprovalError>) {
    if x.tenant != r.tenant || x.intent != r.intent then Some(EvidenceForeign)
    else if x.status != EvidenceActive then Some(EvidenceNotActive)
    else None
  }

  /**
    The errors `_validate_evidence_references` may report, none if all is well.  Of several bad
    citations the first in the row order of the query is reported, and the query fixes no order.
  */
  ghost function Faults(db: Db, r: ApprovalRequest, cited: seq<Id>): (es: set<ApprovalError>) {
    if !CitationsExist(db, cited) then {EvidenceMissing}
    else set i | i in cited && Fault(r, db.evidence[i]).Some? :: Fault(r, db.evidence[i]).value
  }

  /** `get_request`: expiry found on reading is committed before anything else happens. */
  ghost function Fetched(db: Db, request: Id, now: int): (db': Db)
    requires request in db.requests && db.requests[request].intent in db.intents
  {
    if Due(db.requests[request], now) then SyncApprovals(db, db.requests[request].intent, now) else db
  }

  /** The errors with which a decision on the fetched request may be refused; none if it is admitted. */
  ghost function Refusals(db: Db, request: Id, p: Principal, claimed: seq<string>,
          cited: seq<Id>): (es: set<ApprovalError>)
    requires request in db.requests && db.requests[request].intent in db.intents
  {
    var r := db.requests[request];
    if r.status != RequestPending then {RequestNotOpen}
    else if exists d :: d in r.decisions && d.decider == p then {AlreadyDecided}
    else
      var actor := CheckActor(r, db.intents[r.intent].requester, p, claimed);
      if actor.Some? then {actor.value} else Faults(db, r, cited)
  }

  ghost predicate Linked(db: Db) {
    forall i :: i in db.requests ==> db.requests[i].intent in db.intents
  }

  /** The whole effect of `record_decision`. */
  ghost function RecordDecision(db: Db, request: Id, p: Principal, claimed: seq<string>, approve: bool,
          cited: seq<Id>, now: int): (db': Db)
    requires Linked(db)
  {
    if request !in db.requests then db
    else
      var d := Fetched(db, request, now);
      if Refusals(d, request, p, claimed, cited) != {} then d
      else
        var r := d.requests[request];
        SyncApprovals(d.(requests := d.requests[request := Decided(r, Decision(p, claimed, approve))]), r.intent, now)
  }

  // ----- The service -----

  /** The requests when only some of them have been refreshed. */
  ghost function Partly(db: Db, done: set<Id>, now: int): (m: map<Id, ApprovalRequest>) {
    map i | i in db.requests :: if i in done then Refreshed(db.requests[i], now) else db.requests[i]
  }

  ghost function PartlyStatuses(db: Db, done: set<Id>, now: int): (s: set<RequestStatus>)
    requires done <= db.requests.Keys
  {
    set i | i in done :: Refreshed(db.requests[i], now).status
  }

  lemma PartlyNone(db: Db, now: int)
    ensures Partly(db, {}, now) == db.requests
  {
  }

  lemma NoStatuses(db: Db, now: int)
    ensures PartlyStatuses(db, {}, now) == {}
  {
  }

  lemma PartlyKeys(db: Db, done: set<Id>, now: int)
    ensures Partly(db, done, now).Keys == db.requests.Keys
  {
  }

  lemma PartlyOne(db: Db, done: set<Id>, i: Id, now: int)
    requires done <= db.requests.Keys && i in db.requests && i !in done
    ensures Partly(db, done + {i}, now) == Partly(db, done, now)[i := Refreshed(Partly(db, done, now)[i], now)]
    ensures PartlyStatuses(db, done + {i}, now) == PartlyStatuses(db, done, now) + {Partly(db, done + {i}, now)[i].status}
  {
  }

  lemma PartlyAll(db: Db, intent: Id, now: int)
    ensures Partly(db, RequestsOf(db, intent), now) == RefreshRequests(db, intent, now).requests
    ensures PartlyStatuses(db, RequestsOf(db, intent), now) == StatusesOf(RefreshRequests(db, intent, now), intent)
  {
    assert RequestsOf(RefreshRequests(db, intent, now), intent) == RequestsOf(db, intent);
  }

  class ApprovalService {
    const session: Session

    constructor (session: Session)
      ensures this.session == session
    {
      this.session := session;
    }

    /** `_refresh_request_if_expired`, row by row. */
    method RefreshRequest(request: Id, now: int) returns (changed: bool)
      requires request in session.work.requests
      modifies session`work
      ensures changed <==> Due(old(session.work.requests[request]), now)
      ensures session.work == old(session.work).(requests := old(session.work.requests)[request := Refreshed(old(session.work.requests[request]), now)])
    {
      var r := session.work.requests[request];
      if r.status != RequestPending || r.expiresAt.None? || r.expiresAt.value > now {
        assert session.work.requests == session.work.requests[request := r];
        return false;
      }
      var rows := r.assignments;
      for i := 0 to |rows|
        invariant |rows| == |r.assignments|
        invariant forall k :: 0 <= k < i ==> rows[k] == ExpireAssignments(r.assignments)[k]
        invariant forall k :: i <= k < |rows| ==> rows[k] == r.assignments[k]
      {
        if rows[i].status == Assigned {
          rows := rows[i := rows[i].(status := AssignmentExpired)];
        }
      }
      assert rows == ExpireAssignments(r.assignments);
      session.work := session.work.(requests := session.work.requests[request := r.(status := RequestExpired, assignments := rows)]);
      changed := true;
    }

    method RefreshAll(intent: Id, now: int) returns (statuses: set<RequestStatus>)
      modifies session`work
      ensures session.work == RefreshRequests(old(session.work), intent, now)
      ensures statuses == StatusesOf(session.work, intent)
    {
      var start := session.work;
      var all: set<Id> := set i | i in start.requests && start.requests[i].intent == intent;
      var todo := all;
      statuses := {};
      assert all == RequestsOf(start, intent);
      PartlyAll(start, intent, now);
      assert start.(requests := Partly(start, all, now)) == RefreshRequests(start, intent, now);
      hide *;
      PartlyNone(start, now);
      NoStatuses(start, now);
      while todo != {}
        invariant todo <= all <= start.requests.Keys
        invariant session.work == start.(requests := Partly(start, all - todo, now))
        invariant statuses == PartlyStatuses(start, all - todo, now)
        decreases |todo|
      {
        var i :| i in todo;
        PartlyOne(start, all - todo, i, now);
        PartlyKeys(start, all - todo, now);
        var changed := RefreshRequest(i, now);
        assert all - (todo - {i}) == (all - todo) + {i};
        todo := todo - {i};
        statuses := statuses + {session.work.requests[i].status};
      }
      assert all - todo == all;
    }

    /** `synchronize_action_intent_state`: refresh every request of the intent, then derive its state. */
    method Synchronize(intent: Id, now: int) returns (state: ApprovalState)
      requires intent in session.work.intents
      modifies session`work
      ensures session.work == SyncApprovals(old(session.work), intent, now)
      ensures state == session.work.intents[intent].approvalState
    {
      var statuses := RefreshAll(intent, now);
      state := StateFrom(statuses, session.work.intents[intent].approval.Some?);
      session.work := session.work.(intents := session.work.intents[intent := session.work.intents[intent].(approvalState := state)]);
    }

    /** `get_request`. */
    method GetRequest(request: Id, now: int) returns (r: Result<ApprovalRequest, ApprovalError>)
      requires session.Clean() && Linked(session.work)
      modifies session
      ensures session.Clean()
      ensures request !in old(session.committed).requests ==> session.committed == old(session.committed) && r == Err(RequestNotFound)
      ensures request in old(session.committed).requests ==>
                && session.committed == Fetched(old(session.committed), request, now)
                && request in session.committed.requests
                && r == Ok(session.committed.requests[request])
    {
      if request !in session.work.requests {
        return Err(RequestNotFound);
      }
      var before := session.work;
      var changed := RefreshRequest(request, now);
      if changed {
        var intent := session.work.requests[request].intent;
        var state := Synchronize(intent, now);
        RefreshTwice(before, request, intent, now);
        session.Commit();
      } else {
        assert session.work.requests == before.requests;
      }
      r := Ok(session.work.requests[request]);
    }

    /** `record_decision`. */
    method Record(request: Id, p: Principal, claimed: seq<string>, approve: bool, cited: seq<Id>, now: int)
      returns (r: Result<ApprovalRequest, ApprovalError>)
      requires session.Clean() && Linked(session.work)
      modifies session
      ensures session.Clean()
      ensures session.committed == RecordDecision(old(session.committed), request, p, claimed, approve, cited, now)
      ensures request in session.committed.requests <==> request in old(session.committed).requests
      ensures request !in old(session.committed).requests ==> r == Err(RequestNotFound)
      ensures request in old(session.committed).requests ==>
                var refusals := Refusals(Fetched(old(session.committed), request, now), request, p, claimed, cited);
                && (refusals == {} ==> r == Ok(session.committed.requests[request]))
                && (refusals != {} ==> r.Err? && r.error in refusals)
    {
      var fetched := GetRequest(request, now);
      if fetched.Err? {
        return Err(RequestNotFound);
      }
      var row := fetched.value;
      if row.status != RequestPending {
        return Err(RequestNotOpen);
      }
      for i := 0 to |row.decisions|
        invariant forall k :: 0 <= k < i ==> row.decisions[k].decider != p
      {
        if row.decisions[i].decider == p {
          return Err(AlreadyDecided);
        }
      }
      assert forall d :: d in row.decisions ==> d.decider != p;
      var db := session.work;
      var actor := CheckActor(row, db.intents[row.intent].requester, p, claimed);
      if actor.Some? {
        return Err(actor.value);
      }
      var evidence := ValidateEvidence(row, cited);
      if evidence.Some? {
        return Err(evidence.value);
      }
      var d := Decision(p, claimed, approve);
      var rows := row.assignments;
      for i := 0 to |rows|
        invariant |rows| == |row.assignments|
        invariant forall k :: 0 <= k < i ==> rows[k] == CompleteAssignments(row.assignments, p)[k]
        invariant forall k :: i <= k < |rows| ==> rows[k] == row.assignments[k]
      {
        if rows[i].principal == p {
          rows := rows[i := rows[i].(status := AssignmentCompleted)];
        }
      }
      assert rows == CompleteAssignments(row.assignments, p);
      var status := UpdateStatus(row, d);
      session.work := db.(requests := db.requests[request := row.(decisions := row.decisions + [d], assignments := rows, status := status)]);
      var state := Synchronize(row.intent, now);
      session.Commit();
      r := Ok(session.work.requests[request]);
      StillThere(db.(requests := db.requests[request := Decided(row, d)]), request, now);
    }

    /** `_update_request_status_after_decision`: counts the approvals, the new one included. */
    method UpdateStatus(row: ApprovalRequest, d: Decision) returns (status: RequestStatus)
      ensures status == StatusAfter(row, d)
    {
      if !d.approve {
        return RequestRejected;
      }
      var all, count := row.decisions + [d], 0;
      for i := 0 to |all|
        invariant count == ApprovalCount(all[..i])
      {
        assert all[..i + 1][..i] == all[..i];
        if all[i].approve {
          count := count + 1;
        }
      }
      assert all[..|all|] == all;
      status := if count >= row.required then RequestSatisfied else RequestPending;
    }

    /** `_validate_evidence_references`: the query returns the cited rows, each once, in any order. */
    method ValidateEvidence(row: ApprovalRequest, cited: seq<Id>) returns (e: Option<ApprovalError>)
      ensures e.None? <==> Faults(session.work, row, cited) == {}
      ensures e.Some? ==> e.value in Faults(session.work, row, cited)
    {
      var db := session.work;
      for i := 0 to |cited|
        invariant forall k :: 0 <= k < i ==> cited[k] in db.evidence
      {
        if cited[i] !in db.evidence {
          return Some(EvidenceMissing);
        }
      }
      assert CitationsExist(db, cited);
      var rows: set<Id> := set i: Id | i in cited;
      while rows != {}
        invariant forall i :: i in rows ==> i in cited
        invariant forall i :: i in cited && i !in rows ==> Fault(row, db.evidence[i]).None?
        decreases |rows|
      {
        var i: Id :| i in rows;
        var fault := Fault(row, db.evidence[i]);
        if fault.Some? {
          assert fault.value in Faults(db, row, cited);
          return fault;
        }
        rows := rows - {i};
      }
      e := None;
    }
  }

  /** Refreshing one row first does not change the synchronisation that follows. */
  lemma RefreshTwice(db: Db, request: Id, intent: Id, now: int)
    requires request in db.requests && db.requests[request].intent == intent && intent in db.intents
    ensures SyncApprovals(db.(requests := db.requests[request := Refreshed(db.requests[request], now)]), intent, now)
         == SyncApprovals(db, intent, now)
  {
    var d := db.(requests := db.requests[request := Refreshed(db.requests[request], now)]);
    assert RefreshRequests(d, intent, now).requests == RefreshRequests(db, intent, now).requests;
  }

  lemma StillThere(db: Db, request: Id, now: int)
    requires request in db.requests && db.requests[request].intent in db.intents
    ensures request in SyncApprovals(db, db.requests[request].intent, now).requests
  {
  }
}
