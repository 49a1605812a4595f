/**
  The authority pipeline as one machine: intake, approvals, evidence, issuance and escrow run one
  call after another on the same tables.  What a consumed capability proves about the past.
*/
module Authority {
  import opened Hashing
  import opened ControlPlane
  import PolicyEngine
  import Text
  import Approvals
  import EvidenceStore
  import Intake
  import Issuance
  import Escrows

  datatype Environment = Environment(settings: Settings, scopeHash: Issuance.ScopeHashFn, tokenHash: Escrows.TokenHashFn)

  datatype Call =
    | Submit(submission: Intake.Submission)
    | ReadIntent(intent: Id)
    | ReadRequest(request: Id)
    | Decide(request: Id, decider: Principal, claimed: seq<string>, approve: bool, cited: seq<Id>)
    | Register(tenant: string, intent: Id, forRequest: Option<Id>, kind: string, expiry: Option<int>)
    | Issue(issue: Issuance.IssueRequest)
    | ReadProof(proof: Id)
    | Hold(hold: Escrows.HoldRequest)
    | ReadEscrow(escrow: Id)
    | Order(escrow: Id, command: Escrows.Command)

  /** A call and the time at which it runs. */
  datatype Event = Event(call: Call, now: int)

  // ----- What holds between calls -----

  predicate SoundIntent(r: Intent) {
    && (r.decision == PolicyEngine.ApprovalRequired ==> r.approval.Some?)
    && (r.decision == PolicyEngine.NeedsEvidence ==> r.evidence.Some?)
    && (r.approval.Some? ==> r.approval.value.requiredCount >= 1)
    && (r.evidence.Some? ==> r.evidence.value.minimumCount >= 1)
    && (r.contract != ContractValid ==> r.decision == PolicyEngine.StructurallyNonExecutable)
  }

  ghost predicate IntentsInv(db: Db) {
    forall i :: i in db.intents ==> i < db.next && SoundIntent(db.intents[i])
  }

  ghost predicate RequestOk(db: Db, i: Id)
    requires i in db.requests
  {
    var r := db.requests[i];
    i < db.next && r.intent in db.intents && Approvals.RequestInv(r, db.intents[r.intent].requester)
  }

  ghost predicate RequestsInv(db: Db) {
    forall i :: i in db.requests ==> RequestOk(db, i)
  }

  ghost predicate ProofLinks(db: Db) {
    forall i :: i in db.proofs ==> db.proofs[i].key.intent in db.intents
  }

  ghost predicate Inv(db: Db, st: Settings) {
    IntentsInv(db) && RequestsInv(db) && Issuance.ProofsInv(db) && ProofLinks(db) && Escrows.EscrowsInv(db, st)
  }

  // ----- What no call undoes -----

  ghost predicate IntentsKept(a: Db, b: Db) {
    forall i :: i in a.intents ==>
      i in b.intents && b.intents[i] == a.intents[i].(approvalState := b.intents[i].approvalState, evidenceState := b.intents[i].evidenceState)
  }

  /** A request grows by decisions while pending and is frozen once it is anything else. */
  predicate RequestKept(x: ApprovalRequest, y: ApprovalRequest) {
    && y == x.(status := y.status, assignments := y.assignments, decisions := y.decisions)
    && x.decisions <= y.decisions
    && (x.status != RequestPending ==> y == x)
  }

  ghost predicate RequestsKept(a: Db, b: Db) {
    && (forall i :: i in a.requests ==> i in b.requests && RequestKept(a.requests[i], b.requests[i]))
    && (forall i :: i in b.requests && i !in a.requests ==> b.requests[i].intent !in a.intents)
  }

  predicate ProofKept(x: Proof, y: Proof) {
    y == x || (x.status == ProofIssued && y == x.(status := ProofExpired))
  }

  ghost predicate ProofsKept(a: Db, b: Db) {
    forall i :: i in a.proofs ==> i in b.proofs && ProofKept(a.proofs[i], b.proofs[i])
  }

  /** A record keeps its binding and its history; a token digest once stored stays. */
  predicate EscrowKept(x: Escrow, y: Escrow) {
    && y == x.(status := y.status, execution := y.execution, tokenDigest := y.tokenDigest, log := y.log)
    && x.log <= y.log
    && (x.tokenDigest.Some? ==> y.tokenDigest == x.tokenDigest)
  }

  ghost predicate EscrowsKept(a: Db, b: Db) {
    forall i :: i in a.escrows ==> i in b.escrows && EscrowKept(a.escrows[i], b.escrows[i])
  }

  ghost predicate Kept(a: Db, b: Db) {
    IntentsKept(a, b) && RequestsKept(a, b) && ProofsKept(a, b) && EscrowsKept(a, b) && a.next <= b.next
  }

  lemma KeptSelf(a: Db)
    ensures Kept(a, a)
  {
  }

  lemma RequestsKeptTransitive(a: Db, b: Db, c: Db)
    requires RequestsKept(a, b) && RequestsKept(b, c) && IntentsKept(a, b)
    ensures RequestsKept(a, c)
  {
    forall i | i in c.requests && i !in a.requests ensures c.requests[i].intent !in a.intents {
      assert i in b.requests ==> RequestKept(b.requests[i], c.requests[i]);
    }
  }

  lemma KeptTransitive(a: Db, b: Db, c: Db)
    requires Kept(a, b) && Kept(b, c)
    ensures Kept(a, c)
  {
    RequestsKeptTransitive(a, b, c);
    hide RequestsKept;
  }

  // ----- Steps and runs -----

  /** The foreign keys a call follows; they always hold, by `StepUnfold`. */
  ghost predicate Follows(db: Db, c: Call) {
    match c
    case ReadRequest(i) => i in db.requests ==> db.requests[i].intent in db.intents
    case Decide(_, _, _, _, _) => Approvals.Linked(db)
    case Order(i, _) => i in db.escrows ==> db.escrows[i].proof in db.proofs
    case _ => true
  }

  ghost function Step(db: Db, env: Environment, e: Event): (db': Db) {
    if !Follows(db, e.call) then db
    else
      match e.call
      case Submit(s) => Intake.Submit(db, s, e.now)
      case ReadIntent(i) => if i in db.intents then Issuance.Prepared(db, i, e.now) else db
      case ReadRequest(i) => if i in db.requests then Approvals.Fetched(db, i, e.now) else db
      case Decide(i, p, claimed, approve, cited) => Approvals.RecordDecision(db, i, p, claimed, approve, cited, e.now)
      case Register(tenant, i, r, kind, expiry) => EvidenceStore.Register(db, tenant, i, r, kind, expiry, e.now)
      case Issue(q) => Issuance.Issue(db, env.settings, env.scopeHash, q, e.now)
      case ReadProof(i) => Issuance.ReadProof(db, i, e.now)
      case Hold(q) => Escrows.Hold(db, env.settings, q, e.now)
      case ReadEscrow(i) => if i in db.escrows then Escrows.Fetched(db, i, e.now) else db
      case Order(i, c) => Escrows.Perform(db, env.tokenHash, i, c, e.now)
  }

  lemma ProofOfEscrow(db: Db, st: Settings, i: Id)
    requires Escrows.EscrowsInv(db, st)
    ensures i in db.escrows ==> db.escrows[i].proof in db.proofs
  {
    if i in db.escrows {
      Escrows.RowOf(db, st, i);
    }
  }

  // ----- Each call keeps the invariant and undoes nothing -----

  lemma Assemble(a: Db, b: Db, st: Settings)
    requires IntentsInv(b) && RequestsInv(b) && Issuance.ProofsInv(b) && ProofLinks(b) && Escrows.EscrowsInv(b, st)
    requires IntentsKept(a, b) && RequestsKept(a, b) && ProofsKept(a, b) && EscrowsKept(a, b) && a.next <= b.next
    ensures Inv(b, st) && Kept(a, b)
  {
  }

  lemma Parts(a: Db, st: Settings)
    requires Inv(a, st)
    ensures IntentsInv(a) && RequestsInv(a) && Issuance.ProofsInv(a) && ProofLinks(a) && Escrows.EscrowsInv(a, st)
  {
  }

  lemma IntentsSame(a: Db, b: Db)
    requires IntentsInv(a) && ProofLinks(a) && b.intents.Keys == a.intents.Keys && IntentsKept(a, b) && a.next <= b.next && b.proofs == a.proofs
    ensures IntentsInv(b) && ProofLinks(b) && ProofsKept(a, b)
  {
  }

  ghost predicate SameOrRefreshed(a: Db, b: Db, now: int) {
    && a.requests.Keys == b.requests.Keys
    && (forall i :: i in a.requests ==> b.requests[i] == a.requests[i] || b.requests[i] == Approvals.Refreshed(a.requests[i], now))
  }

  lemma RequestsRefreshed(a: Db, b: Db, now: int)
    requires RequestsInv(a) && IntentsKept(a, b) && a.next <= b.next && SameOrRefreshed(a, b, now)
    ensures RequestsInv(b) && RequestsKept(a, b)
  {
    hide Approvals.RequestInv;
    forall i | i in b.requests ensures RequestOk(b, i) && RequestKept(a.requests[i], b.requests[i]) {
      assert RequestOk(a, i);
      Approvals.RefreshedInv(a.requests[i], a.intents[a.requests[i].intent].requester, now);
    }
  }

  lemma EscrowsSame(a: Db, b: Db, st: Settings)
    requires Escrows.EscrowsInv(a, st) && b.escrows == a.escrows && a.next <= b.next && ProofsKept(a, b)
    ensures Escrows.EscrowsInv(b, st) && EscrowsKept(a, b)
  {
    hide Escrows.RecordInv;
    forall i | i in b.escrows ensures Escrows.RowInv(b, st, i) {
      assert Escrows.RowInv(a, st, i);
    }
  }

  lemma ProofsSame(a: Db, b: Db)
    requires Issuance.ProofsInv(a) && b.proofs == a.proofs && a.next <= b.next
    ensures Issuance.ProofsInv(b)
  {
  }

  /** Intents keep everything but their derived columns, requests at most expire, nothing else moves. */
  lemma OnlyDerived(a: Db, b: Db, st: Settings, now: int)
    requires Inv(a, st) && b.intents.Keys == a.intents.Keys && IntentsKept(a, b) && SameOrRefreshed(a, b, now)
    requires b.proofs == a.proofs && b.escrows == a.escrows && a.next <= b.next
    ensures Inv(b, st) && Kept(a, b)
  {
    hide *;
    Parts(a, st);
    IntentsSame(a, b);
    RequestsRefreshed(a, b, now);
    ProofsSame(a, b);
    EscrowsSame(a, b, st);
    Assemble(a, b, st);
  }

  lemma SyncApprovalsFrame(db: Db, intent: Id, now: int)
    requires intent in db.intents
    ensures var d := Approvals.SyncApprovals(db, intent, now);
            && d.intents.Keys == db.intents.Keys && IntentsKept(db, d) && SameOrRefreshed(db, d, now)
            && d.proofs == db.proofs && d.escrows == db.escrows && d.evidence == db.evidence && d.next == db.next
  {
    hide Approvals.StateFrom, Approvals.StatusesOf, Approvals.Refreshed;
  }

  lemma SyncApprovalsKeeps(db: Db, st: Settings, intent: Id, now: int)
    requires Inv(db, st) && intent in db.intents
    ensures Inv(Approvals.SyncApprovals(db, intent, now), st) && Kept(db, Approvals.SyncApprovals(db, intent, now))
  {
    hide *;
    SyncApprovalsFrame(db, intent, now);
    OnlyDerived(db, Approvals.SyncApprovals(db, intent, now), st, now);
  }

  lemma SyncEvidenceFrame(db: Db, intent: Id, now: int)
    requires intent in db.intents
    ensures var d := EvidenceStore.SyncEvidence(db, intent, now);
            && d.intents.Keys == db.intents.Keys && IntentsKept(db, d) && d.requests == db.requests
            && d.proofs == db.proofs && d.escrows == db.escrows && d.next == db.next
  {
    hide EvidenceStore.DerivedState, EvidenceStore.Refreshed;
  }

  lemma SyncEvidenceKeeps(db: Db, st: Settings, intent: Id, now: int)
    requires Inv(db, st) && intent in db.intents
    ensures Inv(EvidenceStore.SyncEvidence(db, intent, now), st) && Kept(db, EvidenceStore.SyncEvidence(db, intent, now))
  {
    hide Inv, Kept, EvidenceStore.SyncEvidence, IntentsKept, Approvals.Refreshed;
    SyncEvidenceFrame(db, intent, now);
    OnlyDerived(db, EvidenceStore.SyncEvidence(db, intent, now), st, now);
  }

  lemma PreparedKeeps(db: Db, st: Settings, intent: Id, now: int)
    requires Inv(db, st) && intent in db.intents
    ensures Inv(Issuance.Prepared(db, intent, now), st) && Kept(db, Issuance.Prepared(db, intent, now))
  {
    hide *;
    SyncApprovalsKeeps(db, st, intent, now);
    SyncApprovalsFrame(db, intent, now);
    var d := Approvals.SyncApprovals(db, intent, now);
    SyncEvidenceKeeps(d, st, intent, now);
    Issuance.PreparedUnfold(db, intent, now);
    KeptTransitive(db, d, Issuance.Prepared(db, intent, now));
  }

  lemma FetchedKeeps(db: Db, st: Settings, request: Id, now: int)
    requires Inv(db, st) && request in db.requests && db.requests[request].intent in db.intents
    ensures Inv(Approvals.Fetched(db, request, now), st) && Kept(db, Approvals.Fetched(db, request, now))
  {
    KeptSelf(db);
    SyncApprovalsKeeps(db, st, db.requests[request].intent, now);
    hide Inv, Kept, Approvals.SyncApprovals;
  }

  /** Replacing one request by a legal successor. */
  lemma ReplaceRequest(db: Db, st: Settings, i: Id, r: ApprovalRequest)
    requires Inv(db, st) && i in db.requests && RequestKept(db.requests[i], r) && db.requests[i].intent in db.intents
    requires Approvals.RequestInv(r, db.intents[r.intent].requester)
    ensures Inv(db.(requests := db.requests[i := r]), st) && Kept(db, db.(requests := db.requests[i := r]))
  {
    hide Approvals.RequestInv, Issuance.ProofsInv, Escrows.RowInv, SoundIntent;
    var d := db.(requests := db.requests[i := r]);
    forall k | k in d.requests ensures RequestOk(d, k) {
      assert RequestOk(db, k);
    }
    EscrowsSame(db, d, st);
    ProofsSame(db, d);
  }

  lemma DecideUnfold(db: Db, i: Id, p: Principal, claimed: seq<string>, approve: bool, cited: seq<Id>, now: int)
    requires Approvals.Linked(db) && i in db.requests && Approvals.Linked(Approvals.Fetched(db, i, now)) && i in Approvals.Fetched(db, i, now).requests
    ensures var d, all := Approvals.Fetched(db, i, now), Approvals.RecordDecision(db, i, p, claimed, approve, cited, now);
            all == d ||
              var r, choice := d.requests[i], Decision(p, claimed, approve);
              && r.status == RequestPending && (forall e :: e in r.decisions ==> e.decider != p)
              && Approvals.MayDecide(r, d.intents[r.intent].requester, p, claimed)
              && all == Approvals.SyncApprovals(d.(requests := d.requests[i := Approvals.Decided(r, choice)]), r.intent, now)
  {
    hide Approvals.SyncApprovals, Approvals.Faults, Approvals.Decided;
  }

  lemma LinkedInv(db: Db, st: Settings)
    requires Inv(db, st)
    ensures Approvals.Linked(db)
  {
    hide Approvals.RequestInv;
    assert forall i :: i in db.requests ==> RequestOk(db, i);
  }

  lemma DecideKeeps(db: Db, st: Settings, i: Id, p: Principal, claimed: seq<string>, approve: bool,
          cited: seq<Id>, now: int)
    requires Inv(db, st) && Approvals.Linked(db)
    ensures Inv(Approvals.RecordDecision(db, i, p, claimed, approve, cited, now), st)
    ensures Kept(db, Approvals.RecordDecision(db, i, p, claimed, approve, cited, now))
  {
    hide *;
    KeptSelf(db);
    if i in db.requests {
      RequestAt(db, st, i);
      FetchedKeeps(db, st, i, now);
      var d, all := Approvals.Fetched(db, i, now), Approvals.RecordDecision(db, i, p, claimed, approve, cited, now);
      LinkedInv(d, st);
      StillRequested(db, d, i);
      DecideUnfold(db, i, p, claimed, approve, cited, now);
      if all != d {
        var r, choice := d.requests[i], Decision(p, claimed, approve);
        RequestAt(d, st, i);
        Approvals.DecidedInv(r, d.intents[r.intent].requester, choice);
        DecidedKept(r, choice);
        ReplaceRequest(d, st, i, Approvals.Decided(r, choice));
        var chosen := d.(requests := d.requests[i := Approvals.Decided(r, choice)]);
        SyncApprovalsKeeps(chosen, st, r.intent, now);
        KeptTransitive(d, chosen, all);
        KeptTransitive(db, d, all);
      }
    } else {
      NoSuchRequest(db, i, p, claimed, approve, cited, now);
    }
  }

  lemma NoSuchRequest(db: Db, i: Id, p: Principal, claimed: seq<string>, approve: bool, cited: seq<Id>, now: int)
    requires Approvals.Linked(db) && i !in db.requests
    ensures Approvals.RecordDecision(db, i, p, claimed, approve, cited, now) == db
  {
  }

  lemma RequestAt(db: Db, st: Settings, i: Id)
    requires Inv(db, st) && i in db.requests
    ensures db.requests[i].intent in db.intents
    ensures Approvals.RequestInv(db.requests[i], db.intents[db.requests[i].intent].requester)
  {
    hide Approvals.RequestInv;
    assert RequestOk(db, i);
  }

  lemma StillRequested(a: Db, b: Db, i: Id)
    requires Kept(a, b) && i in a.requests
    ensures i in b.requests && RequestKept(a.requests[i], b.requests[i]) && b.requests[i].intent == a.requests[i].intent
  {
  }

  lemma DecidedKept(r: ApprovalRequest, d: Decision)
    requires r.status == RequestPending
    ensures RequestKept(r, Approvals.Decided(r, d)) && Approvals.Decided(r, d).intent == r.intent
  {
  }

  // ----- New intents and evidence -----

  lemma InsertIntent(db: Db, st: Settings, record: Intent)
    requires Inv(db, st) && SoundIntent(record)
    ensures var d := db.(intents := db.intents[db.next := record], next := db.next + 1);
            Inv(d, st) && Kept(db, d) && db.next !in db.intents && d.requests == db.requests
  {
    hide Approvals.RequestInv, Issuance.ProofsInv, Escrows.RowInv, SoundIntent;
    var d := db.(intents := db.intents[db.next := record], next := db.next + 1);
    forall k | k in d.requests ensures RequestOk(d, k) {
      assert RequestOk(db, k);
    }
    EscrowsSame(db, d, st);
    ProofsSame(db, d);
  }

  /** A request may be added only for an intent that was not there in `db`. */
  lemma InsertRequest(db: Db, d: Db, st: Settings, r: ApprovalRequest)
    requires Inv(d, st) && Kept(db, d) && r.intent in d.intents && r.intent !in db.intents
    requires Approvals.RequestInv(r, d.intents[r.intent].requester)
    ensures var d' := d.(requests := d.requests[d.next := r], next := d.next + 1); Inv(d', st) && Kept(db, d')
  {
    hide Approvals.RequestInv, Issuance.ProofsInv, Escrows.RowInv, SoundIntent, RequestKept;
    var d' := d.(requests := d.requests[d.next := r], next := d.next + 1);
    assert d.next !in d.requests by {
      assert d.next in d.requests ==> RequestOk(d, d.next);
    }
    forall k | k in d'.requests ensures RequestOk(d', k) {
      assert k != d.next ==> RequestOk(d, k);
    }
    EscrowsSame(d, d', st);
    ProofsSame(d, d');
  }

  lemma NewIntentSound(s: Intake.Submission, now: int)
    requires PolicyEngine.Decide(s.request).Ok?
    ensures var d := PolicyEngine.Decide(s.request).value;
            && SoundIntent(Intake.NewIntent(s, d, now)) && Intake.NewIntent(s, d, now).approval == d.approval
            && (d.approval.Some? ==> d.approval.value.requiredCount >= 1)
  {
    hide PolicyEngine.Decide;
    PolicyEngine.RequirementsPresent(s.request);
  }

  lemma SubmitUnfold(db: Db, s: Intake.Submission, now: int)
    requires Intake.Submit(db, s, now) != db
    ensures PolicyEngine.Decide(s.request).Ok?
    ensures var all, d := Intake.Submit(db, s, now), PolicyEngine.Decide(s.request).value;
            var record := Intake.NewIntent(s, d, now);
            var rows := db.(intents := db.intents[db.next := record], next := db.next + 1);
            && (d.approval.None? ==> all == rows)
            && (d.approval.Some? && record.approval == d.approval && d.approval.value.requiredCount >= 1 ==>
                  all == Approvals.SyncApprovals(rows.(requests := rows.requests[rows.next := Approvals.NewRequest(db.next, record)], next := rows.next + 1), db.next, now))
  {
    hide PolicyEngine.Decide, Approvals.SyncApprovals, Approvals.NewRequest;
  }

  lemma SubmitKeeps(db: Db, st: Settings, s: Intake.Submission, now: int)
    requires Inv(db, st)
    ensures Inv(Intake.Submit(db, s, now), st) && Kept(db, Intake.Submit(db, s, now))
  {
    hide *;
    KeptSelf(db);
    var all := Intake.Submit(db, s, now);
    if all != db {
      SubmitUnfold(db, s, now);
      NewIntentSound(s, now);
      var d := PolicyEngine.Decide(s.request).value;
      var record := Intake.NewIntent(s, d, now);
      InsertIntent(db, st, record);
      if d.approval.Some? {
        var rows := db.(intents := db.intents[db.next := record], next := db.next + 1);
        var r := Approvals.NewRequest(db.next, record);
        InsertRequest(db, rows, st, r);
        var d' := rows.(requests := rows.requests[rows.next := r], next := rows.next + 1);
        SyncApprovalsKeeps(d', st, db.next, now);
        KeptTransitive(db, d', all);
      }
    }
  }

  lemma RegisterKeeps(db: Db, st: Settings, tenant: string, intent: Id, forRequest: Option<Id>, kind: string,
          expiry: Option<int>, now: int)
    requires Inv(db, st)
    ensures Inv(EvidenceStore.Register(db, tenant, intent, forRequest, kind, expiry, now), st)
    ensures Kept(db, EvidenceStore.Register(db, tenant, intent, forRequest, kind, expiry, now))
  {
    hide Inv, Kept, EvidenceStore.SyncEvidence, Approvals.Refreshed;
    KeptSelf(db);
    if EvidenceStore.CheckBinding(db, tenant, intent, forRequest).None? {
      var row := Evidence(intent, tenant, kind, EvidenceStore.ResolveExpiration(db.intents[intent], expiry, now), EvidenceActive);
      var d := db.(evidence := db.evidence[db.next := row], next := db.next + 1);
      OnlyDerived(db, d, st, now);
      SyncEvidenceKeeps(d, st, intent, now);
      KeptTransitive(db, d, EvidenceStore.SyncEvidence(d, intent, now));
    }
  }

  // ----- Proofs and escrows -----

  /** Proofs may expire and new ones may be added for known intents. */
  lemma ProofsChange(a: Db, b: Db, st: Settings)
    requires Inv(a, st) && ProofsKept(a, b) && Issuance.ProofsInv(b) && ProofLinks(b)
    requires b == a.(proofs := b.proofs, next := b.next) && a.next <= b.next
    ensures Inv(b, st) && Kept(a, b)
  {
    hide Approvals.RequestInv, Issuance.ProofsInv, Escrows.RowInv, SoundIntent, ProofsKept, ProofLinks;
    forall k | k in b.requests ensures RequestOk(b, k) {
      assert RequestOk(a, k);
    }
    EscrowsSame(a, b, st);
  }

  lemma ReadProofKeeps(db: Db, st: Settings, i: Id, now: int)
    requires Inv(db, st)
    ensures Inv(Issuance.ReadProof(db, i, now), st) && Kept(db, Issuance.ReadProof(db, i, now))
  {
    hide Kept, RequestsInv, IntentsInv, Escrows.EscrowsInv;
    KeptSelf(db);
    var d := Issuance.ReadProof(db, i, now);
    if i in db.proofs {
      forall x, y | x in d.proofs && y in d.proofs && Issuance.SameIssue(d.proofs[x], d.proofs[y]) ensures x == y {
        assert Issuance.SameIssue(db.proofs[x], db.proofs[y]);
      }
      ProofsChange(db, d, st);
    }
  }

  lemma InsertedKept(d: Db, row: Proof)
    requires Issuance.ProofsInv(d) && ProofLinks(d) && row.key.intent in d.intents
    ensures ProofsKept(d, Issuance.Inserted(d, row)) && ProofLinks(Issuance.Inserted(d, row))
    ensures var b := Issuance.Inserted(d, row); b == d.(proofs := b.proofs, next := b.next) && d.next <= b.next
  {
    assert d.next !in d.proofs;
  }

  lemma IssueKeeps(db: Db, st: Settings, sh: Issuance.ScopeHashFn, q: Issuance.IssueRequest, now: int)
    requires Inv(db, st)
    ensures Inv(Issuance.Issue(db, st, sh, q, now), st) && Kept(db, Issuance.Issue(db, st, sh, q, now))
  {
    hide *;
    KeptSelf(db);
    Issuance.IssueUnfold(db, st, sh, q, now);
    if Issuance.Proceeds(db, st, sh, q, now) {
      var d := Issuance.Prepared(db, q.intent, now);
      PreparedKeeps(db, st, q.intent, now);
      Parts(d, st);
      var key, eligible, expiry := Issuance.KeyOf(db, sh, q), Issuance.Eligible(d.intents[q.intent]), now + EffectiveTtl(q.ttl, st.proofDefaultTtl);
      Issuance.KeyUnfold(db, sh, q);
      Issuance.RowStatus(key, q, eligible, expiry);
      RowKey(key, q, eligible, expiry);
      var row := Issuance.RowFor(key, q, eligible, expiry);
      Issuance.InsertedInv(d, row);
      InsertedKept(d, row);
      ProofsChange(d, Issuance.Inserted(d, row), st);
      KeptTransitive(db, d, Issuance.Inserted(d, row));
    }
  }

  lemma RowKey(key: ProofKey, q: Issuance.IssueRequest, eligible: bool, expiry: int)
    ensures Issuance.RowFor(key, q, eligible, expiry).key == key && Issuance.RowFor(key, q, eligible, expiry).expiresAt == expiry
  {
  }

  lemma EscrowsChange(a: Db, b: Db, st: Settings)
    requires Inv(a, st) && EscrowsKept(a, b) && Escrows.EscrowsInv(b, st)
    requires b == a.(escrows := b.escrows, next := b.next) && a.next <= b.next
    ensures Inv(b, st) && Kept(a, b)
  {
    hide Approvals.RequestInv, Issuance.ProofsInv, Escrows.EscrowsInv, SoundIntent, EscrowsKept;
    forall k | k in b.requests ensures RequestOk(b, k) {
      assert RequestOk(a, k);
    }
    ProofsSame(a, b);
  }

  lemma RefreshedKept(e: Escrow, now: int)
    ensures EscrowKept(e, Escrows.Refreshed(e, now))
  {
  }

  lemma AppliedKept(e: Escrow, p: Proof, th: Escrows.TokenHashFn, c: Escrows.Command, now: int)
    requires Escrows.RecordInv(e) && Escrows.Apply(e, p, th, c, now).Ok?
    ensures EscrowKept(e, Escrows.Apply(e, p, th, c, now).value)
  {
    if e.status == Held {
      Escrows.NotYetReleased(e);
    }
  }

  lemma EscrowKeptTransitive(x: Escrow, y: Escrow, z: Escrow)
    requires EscrowKept(x, y) && EscrowKept(y, z)
    ensures EscrowKept(x, z)
  {
  }

  lemma EscrowAt(db: Db, st: Settings, i: Id)
    requires Escrows.EscrowsInv(db, st) && i in db.escrows
    ensures i < db.next && Escrows.RecordInv(db.escrows[i]) && db.escrows[i].proof in db.proofs
    ensures Escrows.Bound(db.escrows[i], db.proofs[db.escrows[i].proof], st)
  {
    Escrows.RowOf(db, st, i);
  }

  lemma EscrowReplaced(db: Db, i: Id, e: Escrow)
    requires i in db.escrows && EscrowKept(db.escrows[i], e)
    ensures EscrowsKept(db, db.(escrows := db.escrows[i := e]))
  {
  }

  lemma FetchedEscrowKeeps(db: Db, st: Settings, i: Id, now: int)
    requires Inv(db, st) && i in db.escrows
    ensures Inv(Escrows.Fetched(db, i, now), st) && Kept(db, Escrows.Fetched(db, i, now))
  {
    Parts(db, st);
    hide Inv, Kept, Escrows.Refreshed, Escrows.EscrowsInv, Escrows.RecordInv, EscrowKept, EscrowsKept;
    EscrowAt(db, st, i);
    RefreshedKept(db.escrows[i], now);
    Escrows.RefreshedInv(db.escrows[i], now);
    Escrows.RefreshedFields(db.escrows[i], now);
    Escrows.ReplaceInv(db, st, i, Escrows.Refreshed(db.escrows[i], now));
    EscrowReplaced(db, i, Escrows.Refreshed(db.escrows[i], now));
    EscrowsChange(db, Escrows.Fetched(db, i, now), st);
  }

  lemma PerformUnfold(db: Db, th: Escrows.TokenHashFn, i: Id, c: Escrows.Command, now: int)
    requires i in db.escrows ==> db.escrows[i].proof in db.proofs
    ensures i !in db.escrows ==> Escrows.Perform(db, th, i, c, now) == db
    ensures i in db.escrows ==>
              var e, r := Escrows.Refreshed(db.escrows[i], now), Escrows.Apply(Escrows.Refreshed(db.escrows[i], now), db.proofs[db.escrows[i].proof], th, c, now);
              Escrows.Perform(db, th, i, c, now) == db.(escrows := db.escrows[i := if r.Ok? then r.value else e])
  {
  }

  lemma PerformKeeps(db: Db, st: Settings, th: Escrows.TokenHashFn, i: Id, c: Escrows.Command, now: int)
    requires Inv(db, st) && (i in db.escrows ==> db.escrows[i].proof in db.proofs)
    ensures Inv(Escrows.Perform(db, th, i, c, now), st) && Kept(db, Escrows.Perform(db, th, i, c, now))
  {
    hide *;
    KeptSelf(db);
    Parts(db, st);
    PerformUnfold(db, th, i, c, now);
    Escrows.PerformInv(db, st, th, i, c, now);
    if i in db.escrows {
      EscrowAt(db, st, i);
      var e, p := db.escrows[i], db.proofs[db.escrows[i].proof];
      var f := Escrows.Refreshed(e, now);
      RefreshedKept(e, now);
      Escrows.RefreshedInv(e, now);
      var r := Escrows.Apply(f, p, th, c, now);
      if r.Ok? {
        AppliedKept(f, p, th, c, now);
        EscrowKeptTransitive(e, f, r.value);
      }
      EscrowReplaced(db, i, if r.Ok? then r.value else f);
      EscrowsChange(db, Escrows.Perform(db, th, i, c, now), st);
    }
  }

  lemma HoldUnfold(db: Db, st: Settings, q: Escrows.HoldRequest, now: int)
    ensures Escrows.HoldsFor(db, q.proof) != {} ==> Escrows.HoldOf(db, q.proof) in db.escrows
    ensures var all := Escrows.Hold(db, st, q, now);
            || all == db
            || (Escrows.HoldsFor(db, q.proof) != {} && all == Escrows.Fetched(db, Escrows.HoldOf(db, q.proof), now))
            || (q.proof in db.proofs && Escrows.Active(db.proofs[q.proof], now)
                && all == db.(escrows := db.escrows[db.next := Escrows.Refreshed(Escrows.NewHold(db.proofs[q.proof], st, q, now), now)], next := db.next + 1))
  {
    hide Escrows.Refreshed, Escrows.NewHold, Escrows.HoldOf;
  }

  lemma EscrowInserted(db: Db, st: Settings, e: Escrow)
    requires Escrows.EscrowsInv(db, st)
    ensures EscrowsKept(db, db.(escrows := db.escrows[db.next := e], next := db.next + 1)) && db.next !in db.escrows
  {
    hide Escrows.RecordInv;
    assert db.next in db.escrows ==> Escrows.RowInv(db, st, db.next);
  }

  lemma HoldKeeps(db: Db, st: Settings, q: Escrows.HoldRequest, now: int)
    requires Inv(db, st)
    ensures Inv(Escrows.Hold(db, st, q, now), st) && Kept(db, Escrows.Hold(db, st, q, now))
  {
    hide *;
    KeptSelf(db);
    Parts(db, st);
    HoldUnfold(db, st, q, now);
    Escrows.HoldInv(db, st, q, now);
    var all := Escrows.Hold(db, st, q, now);
    if Escrows.HoldsFor(db, q.proof) != {} {
      HoldIn(db, q.proof);
      FetchedEscrowKeeps(db, st, Escrows.HoldOf(db, q.proof), now);
    }
    if all != db && (Escrows.HoldsFor(db, q.proof) == {} || all != Escrows.Fetched(db, Escrows.HoldOf(db, q.proof), now)) {
      EscrowInserted(db, st, Escrows.Refreshed(Escrows.NewHold(db.proofs[q.proof], st, q, now), now));
      EscrowsChange(db, all, st);
    }
  }

  lemma HoldIn(db: Db, proof: Id)
    requires Escrows.HoldsFor(db, proof) != {}
    ensures Escrows.HoldOf(db, proof) in db.escrows
  {
  }

  // ----- Every step -----

  lemma StepUnfold(db: Db, env: Environment, e: Event)
    requires Inv(db, env.settings)
    ensures match e.call
            case Submit(s) => Step(db, env, e) == Intake.Submit(db, s, e.now)
            case ReadIntent(i) => Step(db, env, e) == if i in db.intents then Issuance.Prepared(db, i, e.now) else db
            case ReadRequest(i) =>
              && (i in db.requests ==> db.requests[i].intent in db.intents)
              && Step(db, env, e) == if i in db.requests then Approvals.Fetched(db, i, e.now) else db
            case Decide(i, p, claimed, approve, cited) =>
              Approvals.Linked(db) && Step(db, env, e) == Approvals.RecordDecision(db, i, p, claimed, approve, cited, e.now)
            case Register(tenant, i, r, kind, expiry) => Step(db, env, e) == EvidenceStore.Register(db, tenant, i, r, kind, expiry, e.now)
            case Issue(q) => Step(db, env, e) == Issuance.Issue(db, env.settings, env.scopeHash, q, e.now)
            case ReadProof(i) => Step(db, env, e) == Issuance.ReadProof(db, i, e.now)
            case Hold(q) => Step(db, env, e) == Escrows.Hold(db, env.settings, q, e.now)
            case ReadEscrow(i) => Step(db, env, e) == if i in db.escrows then Escrows.Fetched(db, i, e.now) else db
            case Order(i, c) =>
              && (i in db.escrows ==> db.escrows[i].proof in db.proofs)
              && Step(db, env, e) == Escrows.Perform(db, env.tokenHash, i, c, e.now)
  {
    FollowsAlways(db, env, e);
    LinkedInv(db, env.settings);
    hide Inv, Intake.Submit, Issuance.Prepared, Approvals.Fetched, Approvals.RecordDecision, EvidenceStore.Register, Issuance.Issue;
    hide Issuance.ReadProof, Escrows.Hold, Escrows.Fetched, Escrows.Perform;
  }

  lemma FollowsAlways(db: Db, env: Environment, e: Event)
    requires Inv(db, env.settings)
    ensures Follows(db, e.call)
  {
    hide Inv;
    LinkedInv(db, env.settings);
    Parts(db, env.settings);
    match e.call
    case Order(i, _) => ProofOfEscrow(db, env.settings, i);
    case _ =>
  }

  lemma {:induction false} StepKeeps(db: Db, env: Environment, e: Event)
    requires Inv(db, env.settings)
    ensures Inv(Step(db, env, e), env.settings) && Kept(db, Step(db, env, e))
  {
    hide *;
    StepUnfold(db, env, e);
    KeptSelf(db);
    var st := env.settings;
    match e.call
    case Submit(s) => SubmitKeeps(db, st, s, e.now);
    case ReadIntent(i) => if i in db.intents { PreparedKeeps(db, st, i, e.now); }
    case ReadRequest(i) => if i in db.requests { RequestAt(db, st, i); FetchedKeeps(db, st, i, e.now); }
    case Decide(i, p, claimed, approve, cited) => LinkedInv(db, st); DecideKeeps(db, st, i, p, claimed, approve, cited, e.now);
    case Register(tenant, i, r, kind, expiry) => RegisterKeeps(db, st, tenant, i, r, kind, expiry, e.now);
    case Issue(q) => IssueKeeps(db, st, env.scopeHash, q, e.now);
    case ReadProof(i) => ReadProofKeeps(db, st, i, e.now);
    case Hold(q) => HoldKeeps(db, st, q, e.now);
    case ReadEscrow(i) => if i in db.escrows { FetchedEscrowKeeps(db, st, i, e.now); }
    case Order(i, c) => Parts(db, st); ProofOfEscrow(db, st, i); PerformKeeps(db, st, env.tokenHash, i, c, e.now);
  }
}
