/** `issuance.py` for one caller at a time; overlapping callers are in `IssuanceRace`. */
module Issuance {
  import opened Hashing
  import opened Text
  import opened PolicyEngine
  import opened ControlPlane
  import Approvals
  import EvidenceStore

  datatype IssuanceError = IntentNotFound | EmptyScope | TtlTooLong

  datatype SigningResult = KeyUnavailable | KeyRefused | SignerCrashed | Signed

  datatype Outcome = Replayed(id: Id) | Created(id: Id)

  /** SHA-256 over the JSON list of scope values. */
  type ScopeHashFn = seq<string> -> Digest

  // ----- Scope in canonical form -----

  function InsertScope(v: string, s: seq<string>): (r: seq<string>)
    ensures forall x :: x in r <==> x == v || x in s
  {
    if s == [] then [v]
    else if v == s[0] then s
    else if Less(v, s[0]) then [v] + s
    else
      var r := [s[0]] + InsertScope(v, s[1..]);
      assert s == [s[0]] + s[1..];
      r
  }

  /** `sorted(set(scope))`. */
  function NormalizedScope(scope: seq<string>): (r: seq<string>)
    ensures forall x :: x in r <==> x in scope
    ensures r == [] <==> scope == []
  {
    if scope == [] then []
    else
      assert scope == [scope[0]] + scope[1..];
      var r := InsertScope(scope[0], NormalizedScope(scope[1..]));
      assert scope[0] in r;
      r
  }

  ghost predicate Increasing(s: seq<string>) {
    forall i, j :: 0 <= i < j < |s| ==> Less(s[i], s[j])
  }

  lemma {:induction false} InsertIncreases(v: string, s: seq<string>)
    requires Increasing(s)
    ensures Increasing(InsertScope(v, s))
  {
    if s != [] && v != s[0] {
      LessTotal(v, s[0]);
      if Less(v, s[0]) {
        forall j | 0 <= j < |s| ensures Less(v, s[j]) {
          if j > 0 { LessTransitive(v, s[0], s[j]); }
        }
      } else {
        InsertIncreases(v, s[1..]);
        var r := InsertScope(v, s[1..]);
        forall j | 0 <= j < |r| ensures Less(s[0], r[j]) {
          assert r[j] in r;
        }
      }
    }
  }

  lemma {:induction false} NormalizedIncreases(scope: seq<string>)
    ensures Increasing(NormalizedScope(scope))
  {
    if scope != [] {
      NormalizedIncreases(scope[1..]);
      InsertIncreases(scope[0], NormalizedScope(scope[1..]));
    }
  }

  lemma HeadNotInTail(s: seq<string>)
    requires s != [] && Increasing(s)
    ensures s[0] !in s[1..]
  {
    LessIrreflexive(s[0]);
  }

  lemma {:induction false} IncreasingUnique(a: seq<string>, b: seq<string>)
    requires Increasing(a) && Increasing(b) && forall x :: x in a <==> x in b
    ensures a == b
  {
    if a != [] {
      assert a[0] in b;
    }
    if b != [] {
      assert b[0] in a;
    }
    if a != [] && b != [] {
      LessTotal(a[0], b[0]);
      HeadNotInTail(a);
      HeadNotInTail(b);
      assert a == [a[0]] + a[1..] && b == [b[0]] + b[1..];
      TailsAgree(a, b);
      IncreasingUnique(a[1..], b[1..]);
    }
  }

  lemma TailsAgree(a: seq<string>, b: seq<string>)
    requires a != [] && b != [] && a[0] == b[0] && a[0] !in a[1..] && b[0] !in b[1..]
    requires forall x :: x in a <==> x in b
    ensures forall x :: x in a[1..] <==> x in b[1..]
  {
    forall x ensures x in a[1..] <==> x in b[1..] {
      assert x in a <==> x == a[0] || x in a[1..] by { assert a == [a[0]] + a[1..]; }
      assert x in b <==> x == b[0] || x in b[1..] by { assert b == [b[0]] + b[1..]; }
    }
  }

  /** Order and repetition of scope values do not matter: the canonical form depends on the set only. */
  lemma ScopeCanonical(a: seq<string>, b: seq<string>)
    ensures NormalizedScope(a) == NormalizedScope(b) <==> forall x :: x in a <==> x in b
  {
    NormalizedIncreases(a);
    NormalizedIncreases(b);
    if forall x :: x in a <==> x in b {
      IncreasingUnique(NormalizedScope(a), NormalizedScope(b));
    }
  }

  // ----- Eligibility -----

  /** `_evaluate_eligibility` on the synchronised record. */
  predicate Eligible(r: Intent) {
    && r.contract == ContractValid
    && r.decision != Deny && r.decision != StructurallyNonExecutable
    && (r.approval.Some? ==> r.approvalState == ApprovalSatisfied)
    && (r.evidence.Some? ==> r.evidenceState == EvidenceSatisfied)
  }

  ghost function Prepared(db: Db, intent: Id, now: int): (db': Db)
    requires intent in db.intents
  {
    EvidenceStore.SyncEvidence(Approvals.SyncApprovals(db, intent, now), intent, now)
  }

  /** There is a request for approval, and every one of them is satisfied. */
  ghost predicate AllSatisfied(db: Db, intent: Id) {
    && (exists i :: i in db.requests && db.requests[i].intent == intent)
    && (forall i :: i in db.requests && db.requests[i].intent == intent ==> db.requests[i].status == RequestSatisfied)
  }

  /**
    Eligibility without the derived state columns: what the approval and evidence tables hold at
    the moment of issuance.
  */
  ghost predicate Authorised(db: Db, intent: Id, now: int) {
    && intent in db.intents
    && var r := db.intents[intent];
    && r.contract == ContractValid
    && r.decision != Deny && r.decision != StructurallyNonExecutable
    && (r.approval.Some? ==> AllSatisfied(db, intent))
    && (r.evidence.Some? ==> |EvidenceStore.Live(db, intent, r.evidence.value, now)| >= r.evidence.value.minimumCount)
  }

  lemma EligibleIsAuthorised(db: Db, intent: Id, now: int)
    requires intent in db.intents
    ensures Eligible(Prepared(db, intent, now).intents[intent]) <==> Authorised(db, intent, now)
  {
    var d := Approvals.SyncApprovals(db, intent, now);
    var r := db.intents[intent];
    ApprovalPart(db, intent, now);
    if r.evidence.Some? {
      EvidenceStore.SatisfiedIsLive(d, intent, now);
      assert EvidenceStore.Live(d, intent, r.evidence.value, now) == EvidenceStore.Live(db, intent, r.evidence.value, now);
    }
  }

  lemma StatusesSatisfied(db: Db, intent: Id)
    ensures Approvals.StatusesOf(db, intent) == {RequestSatisfied} <==> AllSatisfied(db, intent)
  {
    var ids, statuses := Approvals.RequestsOf(db, intent), Approvals.StatusesOf(db, intent);
    assert forall i :: i in ids ==> db.requests[i].status in statuses;
    if statuses == {RequestSatisfied} {
      assert RequestSatisfied in statuses;
      var i :| i in ids && db.requests[i].status == RequestSatisfied;
    }
    if AllSatisfied(db, intent) {
      var i :| i in db.requests && db.requests[i].intent == intent;
      assert i in ids;
    }
  }

  /** Expiry found on reading never touches a satisfied request. */
  lemma RefreshKeepsSatisfied(db: Db, intent: Id, now: int)
    ensures AllSatisfied(Approvals.RefreshRequests(db, intent, now), intent) <==> AllSatisfied(db, intent)
  {
    var d := Approvals.RefreshRequests(db, intent, now);
    assert forall i :: i in db.requests ==> d.requests[i].intent == db.requests[i].intent;
    assert forall i :: i in db.requests ==> (d.requests[i].status == RequestSatisfied <==> db.requests[i].status == RequestSatisfied);
  }

  lemma ApprovalPart(db: Db, intent: Id, now: int)
    requires intent in db.intents
    ensures Approvals.SyncApprovals(db, intent, now).intents[intent].approvalState == ApprovalSatisfied <==> AllSatisfied(db, intent)
  {
    RefreshKeepsSatisfied(db, intent, now);
    var d := Approvals.RefreshRequests(db, intent, now);
    StatusesSatisfied(d, intent);
    hide AllSatisfied, Approvals.StatusesOf, Approvals.RefreshRequests;
    var statuses := Approvals.StatusesOf(d, intent);
    assert statuses == {RequestSatisfied} ==> RequestRejected !in statuses && RequestExpired !in statuses && RequestSatisfied in statuses;
  }

  // ----- Issuing -----

  ghost function IssuedWith(db: Db, key: ProofKey): (ids: set<Id>) {
    set i | i in db.proofs && db.proofs[i].status == ProofIssued && db.proofs[i].key == key
  }

  predicate SameIssue(p: Proof, q: Proof) {
    p.status == q.status == ProofIssued && p.key == q.key
  }

  /** What the partial unique index and the commit points guarantee between calls. */
  ghost predicate ProofsInv(db: Db) {
    && (forall i :: i in db.proofs ==> i < db.next && db.proofs[i].status != ProofRequested)
    && (forall i, j :: i in db.proofs && j in db.proofs && SameIssue(db.proofs[i], db.proofs[j]) ==> i == j)
  }

  function StatusFor(eligible: bool, signing: SigningResult): (s: ProofStatus)
    ensures s == ProofIssued <==> eligible && signing == Signed
    ensures s in {ProofIssued, ProofRejected, ProofFailed}
  {
    if !eligible then ProofRejected
    else
      match signing
      case KeyUnavailable => ProofRejected
      case KeyRefused => ProofRejected
      case SignerCrashed => ProofFailed
      case Signed => ProofIssued
  }

  /** `_refresh_if_expired`. */
  function RefreshedProof(p: Proof, now: int): (p': Proof) {
    if p.status == ProofIssued && p.expiresAt <= now then p.(status := ProofExpired) else p
  }

  /** `get_proof`: an expiry found on reading is committed. */
  function ReadProof(db: Db, id: Id, now: int): (db': Db) {
    if id !in db.proofs then db else db.(proofs := db.proofs[id := RefreshedProof(db.proofs[id], now)])
  }

  datatype IssueRequest = IssueRequest(intent: Id, kind: string, audience: string, scope: seq<string>, ttl: Option<int>, signing: SigningResult)

  ghost function KeyOf(db: Db, sh: ScopeHashFn, q: IssueRequest): (k: ProofKey)
    requires q.intent in db.intents
  {
    var r := db.intents[q.intent];
    ProofKey(r.tenant, q.intent, q.kind, q.audience, sh(NormalizedScope(q.scope)), r.digest)
  }

  /** The issued proof a repeated request is answered with. */
  ghost predicate Replays(db: Db, sh: ScopeHashFn, q: IssueRequest, now: int, id: Id)
    requires q.intent in db.intents
  {
    id in IssuedWith(db, KeyOf(db, sh, q)) && db.proofs[id].expiresAt > now
  }

  ghost predicate HasReplay(db: Db, sh: ScopeHashFn, q: IssueRequest, now: int)
    requires q.intent in db.intents
  {
    exists id :: Replays(db, sh, q, now, id)
  }

  ghost function WithoutLapsed(proofs: map<Id, Proof>, key: ProofKey): (m: map<Id, Proof>) {
    map i | i in proofs :: if proofs[i].status == ProofIssued && proofs[i].key == key then proofs[i].(status := ProofExpired) else proofs[i]
  }

  ghost function Refused(db: Db, st: Settings, sh: ScopeHashFn, q: IssueRequest, now: int): (e: Option<IssuanceError>) {
    if q.intent !in db.intents then Some(IntentNotFound)
    else if q.scope == [] then Some(EmptyScope)
    else if HasReplay(db, sh, q, now) then None
    else if EffectiveTtl(q.ttl, st.proofDefaultTtl) > st.proofMaxTtl then Some(TtlTooLong)
    else None
  }

  /** Neither refused nor answered with an earlier proof. */
  ghost predicate Proceeds(db: Db, st: Settings, sh: ScopeHashFn, q: IssueRequest, now: int) {
    Refused(db, st, sh, q, now).None? && !HasReplay(db, sh, q, now)
  }

  ghost function Inserted(db: Db, row: Proof): (db': Db) {
    db.(proofs := WithoutLapsed(db.proofs, row.key)[db.next := row], next := db.next + 1)
  }

  function RowFor(key: ProofKey, q: IssueRequest, eligible: bool, expiresAt: int): (row: Proof) {
    Proof(key, NormalizedScope(q.scope), StatusFor(eligible, q.signing), expiresAt)
  }

  /** The whole effect of `issue_proof`: refusals and replays commit nothing. */
  ghost function Issue(db: Db, st: Settings, sh: ScopeHashFn, q: IssueRequest, now: int): (db': Db) {
    if !Proceeds(db, st, sh, q, now) then db
    else
      var d := Prepared(db, q.intent, now);
      Inserted(d, RowFor(KeyOf(db, sh, q), q, Eligible(d.intents[q.intent]), now + EffectiveTtl(q.ttl, st.proofDefaultTtl)))
  }

  lemma InsertedInv(db: Db, row: Proof)
    requires ProofsInv(db) && row.status != ProofRequested
    ensures ProofsInv(Inserted(db, row)) && Inserted(db, row).proofs[db.next] == row
  {
    var db' := Inserted(db, row);
    assert db.next !in db.proofs;
    forall i, j | i in db'.proofs && j in db'.proofs && SameIssue(db'.proofs[i], db'.proofs[j]) ensures i == j {
      assert i != db.next ==> db'.proofs[i] == db.proofs[i];
      assert j != db.next ==> db'.proofs[j] == db.proofs[j];
      assert i != db.next && j != db.next ==> SameIssue(db.proofs[i], db.proofs[j]);
    }
  }

  lemma IssueUnfold(db: Db, st: Settings, sh: ScopeHashFn, q: IssueRequest, now: int)
    ensures !Proceeds(db, st, sh, q, now) ==> Issue(db, st, sh, q, now) == db
    ensures Proceeds(db, st, sh, q, now) ==>
              && q.intent in db.intents
              && var d := Prepared(db, q.intent, now);
              && q.intent in d.intents
              && Issue(db, st, sh, q, now) ==
                   Inserted(d, RowFor(KeyOf(db, sh, q), q, Eligible(d.intents[q.intent]), now + EffectiveTtl(q.ttl, st.proofDefaultTtl)))
  {
  }

  lemma SameProofs(db: Db, d: Db)
    requires ProofsInv(db) && d.proofs == db.proofs && d.next == db.next
    ensures ProofsInv(d)
  {
  }

  /** Every call keeps one issued proof per key, and none left merely requested. */
  lemma IssueInv(db: Db, st: Settings, sh: ScopeHashFn, q: IssueRequest, now: int)
    requires ProofsInv(db)
    ensures ProofsInv(Issue(db, st, sh, q, now))
  {
    hide *;
    IssueUnfold(db, st, sh, q, now);
    if Proceeds(db, st, sh, q, now) {
      PreparedProofs(db, q.intent, now);
      var d := Prepared(db, q.intent, now);
      SameProofs(db, d);
      var row := RowFor(KeyOf(db, sh, q), q, Eligible(d.intents[q.intent]), now + EffectiveTtl(q.ttl, st.proofDefaultTtl));
      RowStatus(KeyOf(db, sh, q), q, Eligible(d.intents[q.intent]), now + EffectiveTtl(q.ttl, st.proofDefaultTtl));
      InsertedInv(d, row);
    }
  }

  lemma RowStatus(key: ProofKey, q: IssueRequest, eligible: bool, expiresAt: int)
    ensures var row := RowFor(key, q, eligible, expiresAt);
            row.status != ProofRequested && (row.status == ProofIssued <==> eligible && q.signing == Signed)
  {
  }

  lemma PreparedProofs(db: Db, intent: Id, now: int)
    requires intent in db.intents
    ensures Prepared(db, intent, now).proofs == db.proofs && Prepared(db, intent, now).next == db.next
    ensures Prepared(db, intent, now).escrows == db.escrows && intent in Prepared(db, intent, now).intents
  {
  }

  /** A new issued proof appears exactly when the request is authorised, signed and neither refused nor a replay. */
  lemma IssuedExactlyWhenAuthorised(db: Db, st: Settings, sh: ScopeHashFn, q: IssueRequest, now: int)
    requires ProofsInv(db)
    ensures var db' := Issue(db, st, sh, q, now);
            (db.next in db'.proofs && db'.proofs[db.next].status == ProofIssued) <==>
              Proceeds(db, st, sh, q, now) && Authorised(db, q.intent, now) && q.signing == Signed
  {
    if Proceeds(db, st, sh, q, now) {
      EligibleIsAuthorised(db, q.intent, now);
      PreparedProofs(db, q.intent, now);
      hide *;
    }
  }

  lemma PreparedFrame(db: Db, intent: Id, now: int)
    requires intent in db.intents
    ensures var d := Prepared(db, intent, now);
            d.proofs == db.proofs && d.escrows == db.escrows && d.next == db.next && d.intents.Keys == db.intents.Keys
            && (forall i :: i in db.intents ==>
                  d.intents[i] == db.intents[i].(approvalState := d.intents[i].approvalState, evidenceState := d.intents[i].evidenceState))
            && d.requests == Approvals.RefreshRequests(db, intent, now).requests
            && d.evidence == EvidenceStore.RefreshEvidence(db, intent, now).evidence
  {
  }

  /**
    Idempotence: once a proof is issued, the same request with its scope reordered or repeated is
    answered, until the proof expires, with that very proof, and nothing changes.
  */
  lemma RepeatIsReplay(db: Db, st: Settings, sh: ScopeHashFn, q: IssueRequest, q': IssueRequest, now: int, later: int)
    requires ProofsInv(db) && q.intent in db.intents
    requires q' == q.(scope := q'.scope, ttl := q'.ttl, signing := q'.signing) && forall x :: x in q.scope <==> x in q'.scope
    requires var db' := Issue(db, st, sh, q, now);
             db.next in db'.proofs && db'.proofs[db.next].status == ProofIssued && later < db'.proofs[db.next].expiresAt
    ensures var db' := Issue(db, st, sh, q, now);
            && q.intent in db'.intents
            && Replays(db', sh, q', later, db.next)
            && (forall id :: Replays(db', sh, q', later, id) ==> id == db.next)
            && Issue(db', st, sh, q', later) == db'
  {
    hide Eligible, Approvals.SyncApprovals, EvidenceStore.SyncEvidence;
    PreparedFrame(db, q.intent, now);
    ScopeCanonical(q.scope, q'.scope);
    var db' := Issue(db, st, sh, q, now);
    assert db'.proofs[db.next].key == KeyOf(db, sh, q) == KeyOf(db', sh, q');
    assert Replays(db', sh, q', later, db.next);
  }

  // ----- The service -----

  lemma RefusedUnfold(db: Db, st: Settings, sh: ScopeHashFn, q: IssueRequest, now: int)
    ensures q.intent !in db.intents ==> Refused(db, st, sh, q, now) == Some(IntentNotFound)
    ensures q.intent in db.intents && q.scope == [] ==> Refused(db, st, sh, q, now) == Some(EmptyScope)
    ensures q.intent in db.intents && q.scope != [] && HasReplay(db, sh, q, now) ==>
              Refused(db, st, sh, q, now) == None && !Proceeds(db, st, sh, q, now)
    ensures q.intent in db.intents && q.scope != [] && !HasReplay(db, sh, q, now) ==>
              Refused(db, st, sh, q, now) == (if EffectiveTtl(q.ttl, st.proofDefaultTtl) > st.proofMaxTtl then Some(TtlTooLong) else None)
              && (Proceeds(db, st, sh, q, now) <==> Refused(db, st, sh, q, now).None?)
    ensures Refused(db, st, sh, q, now).Some? ==> !Proceeds(db, st, sh, q, now)
  {
  }

  lemma PreparedUnfold(db: Db, intent: Id, now: int)
    requires intent in db.intents
    ensures var d := Approvals.SyncApprovals(db, intent, now);
            intent in d.intents && Prepared(db, intent, now) == EvidenceStore.SyncEvidence(d, intent, now)
  {
  }

  lemma KeyUnfold(db: Db, sh: ScopeHashFn, q: IssueRequest)
    requires q.intent in db.intents
    ensures var r := db.intents[q.intent];
            KeyOf(db, sh, q) == ProofKey(r.tenant, q.intent, q.kind, q.audience, sh(NormalizedScope(q.scope)), r.digest)
  {
  }

  lemma ReplayFound(db: Db, d: Db, sh: ScopeHashFn, q: IssueRequest, now: int, id: Id)
    requires q.intent in db.intents && d.proofs == db.proofs
    requires id in IssuedWith(d, KeyOf(db, sh, q)) && d.proofs[id].expiresAt > now
    ensures Replays(db, sh, q, now, id) && HasReplay(db, sh, q, now)
  {
    assert Replays(db, sh, q, now, id);
  }

  lemma NoReplay(db: Db, d: Db, sh: ScopeHashFn, q: IssueRequest, now: int)
    requires q.intent in db.intents && d.proofs == db.proofs
    requires forall i :: i in IssuedWith(d, KeyOf(db, sh, q)) ==> d.proofs[i].expiresAt <= now
    ensures !HasReplay(db, sh, q, now)
  {
  }

  lemma InsertedUnfold(d: Db, key: ProofKey, q: IssueRequest, eligible: bool, expiresAt: int)
    ensures Inserted(d, RowFor(key, q, eligible, expiresAt)) ==
              d.(proofs := WithoutLapsed(d.proofs, key)[d.next := Proof(key, NormalizedScope(q.scope), StatusFor(eligible, q.signing), expiresAt)],
                 next := d.next + 1)
  {
  }

  lemma OneLapsed(db: Db, key: ProofKey, id: Id)
    requires id in db.proofs && forall i :: i in IssuedWith(db, key) <==> i == id
    ensures WithoutLapsed(db.proofs, key) == db.proofs[id := db.proofs[id].(status := ProofExpired)]
  {
    assert forall i :: i in db.proofs ==> (i in IssuedWith(db, key) <==> db.proofs[i].status == ProofIssued && db.proofs[i].key == key);
  }

  lemma NoneLapsed(db: Db, key: ProofKey)
    requires IssuedWith(db, key) == {}
    ensures WithoutLapsed(db.proofs, key) == db.proofs
  {
    assert forall i :: i in db.proofs ==> (i in IssuedWith(db, key) <==> db.proofs[i].status == ProofIssued && db.proofs[i].key == key);
  }

  class IssuanceService {
    const session: Session
    const settings: Settings
    const approvals: Approvals.ApprovalService
    const evidence: EvidenceStore.EvidenceService
    const scopeHash: ScopeHashFn

    ghost predicate Wired() {
      approvals.session == session && evidence.session == session
    }

    constructor (session: Session, settings: Settings, approvals: Approvals.ApprovalService,
                 evidence: EvidenceStore.EvidenceService, scopeHash: ScopeHashFn)
      requires approvals.session == session && evidence.session == session
      ensures Wired() && this.session == session && this.settings == settings && this.scopeHash == scopeHash
    {
      this.session, this.settings, this.approvals, this.evidence, this.scopeHash := session, settings, approvals, evidence, scopeHash;
    }

    method FindIssued(key: ProofKey) returns (r: Option<Id>)
      ensures r.Some? ==> r.value in IssuedWith(session.work, key)
      ensures r.None? ==> IssuedWith(session.work, key) == {}
    {
      var db := session.work;
      var todo := db.proofs.Keys;
      while todo != {}
        invariant todo <= db.proofs.Keys
        invariant forall i :: i in db.proofs.Keys - todo ==> db.proofs[i].status != ProofIssued || db.proofs[i].key != key
        decreases |todo|
      {
        var i :| i in todo;
        if db.proofs[i].status == ProofIssued && db.proofs[i].key == key {
          return Some(i);
        }
        todo := todo - {i};
      }
      r := None;
    }

    /** `_find_existing_proof`: an issued proof past its expiry is marked expired and not returned. */
    method FindExisting(key: ProofKey, now: int) returns (r: Option<Id>)
      requires ProofsInv(session.work)
      modifies session`work
      ensures r.Some? ==> session.work == old(session.work) && r.value in IssuedWith(session.work, key) && session.work.proofs[r.value].expiresAt > now
      ensures r.None? ==> forall i :: i in IssuedWith(old(session.work), key) ==> old(session.work).proofs[i].expiresAt <= now
      ensures r.None? ==> session.work == old(session.work).(proofs := WithoutLapsed(old(session.work).proofs, key))
    {
      var db := session.work;
      r := FindIssued(key);
      if r.Some? {
        var id := r.value;
        if db.proofs[id].expiresAt > now {
          return;
        }
        r := None;
        assert forall i :: i in IssuedWith(db, key) ==> SameIssue(db.proofs[i], db.proofs[id]) && i == id;
        OneLapsed(db, key, id);
        session.work := db.(proofs := db.proofs[id := db.proofs[id].(status := ProofExpired)]);
      } else {
        NoneLapsed(db, key);
      }
    }

    /** `get_proof`. */
    method GetProof(id: Id, now: int) returns (r: Option<Proof>)
      requires session.Clean()
      modifies session
      ensures session.Clean()
      ensures session.committed == ReadProof(old(session.committed), id, now)
      ensures r == (if id in session.committed.proofs then Some(session.committed.proofs[id]) else None)
    {
      if id !in session.work.proofs {
        return None;
      }
      var p := session.work.proofs[id];
      if p.status == ProofIssued && p.expiresAt <= now {
        session.work := session.work.(proofs := session.work.proofs[id := p.(status := ProofExpired)]);
        session.Commit();
      } else {
        assert session.work.proofs == session.work.proofs[id := p];
      }
      r := Some(session.work.proofs[id]);
    }

    /** `issue_proof`. */
    method IssueProof(q: IssueRequest, now: int) returns (r: Result<Outcome, IssuanceError>)
      requires Wired() && session.Clean() && ProofsInv(session.committed)
      modifies session
      ensures session.Clean()
      ensures session.committed == Issue(old(session.committed), settings, scopeHash, q, now)
      ensures r.Err? <==> Refused(old(session.committed), settings, scopeHash, q, now).Some?
      ensures r.Err? ==> Refused(old(session.committed), settings, scopeHash, q, now) == Some(r.error)
      ensures r.Ok? && r.value.Replayed? ==>
                && q.intent in old(session.committed).intents
                && Replays(old(session.committed), scopeHash, q, now, r.value.id)
      ensures r.Ok? && r.value.Created? <==> Proceeds(old(session.committed), settings, scopeHash, q, now)
      ensures r.Ok? && r.value.Created? ==> r.value.id == old(session.committed).next
    {
      hide Approvals.SyncApprovals, EvidenceStore.SyncEvidence, Prepared, Issue, Refused, Proceeds, Replays, HasReplay;
      hide IssuedWith, WithoutLapsed, NormalizedScope, Eligible, ProofsInv, KeyOf, Inserted, RowFor, StatusFor;
      ghost var db := session.committed;
      IssueUnfold(db, settings, scopeHash, q, now);
      RefusedUnfold(db, settings, scopeHash, q, now);
      if q.intent !in session.work.intents {
        return Err(IntentNotFound);
      }
      PreparedUnfold(db, q.intent, now);
      PreparedFrame(db, q.intent, now);
      PreparedProofs(db, q.intent, now);
      var a := approvals.Synchronize(q.intent, now);
      var e := evidence.Synchronize(q.intent, now);
      assert session.work == Prepared(db, q.intent, now);
      var scope := NormalizedScope(q.scope);
      if scope == [] {
        session.Rollback();
        return Err(EmptyScope);
      }
      var record := session.work.intents[q.intent];
      var key := ProofKey(record.tenant, q.intent, q.kind, q.audience, scopeHash(scope), record.digest);
      KeyUnfold(db, scopeHash, q);
      SameProofs(db, session.work);
      var existing := FindExisting(key, now);
      if existing.Some? {
        ReplayFound(db, session.work, scopeHash, q, now, existing.value);
        session.Rollback();
        return Ok(Replayed(existing.value));
      }
      NoReplay(db, Prepared(db, q.intent, now), scopeHash, q, now);
      var ttl := EffectiveTtl(q.ttl, settings.proofDefaultTtl);
      InsertedUnfold(Prepared(db, q.intent, now), key, q, Eligible(record), now + ttl);
      if ttl > settings.proofMaxTtl {
        session.Rollback();
        return Err(TtlTooLong);
      }
      r := Complete(key, scope, Eligible(record), q.signing, now + ttl);
    }

    /** Insert as requested or rejected, resolve the key, sign, and commit the final status. */
    method Complete(key: ProofKey, scope: seq<string>, eligible: bool, signing: SigningResult, expiresAt: int)
      returns (r: Result<Outcome, IssuanceError>)
      modifies session
      ensures session.Clean()
      ensures session.committed == old(session.work).(
                proofs := old(session.work).proofs[old(session.work).next := Proof(key, scope, StatusFor(eligible, signing), expiresAt)],
                next := old(session.work).next + 1)
      ensures r == Ok(Created(old(session.work).next))
    {
      var db := session.work;
      var row := Proof(key, scope, if eligible then ProofRequested else ProofRejected, expiresAt);
      session.work := db.(proofs := db.proofs[db.next := row], next := db.next + 1);
      if eligible {
        var status := if signing == Signed then ProofIssued else if signing == SignerCrashed then ProofFailed else ProofRejected;
        session.work := session.work.(proofs := session.work.proofs[db.next := row.(status := status)]);
      }
      assert session.work.proofs == db.proofs[db.next := Proof(key, scope, StatusFor(eligible, signing), expiresAt)];
      session.Commit();
      r := Ok(Created(db.next));
    }
  }
}
