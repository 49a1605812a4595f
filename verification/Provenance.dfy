/** What the tables prove about the past: whole runs of the authority pipeline from empty tables. */
module Provenance {
  import opened Hashing
  import opened ControlPlane
  import opened Authority
  import PolicyEngine
  import Text
  import Approvals
  import EvidenceStore
  import Intake
  import Issuance
  import Escrows

  lemma EmptyInv(st: Settings)
    ensures Inv(EMPTY_DB, st)
  {
  }

  /** The tables after a run. */
  ghost function After(env: Environment, run: seq<Event>): (db: Db) {
    if run == [] then EMPTY_DB else Step(After(env, run[..|run| - 1]), env, run[|run| - 1])
  }

  lemma AfterSnoc(env: Environment, run: seq<Event>)
    ensures run == [] ==> After(env, run) == EMPTY_DB
    ensures run != [] ==> After(env, run) == Step(After(env, run[..|run| - 1]), env, run[|run| - 1])
  {
    hide Step;
  }

  lemma {:induction false} AfterUnfold(env: Environment, run: seq<Event>)
    ensures Inv(After(env, run), env.settings)
    ensures run == [] ==> After(env, run) == EMPTY_DB
    ensures run != [] ==> After(env, run) == Step(After(env, run[..|run| - 1]), env, run[|run| - 1])
  {
    hide *;
    AfterSnoc(env, run);
    if run == [] {
      EmptyInv(env.settings);
    } else {
      AfterUnfold(env, run[..|run| - 1]);
      StepKeeps(After(env, run[..|run| - 1]), env, run[|run| - 1]);
    }
  }

  /** Whatever happened by step k is still there at the end of the run. */
  lemma {:induction false} RunKeeps(env: Environment, run: seq<Event>, k: nat)
    requires k <= |run|
    ensures Kept(After(env, run[..k]), After(env, run))
  {
    hide *;
    AfterUnfold(env, run);
    if k == |run| {
      assert run[..k] == run;
      KeptSelf(After(env, run));
    } else {
      var before := run[..|run| - 1];
      assert before[..k] == run[..k];
      RunKeeps(env, before, k);
      AfterUnfold(env, before);
      StepKeeps(After(env, before), env, run[|run| - 1]);
      KeptTransitive(After(env, run[..k]), After(env, before), After(env, run));
    }
  }

  // ----- Which step made a proof -----

  predicate WasIssued(p: Proof) {
    p.status == ProofIssued || p.status == ProofExpired
  }

  ghost predicate IssuedBy(db: Db, env: Environment, e: Event, id: Id, key: ProofKey) {
    && e.call.Issue? && db.next == id
    && Issuance.Proceeds(db, env.settings, env.scopeHash, e.call.issue, e.now)
    && Issuance.Authorised(db, e.call.issue.intent, e.now)
    && e.call.issue.signing == Issuance.Signed
    && key == Issuance.KeyOf(db, env.scopeHash, e.call.issue)
  }

  lemma OtherCallsKeepProofs(db: Db, env: Environment, e: Event)
    requires Inv(db, env.settings) && !e.call.Issue?
    ensures Step(db, env, e).proofs.Keys == db.proofs.Keys
  {
    hide Inv, Approvals.SyncApprovals, EvidenceStore.SyncEvidence, Escrows.Refreshed, Approvals.Refusals, Issuance.RefreshedProof;
    hide Approvals.Decided, Approvals.NewRequest, PolicyEngine.Decide, Escrows.NewHold, Escrows.HoldRefusal;
    hide Step, Intake.Submit, Approvals.RecordDecision, Approvals.Fetched, Issuance.Prepared, Escrows.Perform, Escrows.Hold;
    StepUnfold(db, env, e);
    match e.call
    case Submit(s) => SubmitProofs(db, s, e.now);
    case ReadIntent(i) => if i in db.intents { Issuance.PreparedProofs(db, i, e.now); }
    case ReadRequest(i) => if i in db.requests { FetchedProofs(db, i, e.now); }
    case Decide(i, p, claimed, approve, cited) => DecideProofs(db, env.settings, i, p, claimed, approve, cited, e.now);
    case Register(tenant, i, r, kind, expiry) => RegisterProofs(db, tenant, i, r, kind, expiry, e.now);
    case ReadProof(i) =>
    case Hold(q) => HoldProofs(db, env.settings, q, e.now);
    case ReadEscrow(i) =>
    case Order(i, c) => PerformUnfold(db, env.tokenHash, i, c, e.now);
  }

  lemma SubmitProofs(db: Db, s: Intake.Submission, now: int)
    ensures Intake.Submit(db, s, now).proofs == db.proofs && Intake.Submit(db, s, now).escrows == db.escrows
  {
    hide PolicyEngine.Decide, Approvals.NewRequest, Approvals.Refreshed, Approvals.StateFrom, Approvals.StatusesOf;
  }

  lemma FetchedProofs(db: Db, i: Id, now: int)
    requires i in db.requests && db.requests[i].intent in db.intents
    ensures Approvals.Fetched(db, i, now).proofs == db.proofs && Approvals.Fetched(db, i, now).escrows == db.escrows
  {
    hide Approvals.Refreshed, Approvals.StateFrom, Approvals.StatusesOf;
  }

  lemma DecideProofs(db: Db, st: Settings, i: Id, p: Principal, claimed: seq<string>, approve: bool,
          cited: seq<Id>, now: int)
    requires Approvals.Linked(db) && Inv(db, st)
    ensures var d := Approvals.RecordDecision(db, i, p, claimed, approve, cited, now); d.proofs == db.proofs && d.escrows == db.escrows
  {
    hide *;
    if i in db.requests {
      RequestAt(db, st, i);
      FetchedKeeps(db, st, i, now);
      FetchedProofs(db, i, now);
      var d, all := Approvals.Fetched(db, i, now), Approvals.RecordDecision(db, i, p, claimed, approve, cited, now);
      LinkedInv(d, st);
      StillRequested(db, d, i);
      DecideUnfold(db, i, p, claimed, approve, cited, now);
      if all != d {
        var r := d.requests[i];
        RequestAt(d, st, i);
        SyncApprovalsFrame(d.(requests := d.requests[i := Approvals.Decided(r, Decision(p, claimed, approve))]), r.intent, now);
      }
    } else {
      NoSuchRequest(db, i, p, claimed, approve, cited, now);
    }
  }

  lemma RegisterProofs(db: Db, tenant: string, intent: Id, forRequest: Option<Id>, kind: string,
          expiry: Option<int>, now: int)
    ensures var d := EvidenceStore.Register(db, tenant, intent, forRequest, kind, expiry, now); d.proofs == db.proofs && d.escrows == db.escrows
  {
    hide EvidenceStore.Refreshed, EvidenceStore.DerivedState;
  }

  lemma HoldProofs(db: Db, st: Settings, q: Escrows.HoldRequest, now: int)
    ensures Escrows.Hold(db, st, q, now).proofs == db.proofs
  {
    hide Escrows.Refreshed, Escrows.NewHold;
  }

  lemma ProofSource(db: Db, env: Environment, e: Event, id: Id)
    requires Inv(db, env.settings)
    requires var d := Step(db, env, e); id in d.proofs && WasIssued(d.proofs[id])
    ensures (id in db.proofs && WasIssued(db.proofs[id])) || IssuedBy(db, env, e, id, Step(db, env, e).proofs[id].key)
  {
    hide *;
    var d := Step(db, env, e);
    StepKeeps(db, env, e);
    if id in db.proofs {
      KeptProof(db, d, id);
    } else if !e.call.Issue? {
      OtherCallsKeepProofs(db, env, e);
    } else {
      StepUnfold(db, env, e);
      Parts(db, env.settings);
      NewProof(db, env.settings, env.scopeHash, e.call.issue, e.now, id);
      IssuedByMeans(db, env, e, id);
    }
  }

  lemma KeptProof(a: Db, b: Db, id: Id)
    requires Kept(a, b) && id in a.proofs
    ensures id in b.proofs && b.proofs[id].key == a.proofs[id].key && b.proofs[id].expiresAt == a.proofs[id].expiresAt
    ensures WasIssued(b.proofs[id]) <==> WasIssued(a.proofs[id])
  {
  }

  lemma NewProof(db: Db, st: Settings, sh: Issuance.ScopeHashFn, q: Issuance.IssueRequest, now: int, id: Id)
    requires Issuance.ProofsInv(db)
    requires var d := Issuance.Issue(db, st, sh, q, now); id in d.proofs && id !in db.proofs && WasIssued(d.proofs[id])
    ensures id == db.next && Issuance.Proceeds(db, st, sh, q, now) && q.intent in db.intents
    ensures Issuance.Authorised(db, q.intent, now) && q.signing == Issuance.Signed
    ensures Issuance.Issue(db, st, sh, q, now).proofs[id].key == Issuance.KeyOf(db, sh, q)
  {
    hide Issuance.Issue, Issuance.Proceeds, Issuance.Authorised, Issuance.Prepared, Issuance.Eligible, Issuance.ProofsInv, Issuance.KeyOf;
    Issuance.IssuedExactlyWhenAuthorised(db, st, sh, q, now);
    Issuance.IssueUnfold(db, st, sh, q, now);
    Issuance.PreparedProofs(db, q.intent, now);
  }

  lemma IssuedByMeans(db: Db, env: Environment, e: Event, id: Id)
    requires e.call.Issue? && id == db.next && e.call.issue.intent in db.intents
    requires Issuance.Proceeds(db, env.settings, env.scopeHash, e.call.issue, e.now) && Issuance.Authorised(db, e.call.issue.intent, e.now)
    requires e.call.issue.signing == Issuance.Signed
    ensures IssuedBy(db, env, e, id, Issuance.KeyOf(db, env.scopeHash, e.call.issue))
  {
  }

  // ----- Which step changed an escrow record -----

  predicate WasConsumed(e: Escrow) {
    exists t :: t in e.log && t.kind == Consumption
  }

  /** One step leaves a record alone, expires it, or carries out the command addressed to it. */
  ghost predicate MovedBy(db: Db, env: Environment, e: Event, i: Id, after: Escrow)
    requires i in db.escrows && db.escrows[i].proof in db.proofs
  {
    || after == db.escrows[i]
    || after == Escrows.Refreshed(db.escrows[i], e.now)
    || (e.call.Order? && e.call.escrow == i
        && Escrows.Apply(Escrows.Refreshed(db.escrows[i], e.now), db.proofs[db.escrows[i].proof], env.tokenHash, e.call.command, e.now) == Ok(after))
  }

  lemma EscrowMoves(db: Db, env: Environment, e: Event, i: Id)
    requires Inv(db, env.settings) && i in db.escrows && db.escrows[i].proof in db.proofs
    ensures i in Step(db, env, e).escrows && MovedBy(db, env, e, i, Step(db, env, e).escrows[i])
  {
    hide *;
    StepUnfold(db, env, e);
    StepKeeps(db, env, e);
    KeptEscrow(db, Step(db, env, e), i);
    MovedByUnfold(db, env, e, i, Step(db, env, e).escrows[i]);
    match e.call
    case Submit(s) => SubmitProofs(db, s, e.now);
    case ReadIntent(k) => if k in db.intents { Issuance.PreparedProofs(db, k, e.now); }
    case ReadRequest(k) => if k in db.requests { FetchedProofs(db, k, e.now); }
    case Decide(k, p, claimed, approve, cited) => DecideProofs(db, env.settings, k, p, claimed, approve, cited, e.now);
    case Register(tenant, k, r, kind, expiry) => RegisterProofs(db, tenant, k, r, kind, expiry, e.now);
    case Issue(q) => IssueEscrows(db, env.settings, env.scopeHash, q, e.now);
    case ReadProof(k) => ReadProofEscrows(db, k, e.now);
    case Hold(q) => HoldMoves(db, env, e, i);
    case ReadEscrow(k) => if k in db.escrows { FetchedMoves(db, k, e.now, i); }
    case Order(k, c) => PerformUnfold(db, env.tokenHash, k, c, e.now);
  }

  lemma KeptEscrow(a: Db, b: Db, i: Id)
    requires Kept(a, b) && i in a.escrows
    ensures i in b.escrows && EscrowKept(a.escrows[i], b.escrows[i]) && b.escrows[i].proof == a.escrows[i].proof
    ensures b.escrows[i].expiresAt == a.escrows[i].expiresAt
    ensures a.escrows[i].tokenDigest.Some? ==> b.escrows[i].tokenDigest == a.escrows[i].tokenDigest
  {
  }

  lemma MovedByUnfold(db: Db, env: Environment, e: Event, i: Id, after: Escrow)
    requires i in db.escrows && db.escrows[i].proof in db.proofs
    ensures after == db.escrows[i] || after == Escrows.Refreshed(db.escrows[i], e.now) ==> MovedBy(db, env, e, i, after)
    ensures e.call.Order? && e.call.escrow == i ==>
              var r := Escrows.Apply(Escrows.Refreshed(db.escrows[i], e.now), db.proofs[db.escrows[i].proof], env.tokenHash, e.call.command, e.now);
              r.Ok? && r.value == after ==> MovedBy(db, env, e, i, after)
  {
  }

  lemma IssueEscrows(db: Db, st: Settings, sh: Issuance.ScopeHashFn, q: Issuance.IssueRequest, now: int)
    ensures Issuance.Issue(db, st, sh, q, now).escrows == db.escrows
  {
    hide Issuance.Issue, Issuance.Prepared, Issuance.Eligible, Issuance.Proceeds;
    Issuance.IssueUnfold(db, st, sh, q, now);
    if Issuance.Proceeds(db, st, sh, q, now) {
      Issuance.PreparedProofs(db, q.intent, now);
    }
  }

  lemma ReadProofEscrows(db: Db, k: Id, now: int)
    ensures Issuance.ReadProof(db, k, now).escrows == db.escrows
  {
  }

  lemma FetchedMoves(db: Db, k: Id, now: int, i: Id)
    requires k in db.escrows && i in db.escrows
    ensures Escrows.Fetched(db, k, now).escrows.Keys == db.escrows.Keys
    ensures Escrows.Fetched(db, k, now).escrows[i] in {db.escrows[i], Escrows.Refreshed(db.escrows[i], now)}
  {
  }

  lemma HoldMoves(db: Db, env: Environment, e: Event, i: Id)
    requires Inv(db, env.settings) && i in db.escrows && e.call.Hold?
    ensures i in Escrows.Hold(db, env.settings, e.call.hold, e.now).escrows
    ensures Escrows.Hold(db, env.settings, e.call.hold, e.now).escrows[i] in {db.escrows[i], Escrows.Refreshed(db.escrows[i], e.now)}
  {
    hide *;
    var q := e.call.hold;
    Parts(db, env.settings);
    HoldUnfold(db, env.settings, q, e.now);
    if Escrows.HoldsFor(db, q.proof) != {} {
      FetchedMoves(db, Escrows.HoldOf(db, q.proof), e.now, i);
    }
    EscrowAt(db, env.settings, i);
  }

  lemma {:induction false} AdvanceConsumed(e: Escrow, status: EscrowStatus, execution: ExecutionState)
    ensures WasConsumed(Escrows.Advance(e, status, execution)) <==> WasConsumed(e) || execution == DispatchRequested
  {
    var log := Escrows.Advance(e, status, execution).log;
    assert log[|e.log|] in log;
    assert forall t :: t in e.log ==> t in log;
    assert forall t :: t in log ==> t in e.log || t == log[|e.log|];
  }

  lemma RefreshedTraces(e: Escrow, now: int)
    ensures Escrows.Refreshed(e, now).tokenDigest == e.tokenDigest
    ensures WasConsumed(Escrows.Refreshed(e, now)) <==> WasConsumed(e)
    ensures Escrows.Refreshed(e, now).status in {Held, Released} ==> e.expiresAt > now
    ensures Escrows.Refreshed(e, now).expiresAt == e.expiresAt
  {
    AdvanceConsumed(e, Expired, ExecutionExpired);
  }

  /** The first token digest comes from a release, the first consumption entry from a consumption. */
  lemma AppliedTraces(e: Escrow, p: Proof, th: Escrows.TokenHashFn, c: Escrows.Command, now: int)
    requires Escrows.RecordInv(e) && Escrows.Apply(e, p, th, c, now).Ok?
    ensures var d := Escrows.Apply(e, p, th, c, now).value;
            && (e.tokenDigest.None? && d.tokenDigest.Some? ==>
                  c.Release? && Escrows.Active(p, now) && Text.Strip(c.minted) != "" && d.tokenDigest.value == th(Text.Strip(c.minted)) && e.status == Held)
            && (!WasConsumed(e) && WasConsumed(d) ==>
                  c.Consume? && Escrows.Active(p, now) && Text.Strip(c.token) != "" && e.tokenDigest == Some(th(Text.Strip(c.token))) && e.status == Released)
  {
    var d := Escrows.Apply(e, p, th, c, now).value;
    AdvanceConsumed(e, d.status, d.execution);
    Escrows.ApplyShape(e, p, th, c, now);
    hide WasConsumed, Escrows.RecordInv, Escrows.Coupled;
  }

  // ----- The four steps behind a consumed capability -----

  ghost predicate HeldBy(db: Db, e: Event, i: Id, proof: Id) {
    && e.call.Hold? && e.call.hold.proof == proof && db.next == i
    && proof in db.proofs && Escrows.Active(db.proofs[proof], e.now)
  }

  ghost predicate ReleasedBy(db: Db, env: Environment, e: Event, i: Id, digest: Digest) {
    && e.call.Order? && e.call.escrow == i && e.call.command.Release?
    && i in db.escrows && db.escrows[i].status == Held && e.now < db.escrows[i].expiresAt
    && db.escrows[i].proof in db.proofs && Escrows.Active(db.proofs[db.escrows[i].proof], e.now)
    && Text.Strip(e.call.command.minted) != "" && digest == env.tokenHash(Text.Strip(e.call.command.minted))
  }

  ghost predicate ConsumedBy(db: Db, env: Environment, e: Event, i: Id, digest: Digest) {
    && e.call.Order? && e.call.escrow == i && e.call.command.Consume?
    && i in db.escrows && db.escrows[i].status == Released && e.now < db.escrows[i].expiresAt
    && db.escrows[i].proof in db.proofs && Escrows.Active(db.proofs[db.escrows[i].proof], e.now)
    && Text.Strip(e.call.command.token) != "" && digest == env.tokenHash(Text.Strip(e.call.command.token))
    && db.escrows[i].tokenDigest == Some(digest)
  }

  lemma FreshHold(p: Proof, st: Settings, q: Escrows.HoldRequest, now: int)
    ensures var e := Escrows.Refreshed(Escrows.NewHold(p, st, q, now), now);
            e.proof == q.proof && e.tokenDigest.None? && !WasConsumed(e)
  {
    var e := Escrows.NewHold(p, st, q, now);
    RefreshedTraces(e, now);
    assert forall t :: t in e.log ==> t == e.log[0];
  }

  lemma HoldSource(db: Db, env: Environment, e: Event, i: Id)
    requires Inv(db, env.settings) && i !in db.escrows && i in Step(db, env, e).escrows
    ensures HeldBy(db, e, i, Step(db, env, e).escrows[i].proof)
    ensures Step(db, env, e).escrows[i].tokenDigest.None? && !WasConsumed(Step(db, env, e).escrows[i])
  {
    hide *;
    StepUnfold(db, env, e);
    match e.call
    case Submit(s) => SubmitProofs(db, s, e.now);
    case ReadIntent(k) => if k in db.intents { Issuance.PreparedProofs(db, k, e.now); }
    case ReadRequest(k) => if k in db.requests { FetchedProofs(db, k, e.now); }
    case Decide(k, p, claimed, approve, cited) => DecideProofs(db, env.settings, k, p, claimed, approve, cited, e.now);
    case Register(tenant, k, r, kind, expiry) => RegisterProofs(db, tenant, k, r, kind, expiry, e.now);
    case Issue(q) => IssueEscrows(db, env.settings, env.scopeHash, q, e.now);
    case ReadProof(k) => ReadProofEscrows(db, k, e.now);
    case Hold(q) => NewHoldSource(db, env, e, i);
    case ReadEscrow(k) => if k in db.escrows { SameEscrows(db, k, e.now); }
    case Order(k, c) => PerformUnfold(db, env.tokenHash, k, c, e.now);
  }

  lemma SameEscrows(db: Db, k: Id, now: int)
    requires k in db.escrows
    ensures Escrows.Fetched(db, k, now).escrows.Keys == db.escrows.Keys
  {
  }

  lemma NewHoldSource(db: Db, env: Environment, e: Event, i: Id)
    requires e.call.Hold? && i !in db.escrows && i in Escrows.Hold(db, env.settings, e.call.hold, e.now).escrows
    ensures var d := Escrows.Hold(db, env.settings, e.call.hold, e.now);
            HeldBy(db, e, i, d.escrows[i].proof) && d.escrows[i].tokenDigest.None? && !WasConsumed(d.escrows[i])
  {
    hide Escrows.Hold, Escrows.Refreshed, Escrows.NewHold, Escrows.HoldOf, WasConsumed;
    var q := e.call.hold;
    HoldUnfold(db, env.settings, q, e.now);
    if q.proof in db.proofs {
      FreshHold(db.proofs[q.proof], env.settings, q, e.now);
    }
  }

  lemma MovedTraces(db: Db, env: Environment, e: Event, i: Id, b: Escrow)
    requires i in db.escrows && db.escrows[i].proof in db.proofs && Escrows.RecordInv(db.escrows[i])
    requires MovedBy(db, env, e, i, b) && EscrowKept(db.escrows[i], b)
    ensures db.escrows[i].tokenDigest.None? && b.tokenDigest.Some? ==> ReleasedBy(db, env, e, i, b.tokenDigest.value)
    ensures !WasConsumed(db.escrows[i]) && WasConsumed(b) ==> b.tokenDigest.Some? && ConsumedBy(db, env, e, i, b.tokenDigest.value)
  {
    hide Escrows.Refreshed, Escrows.Apply, Escrows.RecordInv, WasConsumed, Text.Strip;
    var a := db.escrows[i];
    var f := Escrows.Refreshed(a, e.now);
    RefreshedTraces(a, e.now);
    Escrows.RefreshedInv(a, e.now);
    RefreshedStatus(a, e.now);
    if b != a && b != f {
      AppliedTraces(f, db.proofs[a.proof], env.tokenHash, e.call.command, e.now);
    }
  }

  lemma TraceSource(db: Db, env: Environment, e: Event, i: Id)
    requires Inv(db, env.settings) && i in db.escrows && i in Step(db, env, e).escrows
    ensures var a, b := db.escrows[i], Step(db, env, e).escrows[i];
            && (a.tokenDigest.None? && b.tokenDigest.Some? ==> ReleasedBy(db, env, e, i, b.tokenDigest.value))
            && (!WasConsumed(a) && WasConsumed(b) ==> b.tokenDigest.Some? && ConsumedBy(db, env, e, i, b.tokenDigest.value))
  {
    hide *;
    Parts(db, env.settings);
    EscrowAt(db, env.settings, i);
    EscrowMoves(db, env, e, i);
    StepKeeps(db, env, e);
    KeptEscrow(db, Step(db, env, e), i);
    MovedTraces(db, env, e, i, Step(db, env, e).escrows[i]);
  }

  lemma RefreshedStatus(e: Escrow, now: int)
    ensures Escrows.Refreshed(e, now).status in {Held, Released} ==> Escrows.Refreshed(e, now) == e
  {
  }

  lemma PrefixOfPrefix(run: seq<Event>, k: nat)
    requires k < |run|
    ensures forall j: nat :: j <= k ==> run[..k][..j] == run[..j]
    ensures run[..k + 1][..k] == run[..k] && run[..k + 1][k] == run[k] && |run[..k + 1]| == k + 1
  {
  }

  /** The step that stored, as issued, a proof that is issued or has since expired. */
  lemma {:induction false} IssuingStep(env: Environment, run: seq<Event>, id: Id) returns (k: nat)
    requires id in After(env, run).proofs && WasIssued(After(env, run).proofs[id])
    ensures k < |run| && IssuedBy(After(env, run[..k]), env, run[k], id, After(env, run).proofs[id].key)
    decreases |run|
  {
    hide *;
    AfterUnfold(env, run);
    EmptyTables();
    assert run != [];
    var n := |run| - 1;
    AfterUnfold(env, run[..n]);
    ProofSource(After(env, run[..n]), env, run[n], id);
    var before := After(env, run[..n]);
    if id in before.proofs && WasIssued(before.proofs[id]) {
      k := IssuingStep(env, run[..n], id);
      PrefixOfPrefix(run, n);
      StepKeeps(before, env, run[n]);
      KeptProof(before, After(env, run), id);
    } else {
      k := n;
    }
  }

  lemma EmptyTables()
    ensures EMPTY_DB.proofs == map[] && EMPTY_DB.escrows == map[] && EMPTY_DB.requests == map[] && EMPTY_DB.intents == map[]
  {
  }

  /** The step that created a hold. */
  lemma {:induction false} HoldingStep(env: Environment, run: seq<Event>, i: Id) returns (h: nat)
    requires i in After(env, run).escrows
    ensures h < |run| && HeldBy(After(env, run[..h]), run[h], i, After(env, run).escrows[i].proof)
    decreases |run|
  {
    hide *;
    AfterUnfold(env, run);
    EmptyTables();
    assert run != [];
    var n := |run| - 1;
    AfterUnfold(env, run[..n]);
    var before := After(env, run[..n]);
    if i in before.escrows {
      h := HoldingStep(env, run[..n], i);
      PrefixOfPrefix(run, n);
      StepKeeps(before, env, run[n]);
      KeptEscrow(before, After(env, run), i);
    } else {
      HoldSource(before, env, run[n], i);
      h := n;
    }
  }

  /** The step that released a capability whose token digest is stored. */
  lemma {:induction false} ReleasingStep(env: Environment, run: seq<Event>, i: Id) returns (r: nat)
    requires i in After(env, run).escrows && After(env, run).escrows[i].tokenDigest.Some?
    ensures r < |run| && ReleasedBy(After(env, run[..r]), env, run[r], i, After(env, run).escrows[i].tokenDigest.value)
    decreases |run|
  {
    hide *;
    AfterUnfold(env, run);
    EmptyTables();
    assert run != [];
    var n := |run| - 1;
    AfterUnfold(env, run[..n]);
    var before := After(env, run[..n]);
    if i in before.escrows && before.escrows[i].tokenDigest.Some? {
      r := ReleasingStep(env, run[..n], i);
      PrefixOfPrefix(run, n);
      StepKeeps(before, env, run[n]);
      KeptEscrow(before, After(env, run), i);
    } else {
      if i !in before.escrows {
        HoldSource(before, env, run[n], i);
      } else {
        TraceSource(before, env, run[n], i);
      }
      r := n;
    }
  }

  /** The step that consumed it. */
  lemma {:induction false} ConsumingStep(env: Environment, run: seq<Event>, i: Id) returns (c: nat)
    requires i in After(env, run).escrows && WasConsumed(After(env, run).escrows[i])
    ensures c < |run| && After(env, run).escrows[i].tokenDigest.Some?
    ensures ConsumedBy(After(env, run[..c]), env, run[c], i, After(env, run).escrows[i].tokenDigest.value)
    decreases |run|
  {
    hide *;
    AfterUnfold(env, run);
    EmptyTables();
    assert run != [];
    var n := |run| - 1;
    AfterUnfold(env, run[..n]);
    var before := After(env, run[..n]);
    if i in before.escrows && WasConsumed(before.escrows[i]) {
      c := ConsumingStep(env, run[..n], i);
      PrefixOfPrefix(run, n);
      StepKeeps(before, env, run[n]);
      KeptEscrow(before, After(env, run), i);
    } else {
      if i !in before.escrows {
        HoldSource(before, env, run[n], i);
      } else {
        TraceSource(before, env, run[n], i);
      }
      c := n;
    }
  }

  lemma ActiveWasIssued(p: Proof, now: int)
    requires Escrows.Active(p, now)
    ensures WasIssued(p)
  {
  }

  lemma ByMeans(db: Db, env: Environment, e: Event, i: Id, proof: Id, digest: Digest)
    ensures HeldBy(db, e, i, proof) ==> proof in db.proofs && Escrows.Active(db.proofs[proof], e.now)
    ensures ReleasedBy(db, env, e, i, digest) ==> i in db.escrows
    ensures ConsumedBy(db, env, e, i, digest) ==> i in db.escrows && db.escrows[i].tokenDigest == Some(digest)
  {
  }

  /**
    Every consumed capability went through four steps in this order: a proof was issued while its
    intent was authorised, a hold was opened on that active proof, the capability was released
    under a token, and a token with the same digest was presented, each before the expiries.
  */
  lemma {:induction false} ConsumedWasAuthorised(env: Environment, run: seq<Event>, i: Id)
    returns (k: nat, h: nat, r: nat, c: nat)
    requires i in After(env, run).escrows && WasConsumed(After(env, run).escrows[i])
    ensures k < h < r < c < |run|
    ensures var e := After(env, run).escrows[i];
            && e.proof in After(env, run).proofs && e.tokenDigest.Some?
            && IssuedBy(After(env, run[..k]), env, run[k], e.proof, After(env, run).proofs[e.proof].key)
            && HeldBy(After(env, run[..h]), run[h], i, e.proof)
            && ReleasedBy(After(env, run[..r]), env, run[r], i, e.tokenDigest.value)
            && ConsumedBy(After(env, run[..c]), env, run[c], i, e.tokenDigest.value)
  {
    hide *;
    var e := After(env, run).escrows[i];
    c := ConsumingStep(env, run, i);
    var digest := e.tokenDigest.value;
    ByMeans(After(env, run[..c]), env, run[c], i, e.proof, digest);
    RunKeeps(env, run, c);
    KeptEscrow(After(env, run[..c]), After(env, run), i);
    r := ReleasingStep(env, run[..c], i);
    PrefixOfPrefix(run, c);
    ByMeans(After(env, run[..r]), env, run[r], i, e.proof, digest);
    RunKeeps(env, run, r);
    KeptEscrow(After(env, run[..r]), After(env, run), i);
    h := HoldingStep(env, run[..r], i);
    PrefixOfPrefix(run, r);
    ByMeans(After(env, run[..h]), env, run[h], i, e.proof, digest);
    ActiveWasIssued(After(env, run[..h]).proofs[e.proof], run[h].now);
    RunKeeps(env, run, h);
    KeptProof(After(env, run[..h]), After(env, run), e.proof);
    k := IssuingStep(env, run[..h], e.proof);
    PrefixOfPrefix(run, h);
  }

  // ----- What is still true at the end of the run -----

  lemma SatisfiedStays(a: Db, b: Db, intent: Id)
    requires Kept(a, b) && intent in a.intents && Issuance.AllSatisfied(a, intent)
    ensures Issuance.AllSatisfied(b, intent)
  {
    var i :| i in a.requests && a.requests[i].intent == intent;
    assert i in b.requests && b.requests[i] == a.requests[i];
    forall k | k in b.requests && b.requests[k].intent == intent ensures b.requests[k].status == RequestSatisfied {
      assert k in a.requests ==> RequestKept(a.requests[k], b.requests[k]);
    }
  }

  /** What the tables say about an intent whose proof authorised an execution. */
  ghost predicate Entitled(db: Db, intent: Id) {
    && intent in db.intents
    && var r := db.intents[intent];
    && r.contract == ContractValid && r.decision != PolicyEngine.Deny && r.decision != PolicyEngine.StructurallyNonExecutable
    && (r.decision == PolicyEngine.ApprovalRequired || r.approval.Some? ==> r.approval.Some? && Issuance.AllSatisfied(db, intent))
    && (r.decision == PolicyEngine.NeedsEvidence ==> r.evidence.Some? && r.evidence.value.minimumCount >= 1)
  }

  lemma EntitlementStays(a: Db, b: Db, intent: Id, now: int, st: Settings)
    requires Kept(a, b) && Inv(a, st) && Issuance.Authorised(a, intent, now)
    ensures Entitled(b, intent)
  {
    assert SoundIntent(a.intents[intent]);
    if a.intents[intent].approval.Some? {
      SatisfiedStays(a, b, intent);
    }
    hide RequestsInv, Issuance.ProofsInv, ProofLinks, Escrows.EscrowsInv, RequestsKept, ProofsKept, EscrowsKept, Issuance.AllSatisfied;
  }

  lemma IssuedByKey(db: Db, env: Environment, e: Event, id: Id, key: ProofKey)
    requires IssuedBy(db, env, e, id, key)
    ensures key.intent == e.call.issue.intent && Issuance.Authorised(db, key.intent, e.now)
    ensures key.scopeHash == env.scopeHash(Issuance.NormalizedScope(e.call.issue.scope)) && key.audience == e.call.issue.audience
    ensures key.intent in db.intents && key.digest == db.intents[key.intent].digest && key.tenant == db.intents[key.intent].tenant
  {
  }

  /** The quorum of a request in full: required number of different entitled approvers, no rejection. */
  ghost predicate FullQuorum(db: Db, i: Id)
    requires i in db.requests && db.requests[i].intent in db.intents
  {
    var r := db.requests[i];
    var requester := db.intents[r.intent].requester;
    && Approvals.NoRejection(r.decisions) && |Approvals.Approvers(r.decisions)| == r.required >= 1
    && forall p :: p in Approvals.Approvers(r.decisions) ==>
         exists d :: d in r.decisions && d.decider == p && d.approve && Approvals.MayDecide(r, requester, p, d.roles)
  }

  /** In every run a request is satisfied exactly when it has its full quorum. */
  lemma {:induction false} SatisfiedIsQuorum(env: Environment, run: seq<Event>, i: Id)
    requires i in After(env, run).requests
    ensures var db := After(env, run);
            && db.requests[i].intent in db.intents
            && (db.requests[i].status == RequestSatisfied <==> FullQuorum(db, i))
            && (db.requests[i].status == RequestPending ==> |Approvals.Approvers(db.requests[i].decisions)| < db.requests[i].required)
  {
    hide Step, After, Approvals.Approvers, Approvals.MayDecide, Approvals.ApprovalCount;
    var db := After(env, run);
    AfterUnfold(env, run);
    RequestAt(db, env.settings, i);
    Approvals.QuorumExact(db.requests[i], db.intents[db.requests[i].intent].requester);
  }

  /** A request that is no longer pending never changes again. */
  lemma {:induction false} ClosedRequestsStay(env: Environment, run: seq<Event>, k: nat, i: Id)
    requires k <= |run| && i in After(env, run[..k]).requests && After(env, run[..k]).requests[i].status != RequestPending
    ensures i in After(env, run).requests && After(env, run).requests[i] == After(env, run[..k]).requests[i]
  {
    RunKeeps(env, run, k);
    hide Step, After, Inv;
  }

  /**
    Whole-run authority: a capability that was ever consumed stands on an intent that is still
    entitled, whose every approval request still has its full quorum, and on a record bound to its
    proof and expiring no later than the proof and the longest hold allow.
  */
  lemma {:induction false} ConsumedStillEntitled(env: Environment, run: seq<Event>, i: Id)
    requires i in After(env, run).escrows && WasConsumed(After(env, run).escrows[i])
    ensures var db := After(env, run);
            var e := db.escrows[i];
            && e.proof in db.proofs && Entitled(db, db.proofs[e.proof].key.intent)
            && Escrows.Bound(e, db.proofs[e.proof], env.settings)
            && db.proofs[e.proof].key.digest == db.intents[db.proofs[e.proof].key.intent].digest
    ensures var db := After(env, run);
            var intent := db.proofs[db.escrows[i].proof].key.intent;
            db.intents[intent].approval.Some? ==>
              forall q :: q in db.requests && db.requests[q].intent == intent ==> FullQuorum(db, q)
  {
    hide *;
    var db := After(env, run);
    var k, h, r, c := ConsumedWasAuthorised(env, run, i);
    AfterUnfold(env, run);
    AfterUnfold(env, run[..k]);
    Parts(db, env.settings);
    EscrowAt(db, env.settings, i);
    var key := db.proofs[db.escrows[i].proof].key;
    var intent := key.intent;
    IssuedByKey(After(env, run[..k]), env, run[k], db.escrows[i].proof, key);
    RunKeeps(env, run, k);
    EntitlementStays(After(env, run[..k]), db, intent, run[k].now, env.settings);
    EntitledMeans(db, intent);
    DigestStays(After(env, run[..k]), db, intent);
    if db.intents[intent].approval.Some? {
      forall q | q in db.requests && db.requests[q].intent == intent ensures FullQuorum(db, q) {
        SatisfiedIsQuorum(env, run, q);
        AllSatisfiedMeans(db, intent, q);
      }
    }
  }

  /** Every hold, consumed or not, is bound to a proof that was issued for the very action its intent describes. */
  lemma HeldIsBound(env: Environment, run: seq<Event>, i: Id)
    requires i in After(env, run).escrows
    ensures var db := After(env, run);
            var e := db.escrows[i];
            && e.proof in db.proofs && Escrows.Bound(e, db.proofs[e.proof], env.settings)
            && db.proofs[e.proof].key.intent in db.intents
            && e.digest == db.proofs[e.proof].key.digest == db.intents[db.proofs[e.proof].key.intent].digest
            && db.proofs[e.proof].key.tenant == db.intents[db.proofs[e.proof].key.intent].tenant
  {
    hide *;
    var db := After(env, run);
    AfterUnfold(env, run);
    Parts(db, env.settings);
    EscrowAt(db, env.settings, i);
    var proof := db.escrows[i].proof;
    BoundDigest(db.escrows[i], db.proofs[proof], env.settings);
    var h := HoldingStep(env, run, i);
    ByMeans(After(env, run[..h]), env, run[h], i, proof, db.escrows[i].scopeHash);
    ActiveWasIssued(After(env, run[..h]).proofs[proof], run[h].now);
    RunKeeps(env, run, h);
    KeptProof(After(env, run[..h]), db, proof);
    var k := IssuingStep(env, run[..h], proof);
    PrefixOfPrefix(run, h);
    RunKeeps(env, run, k);
    IssuedByKey(After(env, run[..k]), env, run[k], proof, db.proofs[proof].key);
    DigestStays(After(env, run[..k]), db, db.proofs[proof].key.intent);
  }

  lemma BoundDigest(e: Escrow, p: Proof, st: Settings)
    requires Escrows.Bound(e, p, st)
    ensures e.digest == p.key.digest && e.scope == p.scope
  {
  }

  lemma EntitledMeans(db: Db, intent: Id)
    requires Entitled(db, intent)
    ensures intent in db.intents && (db.intents[intent].approval.Some? ==> Issuance.AllSatisfied(db, intent))
  {
  }

  lemma AllSatisfiedMeans(db: Db, intent: Id, q: Id)
    requires Issuance.AllSatisfied(db, intent) && q in db.requests && db.requests[q].intent == intent
    ensures db.requests[q].status == RequestSatisfied
  {
  }

  lemma DigestStays(a: Db, b: Db, intent: Id)
    requires Kept(a, b) && intent in a.intents
    ensures intent in b.intents && b.intents[intent].digest == a.intents[intent].digest && b.intents[intent].tenant == a.intents[intent].tenant
  {
  }

  /** In every run each record's log replays to the record, in at most six entries, and a proof has one record. */
  lemma {:induction false} LogsReplay(env: Environment, run: seq<Event>, i: Id, j: Id)
    requires i in After(env, run).escrows && j in After(env, run).escrows
    ensures var e := After(env, run).escrows[i];
            && Escrows.Replay(e.log) == Some((e.status, e.execution)) && Escrows.Coupled(e.status, e.execution)
            && 1 <= |e.log| <= 6
    ensures After(env, run).escrows[i].proof == After(env, run).escrows[j].proof ==> i == j
  {
    hide Step, After, Escrows.Replay, Escrows.LogInv, Escrows.Coupled;
    AfterUnfold(env, run);
    Parts(After(env, run), env.settings);
    EscrowAt(After(env, run), env.settings, i);
    Escrows.AtMostSixEntries(After(env, run).escrows[i]);
  }

  /** In every run at most one proof is issued per key, and none is left merely requested. */
  lemma {:induction false} OneIssuedProof(env: Environment, run: seq<Event>, i: Id, j: Id)
    requires i in After(env, run).proofs && j in After(env, run).proofs
    ensures After(env, run).proofs[i].status != ProofRequested
    ensures var p, q := After(env, run).proofs[i], After(env, run).proofs[j];
            p.status == q.status == ProofIssued && p.key == q.key ==> i == j
  {
    hide Step, After, IntentsInv, RequestsInv, ProofLinks, Escrows.EscrowsInv;
    AfterUnfold(env, run);
    assert Issuance.SameIssue(After(env, run).proofs[i], After(env, run).proofs[j]) ==> i == j;
  }
}
