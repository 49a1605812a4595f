/** The results about consumed capabilities are not empty: a run in which one is consumed. */
module Reachability {
  import opened Hashing
  import opened ControlPlane
  import opened Authority
  import opened Provenance
  import PolicyEngine
  import JsonValues
  import Text
  import Approvals
  import EvidenceStore
  import Intake
  import Issuance
  import Escrows
  import Receipts
  import Settlement

  const TTLS: Settings := Settings(60, 60, 60, 60, false)

  const ASKER: Principal := Principal("user", "asker")
  const APPROVER: Principal := Principal("user", "approver")

  const REQUIREMENT: PolicyEngine.ApprovalRequirement := PolicyEngine.ApprovalRequirement(1, [], [], None, true)

  /** An action between two accounts, under a policy whose default is to ask for approval. */
  function SampleRequest(): (q: PolicyEngine.Request) {
    var action := JsonValues.Obj(map["source_account_ref" := JsonValues.Str("a"), "destination_account_ref" := JsonValues.Str("b")]);
    var nothing := JsonValues.Obj(map[]);
    PolicyEngine.Request(PolicyEngine.Sources(action, nothing, nothing), Some(PolicyEngine.Policy(PolicyEngine.ApprovalRequired, [], [])), true, true)
  }

  function SampleSubmission(): (s: Intake.Submission) {
    Intake.Submission("t", ASKER, "d", SampleRequest())
  }

  function SampleIssue(): (q: Issuance.IssueRequest) {
    Issuance.IssueRequest(0, "kind", "audience", ["pay"], None, Issuance.Signed)
  }

  /** Submit, approve, issue, hold, release, consume. */
  function SampleRun(): (run: seq<Event>)
    ensures |run| == 6
  {
    [Event(Submit(SampleSubmission()), 0),
     Event(Decide(1, APPROVER, [], true, []), 0),
     Event(Issue(SampleIssue()), 0),
     Event(Hold(Escrows.HoldRequest(2, "k", "r", None)), 0),
     Event(Order(3, Escrows.Release("t")), 0),
     Event(Order(3, Escrows.Consume("t")), 0)]
  }

  lemma SampleDecision()
    ensures var d := PolicyEngine.Decide(SampleRequest());
            d.Ok? && d.value.state == PolicyEngine.ApprovalRequired && d.value.approval == Some(REQUIREMENT) && d.value.evidence == None
  {
    var q := SampleRequest();
    assert PolicyEngine.HardRules(q).None?;
    PolicyEngine.DecideDefault(q);
  }

  function SampleIntent(): (r: Intent) {
    Intent("t", ASKER, ContractValid, PolicyEngine.ApprovalRequired, "d", Some(REQUIREMENT), None, 0, ApprovalNotStarted, EvidenceNotRequired)
  }

  predicate IntentThere(db: Db) {
    && 0 in db.intents && db.intents.Keys == {0}
    && db.intents[0] == SampleIntent().(approvalState := db.intents[0].approvalState, evidenceState := db.intents[0].evidenceState)
  }

  /** What the tables hold after the first k steps. */
  predicate Stage(db: Db, th: Escrows.TokenHashFn, k: nat) {
    match k
    case 0 => db == EMPTY_DB
    case 1 =>
      && IntentThere(db) && db.requests == map[1 := Approvals.NewRequest(0, SampleIntent())]
      && db.proofs == map[] && db.escrows == map[] && db.next == 2
    case 2 =>
      && IntentThere(db) && db.requests.Keys == {1} && db.requests[1].intent == 0 && db.requests[1].status == RequestSatisfied
      && db.proofs == map[] && db.escrows == map[] && db.next == 2
    case 3 => 2 in db.proofs && db.proofs[2].status == ProofIssued && db.proofs[2].expiresAt == 60 && db.escrows == map[] && db.next == 3
    case 4 => Escrowed(db) && db.escrows[3].status == Held
    case 5 => Escrowed(db) && db.escrows[3].status == Released && db.escrows[3].tokenDigest == Some(th("t"))
    case 6 => 3 in db.escrows && WasConsumed(db.escrows[3])
    case _ => false
  }

  predicate Escrowed(db: Db) {
    && 2 in db.proofs && db.proofs[2].status == ProofIssued && db.proofs[2].expiresAt == 60
    && 3 in db.escrows && db.escrows[3].proof == 2 && db.escrows[3].expiresAt == 60 && !db.escrows[3].external
  }

  lemma Submitting(db: Db, th: Escrows.TokenHashFn)
    requires Stage(db, th, 0)
    ensures Stage(Intake.Submit(db, SampleSubmission(), 0), th, 1)
  {
    SampleDecision();
    hide PolicyEngine.Decide, Approvals.StateFrom;
    var r := Approvals.NewRequest(0, SampleIntent());
    assert Intake.Answer(db, SampleSubmission()).Ok?;
    var rows := db.(intents := map[0 := SampleIntent()], requests := map[1 := r], next := 2);
    assert Intake.Submit(db, SampleSubmission(), 0) == Approvals.SyncApprovals(rows, 0, 0) by {
      assert db.intents[0 := SampleIntent()] == map[0 := SampleIntent()];
      assert db.requests[1 := r] == map[1 := r];
    }
    assert Approvals.Refreshed(r, 0) == r;
    assert Approvals.RefreshRequests(rows, 0, 0).requests == map[1 := r];
  }

  lemma Approving(db: Db, th: Escrows.TokenHashFn)
    requires Stage(db, th, 1) && Approvals.Linked(db)
    ensures Stage(Approvals.RecordDecision(db, 1, APPROVER, [], true, [], 0), th, 2)
  {
    hide Approvals.StateFrom;
    var r, d := db.requests[1], Decision(APPROVER, [], true);
    assert Approvals.Fetched(db, 1, 0) == db;
    assert Approvals.Refusals(db, 1, APPROVER, [], []) == {};
    assert Approvals.ApprovalCount([] + [d]) == 1 by { Approvals.CountSnoc([], d); }
    var after := db.(requests := db.requests[1 := Approvals.Decided(r, d)]);
    assert Approvals.RecordDecision(db, 1, APPROVER, [], true, [], 0) == Approvals.SyncApprovals(after, 0, 0);
  }

  lemma Issuing(db: Db, env: Environment)
    requires Stage(db, env.tokenHash, 2) && env.settings == TTLS && Issuance.ProofsInv(db)
    ensures Stage(Issuance.Issue(db, env.settings, env.scopeHash, SampleIssue(), 0), env.tokenHash, 3)
  {
    var q := SampleIssue();
    assert Issuance.AllSatisfied(db, 0);
    assert Issuance.Authorised(db, 0, 0);
    assert !Issuance.HasReplay(db, env.scopeHash, q, 0);
    Issuance.RefusedUnfold(db, env.settings, env.scopeHash, q, 0);
    Issuance.IssuedExactlyWhenAuthorised(db, env.settings, env.scopeHash, q, 0);
    Issuance.IssueUnfold(db, env.settings, env.scopeHash, q, 0);
    Issuance.PreparedProofs(db, 0, 0);
    hide Issuance.Issue, Issuance.Proceeds, Issuance.Refused, Issuance.Prepared, Issuance.KeyOf, Issuance.Eligible, Issuance.Authorised;
  }

  lemma Holding(db: Db, env: Environment)
    requires Stage(db, env.tokenHash, 3) && env.settings == TTLS
    ensures Stage(Escrows.Hold(db, env.settings, Escrows.HoldRequest(2, "k", "r", None), 0), env.tokenHash, 4)
  {
    var q := Escrows.HoldRequest(2, "k", "r", None);
    assert Text.Strip("k") == "k" && Text.Strip("r") == "r";
    assert Escrows.HoldRefusal(db, q, 0).None? && Escrows.HoldsFor(db, 2) == {};
    var e := Escrows.NewHold(db.proofs[2], TTLS, q, 0);
    assert Escrows.Refreshed(e, 0) == e;
    hide Text.Strip;
  }

  lemma Releasing(db: Db, env: Environment)
    requires Stage(db, env.tokenHash, 4)
    ensures Stage(Escrows.Perform(db, env.tokenHash, 3, Escrows.Release("t"), 0), env.tokenHash, 5)
  {
    assert Text.Strip("t") == "t";
  }

  lemma Consuming(db: Db, env: Environment)
    requires Stage(db, env.tokenHash, 5)
    ensures Stage(Escrows.Perform(db, env.tokenHash, 3, Escrows.Consume("t"), 0), env.tokenHash, 6)
  {
    assert Text.Strip("t") == "t";
    AdvanceConsumed(db.escrows[3], Consumed, DispatchRequested);
    hide WasConsumed;
  }

  /** For any hash functions the run ends with a consumed capability. */
  lemma {:induction false} ReachesStage(env: Environment, k: nat)
    requires env.settings == TTLS && k <= 6
    ensures Stage(After(env, SampleRun()[..k]), env.tokenHash, k)
  {
    hide *;
    var run := SampleRun()[..k];
    AfterUnfold(env, run);
    if k == 0 {
      StartStage(env);
    } else {
      ReachesStage(env, k - 1);
      PrefixStep(k);
      var db := After(env, SampleRun()[..k - 1]);
      AfterUnfold(env, SampleRun()[..k - 1]);
      StepUnfold(db, env, SampleRun()[k - 1]);
      Parts(db, env.settings);
      match k
      case 1 => Submitting(db, env.tokenHash);
      case 2 => LinkedInv(db, env.settings); Approving(db, env.tokenHash);
      case 3 => Issuing(db, env);
      case 4 => Holding(db, env);
      case 5 => Releasing(db, env);
      case 6 => Consuming(db, env);
    }
  }

  lemma StartStage(env: Environment)
    ensures Stage(EMPTY_DB, env.tokenHash, 0)
  {
  }

  lemma PrefixStep(k: nat)
    requires 1 <= k <= 6
    ensures |SampleRun()| == 6 && |SampleRun()[..k]| == k && SampleRun()[..k][..k - 1] == SampleRun()[..k - 1] && SampleRun()[..k][k - 1] == SampleRun()[k - 1]
    ensures SampleRun()[k - 1] == [Event(Submit(SampleSubmission()), 0), Event(Decide(1, APPROVER, [], true, []), 0), Event(Issue(SampleIssue()), 0),
                                   Event(Hold(Escrows.HoldRequest(2, "k", "r", None)), 0), Event(Order(3, Escrows.Release("t")), 0),
                                   Event(Order(3, Escrows.Consume("t")), 0)][k - 1]
  {
  }

  /** A capability is consumed at the end of this run, so what consumption implies is not vacuous. */
  lemma ConsumptionHappens(env: Environment)
    requires env.settings == TTLS
    ensures 3 in After(env, SampleRun()).escrows && WasConsumed(After(env, SampleRun()).escrows[3])
  {
    ReachesStage(env, 6);
    assert SampleRun()[..6] == SampleRun();
    hide After, WasConsumed;
  }

  function Moves(run: seq<Event>): (moves: seq<Settlement.Move>) {
    if run == [] then [] else Moves(run[..|run| - 1]) + [Settlement.Pipeline(run[|run| - 1])]
  }

  lemma {:induction false} MovesRun(env: Environment, how: Settlement.Digesting, run: seq<Event>)
    ensures Settlement.Events(Moves(run)) == run
    ensures Settlement.JointAfter(env, how, Moves(run)).receipts == map[]
  {
    hide *;
    MovesUnfold(run);
    if run == [] {
      NoMoves(env, how);
    } else {
      var before, last := run[..|run| - 1], Settlement.Pipeline(run[|run| - 1]);
      MovesRun(env, how, before);
      assert Moves(run)[..|Moves(run)| - 1] == Moves(before);
      assert run == before + [run[|run| - 1]];
      Settlement.EventsUnfold(Moves(run));
      PipelineReceipts(env, how, Moves(run));
    }
  }

  lemma MovesUnfold(run: seq<Event>)
    ensures run == [] ==> Moves(run) == []
    ensures run != [] ==> Moves(run) == Moves(run[..|run| - 1]) + [Settlement.Pipeline(run[|run| - 1])]
  {
  }

  lemma NoMoves(env: Environment, how: Settlement.Digesting)
    ensures Settlement.Events([]) == [] && Settlement.JointAfter(env, how, []).receipts == map[]
  {
  }

  lemma PipelineReceipts(env: Environment, how: Settlement.Digesting, moves: seq<Settlement.Move>)
    requires moves != [] && moves[|moves| - 1].Pipeline?
    ensures Settlement.JointAfter(env, how, moves).receipts == Settlement.JointAfter(env, how, moves[..|moves| - 1]).receipts
  {
    hide Step, Settlement.View, Settlement.IsNew;
  }

  /** The same run with one receipt: a reconciled receipt of a consumed capability, as `Settlement.SettledIsAuthorised` supposes. */
  lemma SettlementHappens(env: Environment, how: Settlement.Digesting, columns: Id -> Settlement.Extra, stamp: JsonValues.Json)
    returns (run: seq<Settlement.Move>, j: Id)
    requires env.settings == TTLS && how.readable(stamp)
    ensures |run| == 7
    ensures var s := Settlement.JointAfter(env, how, run);
            && j in s.receipts && s.receipts[j].state == Receipts.Reconciled && s.receipts[j].escrow == Some(3)
            && 3 in s.db.escrows && WasConsumed(s.db.escrows[3])
  {
    hide After, WasConsumed, Settlement.JointStep, Receipts.Agrees, Receipts.Stored, Settlement.TrueSubmission, Settlement.View, Moves, SampleRun;
    var first := Moves(SampleRun());
    MovesLength(SampleRun());
    var s := Settlement.JointAfter(env, how, first);
    MovesRun(env, how, SampleRun());
    Settlement.JointInv(env, how, first);
    ConsumptionHappens(env);
    Settlement.EveryHoldCanSettle(env, how, first, 3, columns, stamp);
    Settlement.ViewReceipts(s, columns);
    var sub := Settlement.TrueSubmission(s.db, 3, columns, stamp);
    run := first + [Settlement.Ingest(sub, columns)];
    j := s.next;
    assert run[..|run| - 1] == first;
  }

  lemma {:induction false} MovesLength(run: seq<Event>)
    ensures |Moves(run)| == |run|
  {
    if run != [] {
      MovesLength(run[..|run| - 1]);
    }
  }
}
