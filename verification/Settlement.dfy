/** Receipts against the authority pipeline: what a reconciled receipt of a consumed capability stands on. */
module Settlement {
  import opened Hashing
  import opened ControlPlane
  import opened Authority
  import opened Provenance
  import JsonValues
  import Escrows
  import Receipts

  /** The columns that reconciliation reads and the pipeline does not: set at intake, issuance and dispatch. */
  datatype Extra = Extra(externalId: JsonValues.Json, finance: Receipts.Fields, nonce: string, providerRef: Option<string>)

  function IntentRow(r: Intent, x: Extra): (v: Receipts.Intent) {
    Receipts.Intent(r.tenant, x.externalId, r.digest, x.finance, None, Receipts.NoReceipt, Receipts.OtherExecution)
  }

  function ProofRow(p: Proof, x: Extra): (v: Receipts.Proof) {
    Receipts.Proof(p.key.tenant, p.key.intent, x.nonce, p.key.audience, p.scope, p.key.digest)
  }

  function EscrowRow(e: Escrow, p: Proof, x: Extra): (v: Receipts.Escrow) {
    Receipts.Escrow(p.key.tenant, p.key.intent, x.providerRef, e.scope, e.digest)
  }

  /**
    In every run the digest and scope of a hold never stand in the way of reconciliation: once a
    receipt agrees with the proof, it agrees with the escrow exactly when the provider reference
    does, and the intent's digest is the receipt's.
  */
  lemma {:induction false} HoldsNeverDisagree(env: Environment, run: seq<Event>, i: Id, x: Extra, payload: Receipts.Fields)
    requires i in After(env, run).escrows && After(env, run).escrows[i].proof in After(env, run).proofs
    requires Receipts.AgreesWithProof(ProofRow(After(env, run).proofs[After(env, run).escrows[i].proof], x), payload)
    ensures var db := After(env, run);
            var e := db.escrows[i];
            var p := db.proofs[e.proof];
            && p.key.intent in db.intents
            && Receipts.Field(payload, "action_intent_digest") == JsonValues.Str(db.intents[p.key.intent].digest)
            && (Receipts.AgreesWithEscrow(EscrowRow(e, p, x), payload) <==>
                  Receipts.Field(payload, "provider_execution_ref") == Receipts.OptionalText(x.providerRef))
  {
    hide After, Step, Receipts.Field, Receipts.Listed, Receipts.OptionalText;
    HeldIsBound(env, run, i);
  }

  // ----- Pipeline and receipts together -----

  datatype Joint = Joint(db: Db, receipts: map<Id, Receipts.Receipt>, next: Id)

  /** A call of the pipeline, or a receipt submitted while the other columns of each row read as given. */
  datatype Move = Pipeline(event: Event) | Ingest(submission: Receipts.Submission, columns: Id -> Extra)

  datatype Digesting = Digesting(digestOf: Receipts.DigestFn, readable: Receipts.TimestampFn)

  const JOINT_START: Joint := Joint(EMPTY_DB, map[], 0)

  /** The pipeline's tables as `receipts.py` reads them. */
  function View(s: Joint, columns: Id -> Extra): (v: Receipts.Db) {
    var db := s.db;
    Receipts.Db(map i | i in db.intents :: IntentRow(db.intents[i], columns(i)),
                map i | i in db.proofs :: ProofRow(db.proofs[i], columns(i)),
                map i | i in db.escrows && db.escrows[i].proof in db.proofs :: EscrowRow(db.escrows[i], db.proofs[db.escrows[i].proof], columns(i)),
                s.receipts, [], [], s.next)
  }

  /** The submission is neither refused nor a replay. */
  ghost predicate IsNew(v: Receipts.Db, sub: Receipts.Submission, how: Digesting) {
    Receipts.Refusal(v, sub, how.digestOf, how.readable).None? && Receipts.Known(v, sub.tenant, how.digestOf(sub.payload)) == {}
  }

  lemma NewIsLinked(v: Receipts.Db, sub: Receipts.Submission, how: Digesting)
    requires IsNew(v, sub, how)
    ensures Receipts.Linked(v, sub)
    ensures v.intents[sub.intent].tenant == sub.tenant
    ensures sub.proof.Some? ==> v.proofs[sub.proof.value].intent == sub.intent
    ensures sub.escrow.Some? ==> v.escrows[sub.escrow.value].intent == sub.intent
  {
    hide Receipts.Known;
  }

  ghost function JointStep(s: Joint, env: Environment, how: Digesting, m: Move): (s': Joint) {
    match m
    case Pipeline(e) => s.(db := Step(s.db, env, e))
    case Ingest(sub, columns) =>
      var v := View(s, columns);
      if !IsNew(v, sub, how) then s
      else
        NewIsLinked(v, sub, how);
        var after := Receipts.Stored(v, sub, how.digestOf);
        s.(receipts := after.receipts, next := after.next)
  }

  ghost function JointAfter(env: Environment, how: Digesting, run: seq<Move>): (s: Joint) {
    if run == [] then JOINT_START else JointStep(JointAfter(env, how, run[..|run| - 1]), env, how, run[|run| - 1])
  }

  /** The calls of the pipeline among the moves. */
  function Events(run: seq<Move>): (es: seq<Event>) {
    if run == [] then []
    else Events(run[..|run| - 1]) + (if run[|run| - 1].Pipeline? then [run[|run| - 1].event] else [])
  }

  /** What a reconciled receipt still says about the tables, now. */
  ghost predicate Stands(db: Db, r: Receipts.Receipt) {
    && r.intent in db.intents && db.intents[r.intent].tenant == r.tenant
    && Receipts.Field(r.payload, "action_intent_digest") == JsonValues.Str(db.intents[r.intent].digest)
    && (r.proof.Some? ==>
          && r.proof.value in db.proofs && db.proofs[r.proof.value].key.intent == r.intent
          && Receipts.Field(r.payload, "audience") == JsonValues.Str(db.proofs[r.proof.value].key.audience)
          && Receipts.Field(r.payload, "scope") == Receipts.Listed(db.proofs[r.proof.value].scope))
    && (r.escrow.Some? ==>
          && r.escrow.value in db.escrows && db.escrows[r.escrow.value].proof in db.proofs
          && db.proofs[db.escrows[r.escrow.value].proof].key.intent == r.intent
          && Receipts.Field(r.payload, "scope") == Receipts.Listed(db.escrows[r.escrow.value].scope))
  }

  ghost predicate ReceiptsStand(s: Joint) {
    && (forall j :: j in s.receipts ==> j < s.next)
    && (forall j :: j in s.receipts && s.receipts[j].state == Receipts.Reconciled ==> Stands(s.db, s.receipts[j]))
  }

  lemma StandsLater(a: Db, b: Db, r: Receipts.Receipt)
    requires Kept(a, b) && Stands(a, r)
    ensures Stands(b, r)
  {
    hide RequestsKept, Receipts.Field, Receipts.Listed;
    if r.proof.Some? {
      assert ProofKept(a.proofs[r.proof.value], b.proofs[r.proof.value]);
    }
    if r.escrow.Some? {
      assert EscrowKept(a.escrows[r.escrow.value], b.escrows[r.escrow.value]);
      assert ProofKept(a.proofs[a.escrows[r.escrow.value].proof], b.proofs[a.escrows[r.escrow.value].proof]);
    }
  }

  /** A receipt that is stored as reconciled agrees with the rows it is linked to. */
  lemma StoredStands(s: Joint, how: Digesting, sub: Receipts.Submission, columns: Id -> Extra)
    requires IsNew(View(s, columns), sub, how) && Receipts.Linked(View(s, columns), sub)
    requires Receipts.Agrees(View(s, columns), sub)
    ensures forall r: Receipts.Receipt ::
              r.tenant == sub.tenant && r.intent == sub.intent && r.proof == sub.proof && r.escrow == sub.escrow && r.payload == sub.payload ==> Stands(s.db, r)
  {
    NewIsLinked(View(s, columns), sub, how);
    hide IsNew, Receipts.Field, Receipts.Listed, Receipts.OptionalText, JsonValues.PyEq;
  }

  lemma StoredUnfold(v: Receipts.Db, sub: Receipts.Submission, how: Digesting)
    requires Receipts.Linked(v, sub)
    ensures var after := Receipts.Stored(v, sub, how.digestOf);
            && after.next == v.next + 1 && after.receipts.Keys == v.receipts.Keys + {v.next}
            && (forall j :: j in v.receipts && j != v.next ==> after.receipts[j] == v.receipts[j])
            && var r := after.receipts[v.next];
               && r.tenant == sub.tenant && r.intent == sub.intent && r.proof == sub.proof && r.escrow == sub.escrow && r.payload == sub.payload
               && (r.state == Receipts.Reconciled <==> Receipts.Agrees(v, sub))
  {
    hide Receipts.Agrees, Receipts.Records, Receipts.EventsFor, Receipts.ExecutionAfter;
  }

  lemma JointStepStands(s: Joint, env: Environment, how: Digesting, m: Move)
    requires ReceiptsStand(s) && Inv(s.db, env.settings)
    ensures ReceiptsStand(JointStep(s, env, how, m))
  {
    hide Stands, View, IsNew, Receipts.Stored, Receipts.Linked, Receipts.Agrees, Step, Inv, Kept;
    match m
    case Pipeline(e) =>
      StepKeeps(s.db, env, e);
      forall j | j in s.receipts && s.receipts[j].state == Receipts.Reconciled ensures Stands(Step(s.db, env, e), s.receipts[j]) {
        StandsLater(s.db, Step(s.db, env, e), s.receipts[j]);
      }
    case Ingest(sub, columns) =>
      var v := View(s, columns);
      if IsNew(v, sub, how) {
        ViewReceipts(s, columns);
        NewIsLinked(v, sub, how);
        StoredUnfold(v, sub, how);
        if Receipts.Agrees(v, sub) {
          StoredStands(s, how, sub, columns);
        }
      }
  }

  lemma ViewReceipts(s: Joint, columns: Id -> Extra)
    ensures View(s, columns).receipts == s.receipts && View(s, columns).next == s.next
  {
  }

  lemma JointStepDb(s: Joint, env: Environment, how: Digesting, m: Move)
    ensures JointStep(s, env, how, m).db == if m.Pipeline? then Step(s.db, env, m.event) else s.db
  {
    hide Step, View, IsNew, Receipts.Stored;
  }

  lemma EventsUnfold(run: seq<Move>)
    requires run != []
    ensures var m, es := run[|run| - 1], Events(run[..|run| - 1]);
            Events(run) == if m.Pipeline? then es + [m.event] else es
  {
  }

  lemma {:induction false} JointInv(env: Environment, how: Digesting, run: seq<Move>)
    ensures JointAfter(env, how, run).db == After(env, Events(run))
    ensures ReceiptsStand(JointAfter(env, how, run))
  {
    hide After, Step, JointStep, Stands, Events;
    AfterUnfold(env, Events(run));
    if run == [] {
      assert Events(run) == [] by { EventsNone(); }
    } else {
      var before := run[..|run| - 1];
      JointInv(env, how, before);
      AfterUnfold(env, Events(before));
      JointStepStands(JointAfter(env, how, before), env, how, run[|run| - 1]);
      JointStepDb(JointAfter(env, how, before), env, how, run[|run| - 1]);
      EventsUnfold(run);
      hide ReceiptsStand;
      if run[|run| - 1].Pipeline? {
        assert Events(run)[..|Events(run)| - 1] == Events(before);
      }
    }
  }

  lemma EventsNone()
    ensures Events([]) == []
  {
  }

  /**
    From receipt back to people, in every joint run: a receipt that was ever stored as reconciled and is
    linked to a capability that is consumed names, by its payload's digest and scope, the action of an
    intent that is entitled now, to which proof and capability belong, and whose every approval
    request, where approval is required, holds its full quorum.
  */
  lemma {:induction false} SettledIsAuthorised(env: Environment, how: Digesting, run: seq<Move>, j: Id)
    requires var s := JointAfter(env, how, run);
             && j in s.receipts && s.receipts[j].state == Receipts.Reconciled && s.receipts[j].escrow.Some?
             && s.receipts[j].escrow.value in s.db.escrows && WasConsumed(s.db.escrows[s.receipts[j].escrow.value])
    ensures var s := JointAfter(env, how, run);
            var r := s.receipts[j];
            var e := s.db.escrows[r.escrow.value];
            && e.proof in s.db.proofs && s.db.proofs[e.proof].key.intent == r.intent
            && Receipts.Field(r.payload, "scope") == Receipts.Listed(s.db.proofs[e.proof].scope)
            && Entitled(s.db, r.intent) && s.db.intents[r.intent].tenant == r.tenant
            && Receipts.Field(r.payload, "action_intent_digest") == JsonValues.Str(s.db.intents[r.intent].digest)
            && (s.db.intents[r.intent].approval.Some? ==>
                  forall q :: q in s.db.requests && s.db.requests[q].intent == r.intent ==> FullQuorum(s.db, q))
  {
    hide After, JointAfter, WasConsumed, Entitled, FullQuorum, Receipts.Field, Receipts.Listed, Escrows.Bound;
    JointInv(env, how, run);
    var s := JointAfter(env, how, run);
    var i := s.receipts[j].escrow.value;
    ConsumedStillEntitled(env, Events(run), i);
    BoundDigest(s.db.escrows[i], s.db.proofs[s.db.escrows[i].proof], env.settings);
    EntitledMeans(s.db, s.receipts[j].intent);
  }

  /**
    Without any consumption: a receipt once reconciled still agrees on digest, scope and audience
    with the present rows of its intent, proof and escrow.
  */
  lemma {:induction false} ReconciledStands(env: Environment, how: Digesting, run: seq<Move>, j: Id)
    requires j in JointAfter(env, how, run).receipts && JointAfter(env, how, run).receipts[j].state == Receipts.Reconciled
    ensures Stands(JointAfter(env, how, run).db, JointAfter(env, how, run).receipts[j])
  {
    JointInv(env, how, run);
    hide JointAfter, Stands;
  }

  // ----- Settling is possible -----

  /** The payload that says of hold i what the tables say. */
  function TruePayload(db: Db, i: Id, columns: Id -> Extra, stamp: JsonValues.Json): (f: Receipts.Fields)
    requires i in db.escrows && db.escrows[i].proof in db.proofs && db.proofs[db.escrows[i].proof].key.intent in db.intents
  {
    var e := db.escrows[i];
    var p := db.proofs[e.proof];
    var x := columns(p.key.intent);
    map["intent_id" := x.externalId,
        "action_intent_digest" := JsonValues.Str(db.intents[p.key.intent].digest),
        "action_type" := Receipts.Field(x.finance, "action_type"),
        "amount_minor" := Receipts.Field(x.finance, "amount_minor"),
        "currency" := Receipts.Field(x.finance, "currency"),
        "proof_nonce" := JsonValues.Str(columns(e.proof).nonce),
        "audience" := JsonValues.Str(p.key.audience),
        "scope" := Receipts.Listed(p.scope),
        "provider_execution_ref" := Receipts.OptionalText(columns(i).providerRef),
        "occurred_at" := stamp, "receipt_id" := JsonValues.Str("r"), "receipt_type" := JsonValues.Str("t"),
        "outcome" := JsonValues.Str("succeeded")]
  }

  function TrueSubmission(db: Db, i: Id, columns: Id -> Extra, stamp: JsonValues.Json): (sub: Receipts.Submission)
    requires i in db.escrows && db.escrows[i].proof in db.proofs && db.proofs[db.escrows[i].proof].key.intent in db.intents
  {
    var p := db.proofs[db.escrows[i].proof];
    Receipts.Submission(p.key.tenant, p.key.intent, Some(db.escrows[i].proof), Some(i), TruePayload(db, i, columns, stamp))
  }

  lemma TrueFields(db: Db, i: Id, columns: Id -> Extra, stamp: JsonValues.Json)
    requires i in db.escrows && db.escrows[i].proof in db.proofs && db.proofs[db.escrows[i].proof].key.intent in db.intents
    ensures var e, f := db.escrows[i], TruePayload(db, i, columns, stamp);
            var p := db.proofs[e.proof];
            var x := columns(p.key.intent);
            && Receipts.Field(f, "intent_id") == x.externalId
            && Receipts.Field(f, "action_intent_digest") == JsonValues.Str(db.intents[p.key.intent].digest)
            && Receipts.Field(f, "action_type") == Receipts.Field(x.finance, "action_type")
            && Receipts.Field(f, "amount_minor") == Receipts.Field(x.finance, "amount_minor")
            && Receipts.Field(f, "currency") == Receipts.Field(x.finance, "currency")
            && Receipts.Field(f, "proof_nonce") == JsonValues.Str(columns(e.proof).nonce)
            && Receipts.Field(f, "audience") == JsonValues.Str(p.key.audience)
            && Receipts.Field(f, "scope") == Receipts.Listed(p.scope)
            && Receipts.Field(f, "provider_execution_ref") == Receipts.OptionalText(columns(i).providerRef)
  {
    hide Receipts.Listed, Receipts.OptionalText;
  }

  lemma TrueAgrees(s: Joint, i: Id, columns: Id -> Extra, stamp: JsonValues.Json)
    requires i in s.db.escrows && s.db.escrows[i].proof in s.db.proofs && s.db.proofs[s.db.escrows[i].proof].key.intent in s.db.intents
    requires var p := s.db.proofs[s.db.escrows[i].proof];
             && s.db.escrows[i].digest == p.key.digest == s.db.intents[p.key.intent].digest && s.db.escrows[i].scope == p.scope
    ensures Receipts.Linked(View(s, columns), TrueSubmission(s.db, i, columns, stamp))
    ensures Receipts.Agrees(View(s, columns), TrueSubmission(s.db, i, columns, stamp))
  {
    var x := columns(s.db.proofs[s.db.escrows[i].proof].key.intent);
    JsonValues.PyEqReflexive(x.externalId);
    JsonValues.PyEqReflexive(Receipts.Field(x.finance, "action_type"));
    JsonValues.PyEqReflexive(Receipts.Field(x.finance, "amount_minor"));
    JsonValues.PyEqReflexive(Receipts.Field(x.finance, "currency"));
    TrueFields(s.db, i, columns, stamp);
    hide JsonValues.PyEq, Receipts.Listed, Receipts.OptionalText, Receipts.Field, TruePayload;
  }

  /**
    In every joint run each hold can be settled: the receipt that says of it what the tables say is
    stored as reconciled, unless the tenant already has a receipt of that digest.
  */
  lemma {:induction false} EveryHoldCanSettle(env: Environment, how: Digesting, run: seq<Move>, i: Id, columns: Id -> Extra,
          stamp: JsonValues.Json)
    requires i in JointAfter(env, how, run).db.escrows && how.readable(stamp)
    ensures var s := JointAfter(env, how, run);
            && s.db.escrows[i].proof in s.db.proofs && s.db.proofs[s.db.escrows[i].proof].key.intent in s.db.intents
            && var sub := TrueSubmission(s.db, i, columns, stamp);
               Receipts.Known(View(s, columns), sub.tenant, how.digestOf(sub.payload)) == {} ==>
                 var d := JointStep(s, env, how, Ingest(sub, columns));
                 && d.db == s.db && s.next in d.receipts && d.receipts[s.next].state == Receipts.Reconciled
                 && d.receipts[s.next].escrow == Some(i)
  {
    hide After, JointAfter, Escrows.Bound, Receipts.Agrees, Receipts.Known, Receipts.Stored;
    var s := JointAfter(env, how, run);
    JointInv(env, how, run);
    HeldIsBound(env, Events(run), i);
    BoundDigest(s.db.escrows[i], s.db.proofs[s.db.escrows[i].proof], env.settings);
    var sub, v := TrueSubmission(s.db, i, columns, stamp), View(s, columns);
    TrueAgrees(s, i, columns, stamp);
    TrueAdmitted(s, how, i, columns, stamp);
    ViewReceipts(s, columns);
    StoredUnfold(v, sub, how);
    hide View, TrueSubmission, Receipts.Linked, IsNew;
  }

  lemma TrueAdmitted(s: Joint, how: Digesting, i: Id, columns: Id -> Extra, stamp: JsonValues.Json)
    requires i in s.db.escrows && s.db.escrows[i].proof in s.db.proofs && s.db.proofs[s.db.escrows[i].proof].key.intent in s.db.intents
    requires var p := s.db.proofs[s.db.escrows[i].proof]; s.db.intents[p.key.intent].tenant == p.key.tenant
    requires how.readable(stamp)
    ensures var sub := TrueSubmission(s.db, i, columns, stamp);
            IsNew(View(s, columns), sub, how) <==> Receipts.Known(View(s, columns), sub.tenant, how.digestOf(sub.payload)) == {}
  {
    hide Receipts.Known, Receipts.Listed, Receipts.OptionalText, Receipts.Field;
  }
}
