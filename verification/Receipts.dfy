/** `receipts.py`: ingestion of receipts and their reconciliation with intent, proof and escrow. */
module Receipts {
  import opened Hashing
  import opened JsonValues

  type Id = nat

  type Fields = map<string, Json>

  datatype ReceiptState = NoReceipt | Received | Indexed | Reconciled

  datatype Execution = OtherExecution | DispatchConfirmed | ResultObserved | FailureObserved

  datatype Intent = Intent(tenant: string, externalId: Json, digest: string, finance: Fields,
                           latestReceipt: Option<Id>, receiptState: ReceiptState, execution: Execution)

  datatype Proof = Proof(tenant: string, intent: Id, nonce: string, audience: string, scope: seq<string>, digest: string)

  datatype Escrow = Escrow(tenant: string, intent: Id, providerRef: Option<string>, scope: seq<string>, digest: string)

  datatype Receipt = Receipt(tenant: string, intent: Id, proof: Option<Id>, escrow: Option<Id>,
                             payload: Fields, digest: Digest, state: ReceiptState)

  datatype CheckStatus = Matched | Mismatch | Missing | NotProvided | Skipped

  datatype Check = Check(field: string, expected: Json, actual: Json, status: CheckStatus)

  datatype ReconciliationKind = IntentToReceipt | ProofToReceipt | EscrowToReceipt

  datatype ReconciliationStatus = AllMatched | SomeMismatch | ManualReview

  datatype Reconciliation = Reconciliation(receipt: Id, kind: ReconciliationKind, status: ReconciliationStatus, checks: seq<Check>)

  datatype AuditEvent = Ingested(receipt: Id) | Compared(receipt: Id, kind: ReconciliationKind, status: ReconciliationStatus)

  datatype Db = Db(intents: map<Id, Intent>, proofs: map<Id, Proof>, escrows: map<Id, Escrow>, receipts: map<Id, Receipt>,
                   reconciliations: seq<Reconciliation>, audit: seq<AuditEvent>, next: Id)

  datatype IngestError = IntentNotFound | ProofNotFound | ProofForeign | EscrowNotFound | EscrowForeign | Malformed

  datatype Submission = Submission(tenant: string, intent: Id, proof: Option<Id>, escrow: Option<Id>, payload: Fields)

  datatype Ingestion = Replayed(id: Id) | Accepted(id: Id)

  /** SHA-256 over the canonical text of a payload. */
  type DigestFn = Fields -> Digest

  /** Whether a value can be read as a timestamp. */
  type TimestampFn = Json -> bool

  // ----- Comparing fields -----

  function Field(f: Fields, k: string): (j: Json) {
    if k in f then f[k] else Null
  }

  function Listed(scope: seq<string>): (j: Json) {
    Arr(seq(|scope|, i requires 0 <= i < |scope| => Str(scope[i])))
  }

  function OptionalText(t: Option<string>): (j: Json) {
    if t.Some? then Str(t.value) else Null
  }

  /** `_check`. */
  function MakeCheck(field: string, expected: Json, actual: Json, required: bool): (c: Check)
    ensures c.expected == expected && c.actual == actual
    ensures c.status in {Matched, Skipped} <==> PyEq(expected, actual)
    ensures c.status == Skipped ==> expected.Null?
  {
    var status :=
      if expected.Null? && actual.Null? then Skipped
      else if actual.Null? then (if required then Missing else NotProvided)
      else if PyEq(expected, actual) then Matched
      else Mismatch;
    Check(field, expected, actual, status)
  }

  /** `_reconciliation_status`. */
  function StatusOf(checks: seq<Check>): (s: ReconciliationStatus) {
    var statuses := set c | c in checks :: c.status;
    if Mismatch in statuses || Missing in statuses then SomeMismatch
    else if statuses <= {Matched, Skipped} && Matched in statuses then AllMatched
    else ManualReview
  }

  /** The comparison came out as equality says, and something was there to compare. */
  predicate HonestCheck(c: Check) {
    (c.status in {Matched, Skipped} <==> PyEq(c.expected, c.actual)) && (c.status == Skipped ==> c.expected.Null?)
  }

  ghost predicate Honest(checks: seq<Check>) {
    && (forall c :: c in checks ==> HonestCheck(c))
    && (exists c :: c in checks && !c.expected.Null?)
  }

  lemma MatchedIsEqual(checks: seq<Check>)
    requires Honest(checks)
    ensures StatusOf(checks) == AllMatched <==> AllEqual(checks)
  {
    hide PyEq;
    var statuses := set c | c in checks :: c.status;
    assert forall c :: c in checks ==> c.status in statuses;
    if forall c :: c in checks ==> PyEq(c.expected, c.actual) {
      var c :| c in checks && !c.expected.Null?;
      assert c.status == Matched;
    }
  }

  function IntentChecks(x: Intent, payload: Fields): (cs: seq<Check>) {
    [MakeCheck("intent_id", x.externalId, Field(payload, "intent_id"), true),
     MakeCheck("action_intent_digest", Str(x.digest), Field(payload, "action_intent_digest"), true),
     MakeCheck("action_type", Field(x.finance, "action_type"), Field(payload, "action_type"), true),
     MakeCheck("amount_minor", Field(x.finance, "amount_minor"), Field(payload, "amount_minor"), true),
     MakeCheck("currency", Field(x.finance, "currency"), Field(payload, "currency"), true)]
  }

  function ProofChecks(p: Proof, payload: Fields): (cs: seq<Check>) {
    [MakeCheck("proof_nonce", Str(p.nonce), Field(payload, "proof_nonce"), false),
     MakeCheck("audience", Str(p.audience), Field(payload, "audience"), false),
     MakeCheck("scope", Listed(p.scope), Field(payload, "scope"), false),
     MakeCheck("action_intent_digest", Str(p.digest), Field(payload, "action_intent_digest"), true)]
  }

  function EscrowChecks(e: Escrow, payload: Fields): (cs: seq<Check>) {
    [MakeCheck("provider_execution_ref", OptionalText(e.providerRef), Field(payload, "provider_execution_ref"), false),
     MakeCheck("action_intent_digest", Str(e.digest), Field(payload, "action_intent_digest"), true),
     MakeCheck("scope", Listed(e.scope), Field(payload, "scope"), false)]
  }

  // ----- Agreement, without checks or statuses -----

  predicate AgreesWithIntent(x: Intent, payload: Fields) {
    && PyEq(x.externalId, Field(payload, "intent_id"))
    && Field(payload, "action_intent_digest") == Str(x.digest)
    && PyEq(Field(x.finance, "action_type"), Field(payload, "action_type"))
    && PyEq(Field(x.finance, "amount_minor"), Field(payload, "amount_minor"))
    && PyEq(Field(x.finance, "currency"), Field(payload, "currency"))
  }

  predicate AgreesWithProof(p: Proof, payload: Fields) {
    && Field(payload, "proof_nonce") == Str(p.nonce)
    && Field(payload, "audience") == Str(p.audience)
    && Field(payload, "scope") == Listed(p.scope)
    && Field(payload, "action_intent_digest") == Str(p.digest)
  }

  predicate AgreesWithEscrow(e: Escrow, payload: Fields) {
    && Field(payload, "provider_execution_ref") == OptionalText(e.providerRef)
    && Field(payload, "action_intent_digest") == Str(e.digest)
    && Field(payload, "scope") == Listed(e.scope)
  }

  lemma TextEquality(s: string, j: Json)
    ensures PyEq(Str(s), j) <==> j == Str(s)
    ensures PyEq(Null, j) <==> j == Null
  {
  }

  lemma {:induction false} ListEquality(scope: seq<string>, j: Json)
    ensures PyEq(Listed(scope), j) <==> j == Listed(scope)
  {
    if PyEq(Listed(scope), j) {
      forall i | 0 <= i < |scope| ensures j.items[i] == Listed(scope).items[i] {
        TextEquality(scope[i], j.items[i]);
      }
      assert j.items == Listed(scope).items;
    }
    if j == Listed(scope) {
      PyEqReflexive(j);
    }
  }

  ghost predicate AllEqual(checks: seq<Check>) {
    forall c :: c in checks ==> PyEq(c.expected, c.actual)
  }

  lemma IntentHonest(x: Intent, payload: Fields)
    ensures Honest(IntentChecks(x, payload))
  {
    hide PyEq, MakeCheck;
    var cs := IntentChecks(x, payload);
    assert cs[1] in cs;
    forall c | c in cs ensures HonestCheck(c) {
      var i :| 0 <= i < |cs| && cs[i] == c;
    }
  }

  lemma IntentEqual(x: Intent, payload: Fields)
    ensures AllEqual(IntentChecks(x, payload)) <==> AgreesWithIntent(x, payload)
  {
    hide PyEq, MakeCheck;
    var cs := IntentChecks(x, payload);
    TextEquality(x.digest, Field(payload, "action_intent_digest"));
    assert cs[0] in cs && cs[1] in cs && cs[2] in cs && cs[3] in cs && cs[4] in cs;
  }

  lemma ProofHonest(p: Proof, payload: Fields)
    ensures Honest(ProofChecks(p, payload))
  {
    hide PyEq, MakeCheck, Listed;
    var cs := ProofChecks(p, payload);
    assert cs[0] in cs;
  }

  lemma ProofEqual(p: Proof, payload: Fields)
    ensures AllEqual(ProofChecks(p, payload)) <==> AgreesWithProof(p, payload)
  {
    hide PyEq, MakeCheck, Listed;
    var cs := ProofChecks(p, payload);
    TextEquality(p.nonce, Field(payload, "proof_nonce"));
    TextEquality(p.audience, Field(payload, "audience"));
    TextEquality(p.digest, Field(payload, "action_intent_digest"));
    ListEquality(p.scope, Field(payload, "scope"));
    assert cs[0] in cs && cs[1] in cs && cs[2] in cs && cs[3] in cs;
  }

  lemma EscrowHonest(e: Escrow, payload: Fields)
    ensures Honest(EscrowChecks(e, payload))
  {
    hide PyEq, MakeCheck, Listed, OptionalText;
    var cs := EscrowChecks(e, payload);
    assert cs[1] in cs;
  }

  lemma EscrowEqual(e: Escrow, payload: Fields)
    ensures AllEqual(EscrowChecks(e, payload)) <==> AgreesWithEscrow(e, payload)
  {
    hide PyEq, MakeCheck, Listed;
    var cs := EscrowChecks(e, payload);
    TextEquality(if e.providerRef.Some? then e.providerRef.value else "", Field(payload, "provider_execution_ref"));
    TextEquality(e.digest, Field(payload, "action_intent_digest"));
    ListEquality(e.scope, Field(payload, "scope"));
    assert cs[0] in cs && cs[1] in cs && cs[2] in cs;
  }

  /** Each kind of comparison is matched exactly when receipt and record agree on every compared field. */
  lemma MatchedIsAgreement(x: Intent, p: Proof, e: Escrow, payload: Fields)
    ensures StatusOf(IntentChecks(x, payload)) == AllMatched <==> AgreesWithIntent(x, payload)
    ensures StatusOf(ProofChecks(p, payload)) == AllMatched <==> AgreesWithProof(p, payload)
    ensures StatusOf(EscrowChecks(e, payload)) == AllMatched <==> AgreesWithEscrow(e, payload)
  {
    hide *;
    IntentHonest(x, payload);
    IntentEqual(x, payload);
    MatchedIsEqual(IntentChecks(x, payload));
    ProofHonest(p, payload);
    ProofEqual(p, payload);
    MatchedIsEqual(ProofChecks(p, payload));
    EscrowHonest(e, payload);
    EscrowEqual(e, payload);
    MatchedIsEqual(EscrowChecks(e, payload));
  }

  // ----- Ingestion -----

  ghost function Known(db: Db, tenant: string, digest: Digest): (ids: set<Id>) {
    set i | i in db.receipts && db.receipts[i].tenant == tenant && db.receipts[i].digest == digest
  }

  /** The refusals, in order; a receipt already known is answered before the links are looked at. */
  ghost function Refusal(db: Db, s: Submission, digestOf: DigestFn, readable: TimestampFn): (e: Option<IngestError>) {
    if s.intent !in db.intents || db.intents[s.intent].tenant != s.tenant then Some(IntentNotFound)
    else if Known(db, s.tenant, digestOf(s.payload)) != {} then None
    else if s.proof.Some? && s.proof.value !in db.proofs then Some(ProofNotFound)
    else if s.proof.Some? && (db.proofs[s.proof.value].tenant != s.tenant || db.proofs[s.proof.value].intent != s.intent) then Some(ProofForeign)
    else if s.escrow.Some? && s.escrow.value !in db.escrows then Some(EscrowNotFound)
    else if s.escrow.Some? && (db.escrows[s.escrow.value].tenant != s.tenant || db.escrows[s.escrow.value].intent != s.intent) then Some(EscrowForeign)
    else if "occurred_at" !in s.payload || !readable(s.payload["occurred_at"]) then Some(Malformed)
    else if "receipt_id" !in s.payload || "receipt_type" !in s.payload || "outcome" !in s.payload then Some(Malformed)
    else None
  }

  ghost predicate Linked(db: Db, s: Submission) {
    && s.intent in db.intents && (s.proof.Some? ==> s.proof.value in db.proofs) && (s.escrow.Some? ==> s.escrow.value in db.escrows)
  }

  function RecordFor(receipt: Id, kind: ReconciliationKind, checks: seq<Check>): (r: Reconciliation) {
    Reconciliation(receipt, kind, StatusOf(checks), checks)
  }

  /** `_run_reconciliation_hooks`. */
  ghost function Records(db: Db, s: Submission): (rs: seq<Reconciliation>)
    requires Linked(db, s)
  {
    [RecordFor(db.next, IntentToReceipt, IntentChecks(db.intents[s.intent], s.payload))]
    + (if s.proof.Some? then [RecordFor(db.next, ProofToReceipt, ProofChecks(db.proofs[s.proof.value], s.payload))] else [])
    + (if s.escrow.Some? then [RecordFor(db.next, EscrowToReceipt, EscrowChecks(db.escrows[s.escrow.value], s.payload))] else [])
  }

  /** Agreement of a submission with everything it is linked to. */
  ghost predicate Agrees(db: Db, s: Submission)
    requires Linked(db, s)
  {
    && AgreesWithIntent(db.intents[s.intent], s.payload)
    && (s.proof.Some? ==> AgreesWithProof(db.proofs[s.proof.value], s.payload))
    && (s.escrow.Some? ==> AgreesWithEscrow(db.escrows[s.escrow.value], s.payload))
  }

  ghost predicate EveryMatched(rs: seq<Reconciliation>) {
    forall r :: r in rs ==> r.status == AllMatched
  }

  lemma EveryConcat(a: seq<Reconciliation>, b: seq<Reconciliation>)
    ensures EveryMatched(a + b) <==> EveryMatched(a) && EveryMatched(b)
  {
    assert forall r :: r in a + b <==> r in a || r in b;
  }

  lemma EveryOne(r: Reconciliation)
    ensures EveryMatched([r]) <==> r.status == AllMatched
    ensures EveryMatched([])
  {
    assert r in [r];
  }

  lemma RecordsMatchExactly(db: Db, s: Submission)
    requires Linked(db, s)
    ensures EveryMatched(Records(db, s)) <==> Agrees(db, s)
    ensures 1 <= |Records(db, s)| <= 3
  {
    hide IntentChecks, ProofChecks, EscrowChecks, StatusOf, AgreesWithIntent, AgreesWithProof, AgreesWithEscrow, EveryMatched;
    var noProof, noEscrow := Proof("", 0, "", "", [], ""), Escrow("", 0, None, [], "");
    var x, p, e := db.intents[s.intent], if s.proof.Some? then db.proofs[s.proof.value] else noProof, if s.escrow.Some? then db.escrows[s.escrow.value] else noEscrow;
    MatchedIsAgreement(x, p, e, s.payload);
    var first := RecordFor(db.next, IntentToReceipt, IntentChecks(x, s.payload));
    var second := RecordFor(db.next, ProofToReceipt, ProofChecks(p, s.payload));
    var third := RecordFor(db.next, EscrowToReceipt, EscrowChecks(e, s.payload));
    EveryOne(first);
    EveryOne(second);
    EveryOne(third);
    var b, c := if s.proof.Some? then [second] else [], if s.escrow.Some? then [third] else [];
    EveryConcat([first] + b, c);
    EveryConcat([first], b);
    assert Records(db, s) == [first] + b + c;
  }

  /** What agreement implies: one action digest all the way from intent to receipt. */
  lemma AgreementIsOneDigest(db: Db, s: Submission)
    requires Linked(db, s) && Agrees(db, s)
    ensures Field(s.payload, "action_intent_digest") == Str(db.intents[s.intent].digest)
    ensures s.proof.Some? ==> db.proofs[s.proof.value].digest == db.intents[s.intent].digest
    ensures s.escrow.Some? ==> db.escrows[s.escrow.value].digest == db.intents[s.intent].digest
    ensures s.proof.Some? && s.escrow.Some? ==> db.proofs[s.proof.value].scope == db.escrows[s.escrow.value].scope
  {
    if s.proof.Some? && s.escrow.Some? {
      SameList(db.proofs[s.proof.value].scope, db.escrows[s.escrow.value].scope);
    }
  }

  lemma SameList(a: seq<string>, b: seq<string>)
    requires Listed(a) == Listed(b)
    ensures a == b
  {
    assert |Listed(a).items| == |a| && |Listed(b).items| == |b|;
    forall i | 0 <= i < |a| ensures a[i] == b[i] {
      assert Listed(a).items[i] == Str(a[i]) && Listed(b).items[i] == Str(b[i]);
    }
  }

  function ExecutionAfter(payload: Fields): (x: Execution) {
    if Field(payload, "outcome") == Str("succeeded") then ResultObserved
    else if Field(payload, "outcome") == Str("failed") then FailureObserved
    else DispatchConfirmed
  }

  function EventsFor(receipt: Id, rs: seq<Reconciliation>): (es: seq<AuditEvent>)
    ensures |es| == |rs| + 1
  {
    [Ingested(receipt)] + seq(|rs|, i requires 0 <= i < |rs| => Compared(receipt, rs[i].kind, rs[i].status))
  }

  /** The tables after a submission that is neither refused nor already known. */
  ghost function Stored(db: Db, s: Submission, digestOf: DigestFn): (db': Db)
    requires Linked(db, s)
  {
    var state := if Agrees(db, s) then Reconciled else Indexed;
    db.(receipts := db.receipts[db.next := Receipt(s.tenant, s.intent, s.proof, s.escrow, s.payload, digestOf(s.payload), state)],
        intents := db.intents[s.intent := db.intents[s.intent].(latestReceipt := Some(db.next), receiptState := state, execution := ExecutionAfter(s.payload))],
        reconciliations := db.reconciliations + Records(db, s),
        audit := db.audit + EventsFor(db.next, Records(db, s)),
        next := db.next + 1)
  }

  lemma NoneKnown(db: Db, tenant: string, digest: Digest)
    requires Known(db, tenant, digest) == {}
    ensures forall i :: i in db.receipts ==> !(db.receipts[i].tenant == tenant && db.receipts[i].digest == digest)
  {
    assert forall i :: i in db.receipts ==> i !in Known(db, tenant, digest);
  }

  lemma EventsUnfold(receipt: Id, rs: seq<Reconciliation>)
    ensures EventsFor(receipt, rs) == [Ingested(receipt)] + EventsFor(receipt, rs)[1..]
  {
  }

  predicate SameContent(a: Receipt, b: Receipt) {
    a.tenant == b.tenant && a.digest == b.digest
  }

  class ReceiptService {
    var db: Db
    const digestOf: DigestFn
    const readable: TimestampFn

    /** One receipt per tenant and digest. */
    ghost predicate Valid()
      reads this
    {
      && (forall i :: i in db.receipts ==> i < db.next)
      && (forall i, j :: i in db.receipts && j in db.receipts && SameContent(db.receipts[i], db.receipts[j]) ==> i == j)
    }

    constructor (db: Db, digestOf: DigestFn, readable: TimestampFn)
      requires db.receipts == map[]
      ensures Valid() && this.db == db && this.digestOf == digestOf && this.readable == readable
    {
      this.db, this.digestOf, this.readable := db, digestOf, readable;
    }

    method FindKnown(tenant: string, digest: Digest) returns (r: Option<Id>)
      ensures r.Some? ==> r.value in Known(db, tenant, digest)
      ensures r.None? ==> Known(db, tenant, digest) == {}
    {
      var rows := db.receipts;
      var todo := rows.Keys;
      while todo != {}
        invariant todo <= rows.Keys
        invariant forall i :: i in rows.Keys - todo ==> rows[i].tenant != tenant || rows[i].digest != digest
        decreases |todo|
      {
        var i :| i in todo;
        if rows[i].tenant == tenant && rows[i].digest == digest {
          return Some(i);
        }
        todo := todo - {i};
      }
      r := None;
    }

    /** `_run_reconciliation_hooks` with the audit event of each record. */
    method Reconcile(s: Submission) returns (rs: seq<Reconciliation>, events: seq<AuditEvent>)
      requires Linked(db, s)
      ensures rs == Records(db, s) && events == EventsFor(db.next, rs)[1..]
    {
      hide IntentChecks, ProofChecks, EscrowChecks, StatusOf;
      var first := RecordFor(db.next, IntentToReceipt, IntentChecks(db.intents[s.intent], s.payload));
      rs, events := [first], [Compared(db.next, first.kind, first.status)];
      if s.proof.Some? {
        var second := RecordFor(db.next, ProofToReceipt, ProofChecks(db.proofs[s.proof.value], s.payload));
        rs, events := rs + [second], events + [Compared(db.next, second.kind, second.status)];
      }
      if s.escrow.Some? {
        var third := RecordFor(db.next, EscrowToReceipt, EscrowChecks(db.escrows[s.escrow.value], s.payload));
        rs, events := rs + [third], events + [Compared(db.next, third.kind, third.status)];
      }
    }

    /** `ingest_receipt`. */
    method IngestReceipt(s: Submission) returns (r: Result<Ingestion, IngestError>)
      requires Valid()
      modifies this`db
      ensures Valid()
      ensures var refused := Refusal(old(db), s, digestOf, readable);
              var known := Known(old(db), s.tenant, digestOf(s.payload));
              && (refused.Some? ==> r == Err(refused.value) && db == old(db))
              && (refused.None? && known != {} ==> db == old(db) && exists i :: known == {i} && r == Ok(Replayed(i)))
              && (refused.None? && known == {} ==> Linked(old(db), s) && db == Stored(old(db), s, digestOf) && r == Ok(Accepted(old(db).next)))
    {
      hide Agrees, Records, EventsFor, ExecutionAfter;
      if s.intent !in db.intents || db.intents[s.intent].tenant != s.tenant {
        return Err(IntentNotFound);
      }
      var digest := digestOf(s.payload);
      var existing := FindKnown(s.tenant, digest);
      if existing.Some? {
        assert Known(db, s.tenant, digest) == {existing.value};
        return Ok(Replayed(existing.value));
      }
      if s.proof.Some? {
        if s.proof.value !in db.proofs {
          return Err(ProofNotFound);
        }
        if db.proofs[s.proof.value].tenant != s.tenant || db.proofs[s.proof.value].intent != s.intent {
          return Err(ProofForeign);
        }
      }
      if s.escrow.Some? {
        if s.escrow.value !in db.escrows {
          return Err(EscrowNotFound);
        }
        if db.escrows[s.escrow.value].tenant != s.tenant || db.escrows[s.escrow.value].intent != s.intent {
          return Err(EscrowForeign);
        }
      }
      if "occurred_at" !in s.payload || !readable(s.payload["occurred_at"]) {
        return Err(Malformed);
      }
      if "receipt_id" !in s.payload || "receipt_type" !in s.payload || "outcome" !in s.payload {
        return Err(Malformed);
      }
      Store(s, digest);
      r := Ok(Accepted(db.next - 1));
    }

    method AnyOpen(rs: seq<Reconciliation>) returns (open: bool)
      ensures open <==> !EveryMatched(rs)
    {
      open := false;
      for i := 0 to |rs|
        invariant open <==> exists k :: 0 <= k < i && rs[k].status != AllMatched
      {
        if rs[i].status != AllMatched {
          open := true;
        }
      }
      assert open ==> exists k :: 0 <= k < |rs| && rs[k] in rs && rs[k].status != AllMatched;
    }

    /** The writing part of `ingest_receipt`: the receipt is received, indexed and perhaps reconciled. */
    method Store(s: Submission, digest: Digest)
      requires Linked(db, s) && digest == digestOf(s.payload) && Valid() && Known(db, s.tenant, digest) == {}
      modifies this`db
      ensures Valid() && db == Stored(old(db), s, digestOf)
    {
      hide IntentChecks, ProofChecks, EscrowChecks, StatusOf, AgreesWithIntent, AgreesWithProof, AgreesWithEscrow, Records, Agrees, ExecutionAfter, EveryMatched, EventsFor, Known;
      var id, base := db.next, db;
      var receipt := Receipt(s.tenant, s.intent, s.proof, s.escrow, s.payload, digest, Received);
      var rs, events := Reconcile(s);
      RecordsMatchExactly(base, s);
      receipt := receipt.(state := Indexed);
      var open := AnyOpen(rs);
      if rs != [] && !open {
        receipt := receipt.(state := Reconciled);
      }
      var intent := base.intents[s.intent].(latestReceipt := Some(id), receiptState := receipt.state, execution := ExecutionAfter(s.payload));
      EventsUnfold(id, rs);
      assert base.audit + [Ingested(id)] + events == base.audit + ([Ingested(id)] + events);
      NoneKnown(base, s.tenant, digest);
      db := base.(receipts := base.receipts[id := receipt], intents := base.intents[s.intent := intent],
                  reconciliations := base.reconciliations + rs, audit := base.audit + [Ingested(id)] + events, next := id + 1);
    }
  }

  /**
    Reconciliation is exact: a stored receipt is reconciled if and only if it agrees field by field
    with its intent and with each proof and escrow it is linked to.
  */
  lemma {:induction false} ReconciledExactlyWhenAgrees(db: Db, s: Submission, digestOf: DigestFn)
    requires Linked(db, s)
    ensures var d := Stored(db, s, digestOf);
            && (d.receipts[db.next].state == Reconciled <==> Agrees(db, s))
            && (Agrees(db, s) <==> EveryMatched(d.reconciliations[|db.reconciliations|..]))
            && d.intents[s.intent].receiptState == d.receipts[db.next].state
            && |d.audit| == |db.audit| + 1 + (|d.reconciliations| - |db.reconciliations|)
  {
    RecordsMatchExactly(db, s);
    assert Stored(db, s, digestOf).reconciliations[|db.reconciliations|..] == Records(db, s);
    hide Agrees, Records;
  }

  /** Sending a stored payload again, linked to anything, is a replay of the same receipt. */
  lemma ResubmissionIsReplay(db: Db, s: Submission, again: Submission, digestOf: DigestFn, readable: TimestampFn)
    requires Linked(db, s) && Refusal(db, s, digestOf, readable).None? && Known(db, s.tenant, digestOf(s.payload)) == {}
    requires again.tenant == s.tenant && again.payload == s.payload && again.intent in db.intents && db.intents[again.intent].tenant == s.tenant
    ensures var d := Stored(db, s, digestOf);
            Refusal(d, again, digestOf, readable).None? && Known(d, again.tenant, digestOf(again.payload)) == {db.next}
  {
    hide Agrees, Records, ExecutionAfter, EventsFor;
    var d := Stored(db, s, digestOf);
    assert forall i :: i in db.receipts ==> i !in Known(db, s.tenant, digestOf(s.payload));
    assert Known(d, again.tenant, digestOf(again.payload)) == {db.next};
  }
}
