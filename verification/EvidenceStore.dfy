/** `evidence.py`: registration, expiry, and the evidence state of an intent. */
module EvidenceStore {
  import opened Hashing
  import opened PolicyEngine
  import opened ControlPlane

  datatype EvidenceError = IntentNotFound | ForeignTenant | RequestNotFound | RequestForeignTenant | RequestForeignIntent

  predicate Due(e: Evidence, now: int) {
    e.status == EvidenceActive && e.expiresAt.Some? && e.expiresAt.value <= now
  }

  function Refreshed(e: Evidence, now: int): (e': Evidence) {
    if Due(e, now) then e.(status := EvidenceExpired) else e
  }

  predicate Allowed(q: EvidenceRequirement, kind: string) {
    q.allowedTypes == [] || kind in q.allowedTypes
  }

  /** Evidence that counts at `now`: of the intent, of an allowed type, active and not past its expiry. */
  ghost function Live(db: Db, intent: Id, q: EvidenceRequirement, now: int): (ids: set<Id>) {
    set i | i in db.evidence && db.evidence[i].intent == intent && db.evidence[i].status == EvidenceActive
            && !Due(db.evidence[i], now) && Allowed(q, db.evidence[i].kind)
  }

  function StateFrom(requirement: Option<EvidenceRequirement>, valid: nat, anyExpired: bool): (s: EvidenceState) {
    if requirement.None? then EvidenceNotRequired
    else if valid >= requirement.value.minimumCount then EvidenceSatisfied
    else if anyExpired then EvidenceLapsed
    else EvidencePending
  }

  ghost function RefreshEvidence(db: Db, intent: Id, now: int): (db': Db) {
    db.(evidence := map i | i in db.evidence ::
          if db.evidence[i].intent == intent then Refreshed(db.evidence[i], now) else db.evidence[i])
  }

  ghost function ValidIds(db: Db, intent: Id, q: EvidenceRequirement): (ids: set<Id>) {
    set i | i in db.evidence && db.evidence[i].intent == intent && db.evidence[i].status == EvidenceActive && Allowed(q, db.evidence[i].kind)
  }

  ghost predicate AnyExpired(db: Db, intent: Id) {
    exists i :: i in db.evidence && db.evidence[i].intent == intent && db.evidence[i].status == EvidenceExpired
  }

  ghost function DerivedState(db: Db, intent: Id): (s: EvidenceState)
    requires intent in db.intents
  {
    var q := db.intents[intent].evidence;
    StateFrom(q, if q.None? then 0 else |ValidIds(db, intent, q.value)|, AnyExpired(db, intent))
  }

  /** `synchronize_action_intent_state`. */
  ghost function SyncEvidence(db: Db, intent: Id, now: int): (db': Db)
    requires intent in db.intents
  {
    var d := RefreshEvidence(db, intent, now);
    d.(intents := d.intents[intent := d.intents[intent].(evidenceState := DerivedState(d, intent))])
  }

  /** After synchronising, "satisfied" means enough live evidence at that moment, and nothing else. */
  lemma SatisfiedIsLive(db: Db, intent: Id, now: int)
    requires intent in db.intents && db.intents[intent].evidence.Some?
    ensures var q := db.intents[intent].evidence.value;
            SyncEvidence(db, intent, now).intents[intent].evidenceState == EvidenceSatisfied
            <==> |Live(db, intent, q, now)| >= q.minimumCount
  {
    var q, d := db.intents[intent].evidence.value, RefreshEvidence(db, intent, now);
    assert ValidIds(d, intent, q) == Live(db, intent, q, now);
  }

  function ResolveExpiration(record: Intent, explicit: Option<int>, now: int): (t: Option<int>) {
    if explicit.Some? then explicit
    else if record.evidence.None? || record.evidence.value.ttl.None? || record.evidence.value.ttl.value == 0 then None
    else Some(now + record.evidence.value.ttl.value)
  }

  function CheckBinding(db: Db, tenant: string, intent: Id, request: Option<Id>): (e: Option<EvidenceError>)
    ensures e.None? ==> intent in db.intents && db.intents[intent].tenant == tenant
  {
    if intent !in db.intents then Some(IntentNotFound)
    else if db.intents[intent].tenant != tenant then Some(ForeignTenant)
    else if request.None? then None
    else if request.value !in db.requests then Some(RequestNotFound)
    else if db.requests[request.value].tenant != tenant then Some(RequestForeignTenant)
    else if db.requests[request.value].intent != intent then Some(RequestForeignIntent)
    else None
  }

  /** The whole effect of `register_evidence`; evidence already past its expiry is stored as expired. */
  ghost function Register(db: Db, tenant: string, intent: Id, request: Option<Id>, kind: string,
          explicit: Option<int>, now: int): (db': Db) {
    if CheckBinding(db, tenant, intent, request).Some? then db
    else
      var row := Evidence(intent, tenant, kind, ResolveExpiration(db.intents[intent], explicit, now), EvidenceActive);
      SyncEvidence(db.(evidence := db.evidence[db.next := row], next := db.next + 1), intent, now)
  }

  // ----- The service -----

  ghost function Partly(db: Db, done: set<Id>, now: int): (m: map<Id, Evidence>) {
    map i | i in db.evidence :: if i in done then Refreshed(db.evidence[i], now) else db.evidence[i]
  }

  lemma PartlyNone(db: Db, now: int)
    ensures Partly(db, {}, now) == db.evidence
  {
  }

  lemma PartlyOne(db: Db, done: set<Id>, i: Id, now: int)
    requires i in db.evidence && i !in done
    ensures i in Partly(db, done, now)
    ensures Partly(db, done + {i}, now) == Partly(db, done, now)[i := Refreshed(Partly(db, done, now)[i], now)]
  {
  }

  class EvidenceService {
    const session: Session

    constructor (session: Session)
      ensures this.session == session
    {
      this.session := session;
    }

    method RefreshRow(i: Id, now: int)
      requires i in session.work.evidence
      modifies session`work
      ensures session.work == old(session.work).(evidence := old(session.work.evidence)[i := Refreshed(old(session.work.evidence[i]), now)])
    {
      var e := session.work.evidence[i];
      if e.status != EvidenceActive || e.expiresAt.None? || e.expiresAt.value > now {
        assert session.work.evidence == session.work.evidence[i := e];
        return;
      }
      session.work := session.work.(evidence := session.work.evidence[i := e.(status := EvidenceExpired)]);
    }

    method RefreshAll(intent: Id, now: int)
      modifies session`work
      ensures session.work == RefreshEvidence(old(session.work), intent, now)
    {
      var start := session.work;
      var all: set<Id> := set i | i in start.evidence && start.evidence[i].intent == intent;
      var todo := all;
      assert Partly(start, all, now) == RefreshEvidence(start, intent, now).evidence;
      assert start.(evidence := Partly(start, all, now)) == RefreshEvidence(start, intent, now);
      hide *;
      PartlyNone(start, now);
      while todo != {}
        invariant todo <= all <= start.evidence.Keys
        invariant session.work == start.(evidence := Partly(start, all - todo, now))
        decreases |todo|
      {
        var i :| i in todo;
        PartlyOne(start, all - todo, i, now);
        RefreshRow(i, now);
        assert all - (todo - {i}) == (all - todo) + {i};
        todo := todo - {i};
      }
      assert all - todo == all;
    }

    method Synchronize(intent: Id, now: int) returns (state: EvidenceState)
      requires intent in session.work.intents
      modifies session`work
      ensures session.work == SyncEvidence(old(session.work), intent, now)
      ensures state == session.work.intents[intent].evidenceState
    {
      RefreshAll(intent, now);
      var db := session.work;
      var q := db.intents[intent].evidence;
      if q.None? {
        state := EvidenceNotRequired;
      } else {
        var valid := set i | i in db.evidence && db.evidence[i].intent == intent
                             && db.evidence[i].status == EvidenceActive && Allowed(q.value, db.evidence[i].kind);
        var lapsed := set i | i in db.evidence && db.evidence[i].intent == intent && db.evidence[i].status == EvidenceExpired;
        assert valid == ValidIds(db, intent, q.value);
        assert AnyExpired(db, intent) <==> lapsed != {} by {
          if AnyExpired(db, intent) {
            var i :| i in db.evidence && db.evidence[i].intent == intent && db.evidence[i].status == EvidenceExpired;
            assert i in lapsed;
          }
        }
        state := StateFrom(q, |valid|, lapsed != {});
      }
      session.work := db.(intents := db.intents[intent := db.intents[intent].(evidenceState := state)]);
    }

    method RegisterEvidence(tenant: string, intent: Id, request: Option<Id>, kind: string,
            explicit: Option<int>, now: int)
      returns (r: Result<Id, EvidenceError>)
      requires session.Clean()
      modifies session
      ensures session.Clean()
      ensures session.committed == Register(old(session.committed), tenant, intent, request, kind, explicit, now)
      ensures r == (var e := CheckBinding(old(session.committed), tenant, intent, request);
                    if e.Some? then Err(e.value) else Ok(old(session.committed).next))
    {
      var db := session.work;
      var refused := CheckBinding(db, tenant, intent, request);
      if refused.Some? {
        return Err(refused.value);
      }
      var row := Evidence(intent, tenant, kind, ResolveExpiration(db.intents[intent], explicit, now), EvidenceActive);
      session.work := db.(evidence := db.evidence[db.next := row], next := db.next + 1);
      var state := Synchronize(intent, now);
      session.Commit();
      r := Ok(db.next);
    }
  }
}
