/** `escrow.py` for one caller at a time; overlapping callers are in `EscrowRace`. */
module Escrows {
  import opened Hashing
  import opened Text
  import opened ControlPlane

  datatype EscrowError =
    | ProofMissing | ProofNotActive | KindEmpty | ResourceEmpty | BoundElsewhere | HoldTtlTooLong
    | RecordNotFound | NotHeld | ExternalRelease | NotReleased | DigestMissing | TokenEmpty | TokenInvalid
    | NotRevocable | NotQuarantinable | NotConsumed | NotAnOutcome | NotAProgression

  type TokenHashFn = string -> Digest

  datatype Command =
    | Release(minted: string)
    | Consume(token: string)
    | Revoke
    | Impound
    | Report(execution: ExecutionState)

  datatype HoldOutcome = Kept(id: Id) | Opened(id: Id)

  // ----- The states of one record -----

  /** The pairs of status and execution state that occur together. */
  predicate Coupled(status: EscrowStatus, execution: ExecutionState) {
    match status
    case Held => execution == CapabilityHeld
    case Released => execution == CapabilityReleased
    case Consumed => execution in {DispatchRequested, DispatchConfirmed, ResultObserved, FailureObserved}
    case Revoked => execution == ExecutionRevoked
    case Quarantined => execution == ExecutionQuarantined
    case Expired => execution == ExecutionExpired
  }

  function Rank(execution: ExecutionState): (n: nat)
    ensures n <= 5
  {
    match execution
    case CapabilityHeld => 0
    case CapabilityReleased => 1
    case DispatchRequested => 2
    case DispatchConfirmed => 3
    case ResultObserved => 4
    case FailureObserved => 4
    case ExecutionRevoked => 5
    case ExecutionQuarantined => 5
    case ExecutionExpired => 5
  }

  /** The label each step carries in the log. */
  function LabelFor(execution: ExecutionState): (k: TransitionType) {
    match execution
    case CapabilityHeld => HoldCreated
    case CapabilityReleased => CapabilityRelease
    case DispatchRequested => Consumption
    case DispatchConfirmed => ExecutionUpdate
    case ResultObserved => ExecutionUpdate
    case FailureObserved => ExecutionUpdate
    case ExecutionRevoked => Revocation
    case ExecutionQuarantined => Quarantine
    case ExecutionExpired => Expiry
  }

  /** `_is_allowed_execution_progression`. */
  predicate Progresses(current: ExecutionState, next: ExecutionState) {
    match current
    case DispatchRequested => next in {DispatchConfirmed, ResultObserved, FailureObserved}
    case DispatchConfirmed => next in {ResultObserved, FailureObserved}
    case _ => false
  }

  // ----- The transition log -----

  /** Re-run a log from nothing: the state it ends in, or none when an entry does not start where the last one ended. */
  function Replay(log: seq<Transition>): (r: Option<(EscrowStatus, ExecutionState)>) {
    if log == [] then None
    else
      var t := log[|log| - 1];
      if |log| == 1 then
        (if t.fromStatus.None? && t.fromExecution.None? then Some((t.toStatus, t.toExecution)) else None)
      else
        var before := Replay(log[..|log| - 1]);
        if before.Some? && t.fromStatus == Some(before.value.0) && t.fromExecution == Some(before.value.1)
        then Some((t.toStatus, t.toExecution)) else None
  }

  /** Every entry is a well-labelled, coupled state of higher rank than the one before; the first is the hold. */
  ghost predicate LogInv(log: seq<Transition>) {
    && log != []
    && log[0] == Transition(HoldCreated, None, Held, None, CapabilityHeld)
    && (forall i :: 0 <= i < |log| ==> Coupled(log[i].toStatus, log[i].toExecution) && log[i].kind == LabelFor(log[i].toExecution))
    && (forall i :: 0 <= i < |log| - 1 ==> Rank(log[i].toExecution) < Rank(log[i + 1].toExecution))
  }

  ghost predicate RecordInv(e: Escrow) {
    && LogInv(e.log)
    && Replay(e.log) == Some((e.status, e.execution))
    && (e.status in {Released, Consumed} ==> e.tokenDigest.Some? && !e.external)
    && (e.tokenDigest.Some? <==> exists t :: t in e.log && t.kind == CapabilityRelease)
  }

  function Advance(e: Escrow, status: EscrowStatus, execution: ExecutionState): (e': Escrow) {
    e.(status := status, execution := execution,
       log := e.log + [Transition(LabelFor(execution), Some(e.status), status, Some(e.execution), execution)])
  }

  lemma ReplayEndsAtLast(log: seq<Transition>)
    requires Replay(log).Some?
    ensures log != [] && Replay(log).value == (log[|log| - 1].toStatus, log[|log| - 1].toExecution)
  {
  }

  lemma AdvanceLog(e: Escrow, status: EscrowStatus, execution: ExecutionState)
    requires LogInv(e.log) && Replay(e.log) == Some((e.status, e.execution))
    requires Coupled(status, execution) && Rank(e.execution) < Rank(execution)
    ensures LogInv(Advance(e, status, execution).log)
    ensures Replay(Advance(e, status, execution).log) == Some((status, execution))
  {
    ReplayEndsAtLast(e.log);
    assert Advance(e, status, execution).log[..|e.log|] == e.log;
  }

  lemma {:induction false} RankGrows(log: seq<Transition>, i: nat)
    requires LogInv(log) && i < |log|
    ensures i <= Rank(log[i].toExecution)
  {
    if i > 0 {
      RankGrows(log, i - 1);
    }
  }

  /** No record makes more than six entries. */
  lemma AtMostSixEntries(e: Escrow)
    requires RecordInv(e)
    ensures 1 <= |e.log| <= 6
    ensures Coupled(e.status, e.execution)
  {
    RankGrows(e.log, |e.log| - 1);
    ReplayEndsAtLast(e.log);
  }

  lemma {:induction false} RankAscends(log: seq<Transition>, i: nat, j: nat)
    requires LogInv(log) && i < j < |log|
    ensures Rank(log[i].toExecution) < Rank(log[j].toExecution)
    decreases j
  {
    if i < j - 1 {
      RankAscends(log, i, j - 1);
    }
  }

  /** No state is entered twice; so there is at most one release and at most one consumption. */
  lemma EachStateOnce(e: Escrow, i: nat, j: nat)
    requires RecordInv(e) && i < |e.log| && j < |e.log|
    requires e.log[i].toExecution == e.log[j].toExecution || (e.log[i].kind == e.log[j].kind && e.log[i].kind != ExecutionUpdate)
    ensures i == j
  {
    if i < j {
      RankAscends(e.log, i, j);
    }
    if j < i {
      RankAscends(e.log, j, i);
    }
  }

  /** Held, released, consumed, confirmed, result, quarantined: six is reached. */
  lemma SixEntriesHappen(e: Escrow, p: Proof, th: TokenHashFn, token: string, now: int)
    requires e.status == Held && e.execution == CapabilityHeld && !e.external && |e.log| == 1
    requires Active(p, now) && Strip(token) != ""
    ensures var a := Apply(e, p, th, Release(token), now);
            a.Ok? && var b := Apply(a.value, p, th, Consume(token), now);
            b.Ok? && var c := Apply(b.value, p, th, Report(DispatchConfirmed), now);
            c.Ok? && var d := Apply(c.value, p, th, Report(ResultObserved), now);
            d.Ok? && var f := Apply(d.value, p, th, Impound, now);
            f.Ok? && |f.value.log| == 6
  {
  }

  // ----- What each command does to a fetched record -----

  predicate Due(e: Escrow, now: int) {
    e.status in {Held, Released} && e.expiresAt <= now
  }

  function Refreshed(e: Escrow, now: int): (e': Escrow) {
    if Due(e, now) then Advance(e, Expired, ExecutionExpired) else e
  }

  predicate Active(p: Proof, now: int) {
    p.status == ProofIssued && p.expiresAt > now
  }

  function Apply(e: Escrow, p: Proof, th: TokenHashFn, c: Command, now: int): (r: Result<Escrow, EscrowError>) {
    match c
    case Release(minted) =>
      if !Active(p, now) then Err(ProofNotActive)
      else if e.status != Held then Err(NotHeld)
      else if e.external then Err(ExternalRelease)
      else if Strip(minted) == "" then Err(TokenEmpty)
      else Ok(Advance(e, Released, CapabilityReleased).(tokenDigest := Some(th(Strip(minted)))))
    case Consume(token) =>
      if !Active(p, now) then Err(ProofNotActive)
      else if e.status != Released then Err(NotReleased)
      else if e.tokenDigest.None? then Err(DigestMissing)
      else if Strip(token) == "" then Err(TokenEmpty)
      else if th(Strip(token)) != e.tokenDigest.value then Err(TokenInvalid)
      else Ok(Advance(e, Consumed, DispatchRequested))
    case Revoke =>
      if e.status !in {Held, Released} then Err(NotRevocable)
      else Ok(Advance(e, Revoked, ExecutionRevoked))
    case Impound =>
      if e.status in {Revoked, Quarantined, Expired} then Err(NotQuarantinable)
      else Ok(Advance(e, Quarantined, ExecutionQuarantined))
    case Report(execution) =>
      if e.status != Consumed then Err(NotConsumed)
      else if execution !in {DispatchConfirmed, ResultObserved, FailureObserved} then Err(NotAnOutcome)
      else if !Progresses(e.execution, execution) then Err(NotAProgression)
      else Ok(Advance(e, Consumed, execution))
  }

  lemma RefreshedInv(e: Escrow, now: int)
    requires RecordInv(e)
    ensures RecordInv(Refreshed(e, now))
  {
    if Due(e, now) {
      ReplayEndsAtLast(e.log);
      AdvanceLog(e, Expired, ExecutionExpired);
      assert forall t :: t in Refreshed(e, now).log <==> t in e.log || t == Transition(Expiry, Some(e.status), Expired, Some(e.execution), ExecutionExpired);
    }
  }

  lemma ReleaseTransitionsAfter(e: Escrow, status: EscrowStatus, execution: ExecutionState)
    ensures (exists t :: t in Advance(e, status, execution).log && t.kind == CapabilityRelease)
            <==> (exists t :: t in e.log && t.kind == CapabilityRelease) || execution == CapabilityReleased
  {
    var log := Advance(e, status, execution).log;
    assert log[|e.log|] in log;
    assert forall t :: t in e.log ==> t in log;
    assert forall t :: t in log ==> t in e.log || t == log[|e.log|];
  }

  lemma NotYetReleased(e: Escrow)
    requires RecordInv(e) && e.status == Held
    ensures e.tokenDigest.None?
  {
    ReplayEndsAtLast(e.log);
    forall t | t in e.log ensures t.kind != CapabilityRelease {
      var i :| 0 <= i < |e.log| && e.log[i] == t;
      RankBetween(e.log, i, |e.log| - 1);
    }
  }

  lemma {:induction false} RankBetween(log: seq<Transition>, i: nat, j: nat)
    requires LogInv(log) && i <= j < |log|
    ensures Rank(log[i].toExecution) <= Rank(log[j].toExecution)
    decreases j - i
  {
    if i < j {
      RankBetween(log, i, j - 1);
    }
  }

  lemma ApplyShape(e: Escrow, p: Proof, th: TokenHashFn, c: Command, now: int)
    requires RecordInv(e) && Apply(e, p, th, c, now).Ok?
    ensures var e' := Apply(e, p, th, c, now).value;
            && Coupled(e'.status, e'.execution) && Rank(e.execution) < Rank(e'.execution)
            && e' == Advance(e, e'.status, e'.execution).(tokenDigest := e'.tokenDigest)
            && (e'.tokenDigest.Some? <==> e.tokenDigest.Some? || e'.execution == CapabilityReleased)
            && (e'.status in {Released, Consumed} ==> e'.tokenDigest.Some? && !e'.external)
  {
    AtMostSixEntries(e);
  }

  /** Every accepted command moves a record to a higher rank and keeps its log a faithful history. */
  lemma {:induction false} ApplyInv(e: Escrow, p: Proof, th: TokenHashFn, c: Command, now: int)
    requires RecordInv(e) && Apply(e, p, th, c, now).Ok?
    ensures RecordInv(Apply(e, p, th, c, now).value)
    ensures Rank(e.execution) < Rank(Apply(e, p, th, c, now).value.execution)
  {
    hide Apply, LogInv, Replay, Rank, Coupled;
    ApplyShape(e, p, th, c, now);
    var e' := Apply(e, p, th, c, now).value;
    AdvanceLog(e, e'.status, e'.execution);
    ReleaseTransitionsAfter(e, e'.status, e'.execution);
  }

  /** Consumption needs the very token digest stored at release, and a proof issued and unexpired at that moment. */
  lemma ConsumedExactlyWhen(e: Escrow, p: Proof, th: TokenHashFn, token: string, now: int)
    requires RecordInv(e)
    ensures Apply(e, p, th, Consume(token), now).Ok? <==>
              e.status == Released && Active(p, now) && Strip(token) != "" && e.tokenDigest == Some(th(Strip(token)))
  {
  }

  // ----- The table -----

  ghost function HoldsFor(db: Db, proof: Id): (ids: set<Id>) {
    set i | i in db.escrows && db.escrows[i].proof == proof
  }

  /** A record carries its proof's binding and never outlives the proof or the longest hold. */
  ghost predicate Bound(e: Escrow, p: Proof, st: Settings) {
    && e.audience == p.key.audience && e.scope == p.scope && e.scopeHash == p.key.scopeHash && e.digest == p.key.digest
    && e.expiresAt <= p.expiresAt
    && e.expiresAt <= e.heldAt + st.capabilityMaxTtl
  }

  ghost predicate RowInv(db: Db, st: Settings, i: Id)
    requires i in db.escrows
  {
    var e := db.escrows[i];
    i < db.next && RecordInv(e) && e.proof in db.proofs && Bound(e, db.proofs[e.proof], st)
  }

  ghost predicate EscrowsInv(db: Db, st: Settings) {
    && (forall i :: i in db.escrows ==> RowInv(db, st, i))
    && (forall i, j :: i in db.escrows && j in db.escrows && db.escrows[i].proof == db.escrows[j].proof ==> i == j)
  }

  /** `get_record`: an expiry found on reading is committed. */
  function Fetched(db: Db, i: Id, now: int): (db': Db)
    requires i in db.escrows
  {
    db.(escrows := db.escrows[i := Refreshed(db.escrows[i], now)])
  }

  function Attempt(db: Db, th: TokenHashFn, i: Id, c: Command, now: int): (r: Result<Escrow, EscrowError>)
    requires i in db.escrows ==> db.escrows[i].proof in db.proofs
  {
    if i !in db.escrows then Err(RecordNotFound)
    else Apply(Refreshed(db.escrows[i], now), db.proofs[db.escrows[i].proof], th, c, now)
  }

  /** The whole effect of a command, refused or not. */
  function Perform(db: Db, th: TokenHashFn, i: Id, c: Command, now: int): (db': Db)
    requires i in db.escrows ==> db.escrows[i].proof in db.proofs
  {
    if i !in db.escrows then db
    else
      var r := Attempt(db, th, i, c, now);
      db.(escrows := db.escrows[i := if r.Ok? then r.value else Refreshed(db.escrows[i], now)])
  }

  lemma ReplaceInv(db: Db, st: Settings, i: Id, e: Escrow)
    requires EscrowsInv(db, st) && i in db.escrows && RecordInv(e)
    requires e == db.escrows[i].(status := e.status, execution := e.execution, tokenDigest := e.tokenDigest, log := e.log)
    ensures EscrowsInv(db.(escrows := db.escrows[i := e]), st)
  {
    hide RecordInv;
    var db' := db.(escrows := db.escrows[i := e]);
    forall k | k in db'.escrows ensures RowInv(db', st, k) {
      assert RowInv(db, st, k);
    }
  }

  lemma RefreshedFields(e: Escrow, now: int)
    ensures var e' := Refreshed(e, now); e' == e.(status := e'.status, execution := e'.execution, tokenDigest := e'.tokenDigest, log := e'.log)
  {
  }

  lemma AppliedFields(e: Escrow, p: Proof, th: TokenHashFn, c: Command, now: int)
    ensures Apply(e, p, th, c, now).Ok? ==>
              var e' := Apply(e, p, th, c, now).value;
              e' == e.(status := e'.status, execution := e'.execution, tokenDigest := e'.tokenDigest, log := e'.log)
  {
  }

  lemma {:induction false} PerformInv(db: Db, st: Settings, th: TokenHashFn, i: Id, c: Command, now: int)
    requires EscrowsInv(db, st) && (i in db.escrows ==> db.escrows[i].proof in db.proofs)
    ensures EscrowsInv(Perform(db, th, i, c, now), st)
  {
    hide RecordInv, Apply, Refreshed, EscrowsInv;
    if i in db.escrows {
      assert RowInv(db, st, i) by { RowOf(db, st, i); }
      var e, p := db.escrows[i], db.proofs[db.escrows[i].proof];
      RefreshedInv(e, now);
      RefreshedFields(e, now);
      AppliedFields(Refreshed(e, now), p, th, c, now);
      if Apply(Refreshed(e, now), p, th, c, now).Ok? {
        ApplyInv(Refreshed(e, now), p, th, c, now);
        ReplaceInv(db, st, i, Apply(Refreshed(e, now), p, th, c, now).value);
      } else {
        ReplaceInv(db, st, i, Refreshed(e, now));
      }
    }
  }

  lemma RowOf(db: Db, st: Settings, i: Id)
    requires EscrowsInv(db, st) && i in db.escrows
    ensures RowInv(db, st, i)
  {
  }

  // ----- Creating a hold -----

  function Min(a: int, b: int): (m: int)
    ensures m <= a && m <= b && (m == a || m == b)
  {
    if a <= b then a else b
  }

  datatype HoldRequest = HoldRequest(proof: Id, capability: string, resource: string, ttl: Option<int>)

  function NewHold(p: Proof, st: Settings, q: HoldRequest, now: int): (e: Escrow) {
    Escrow(q.proof, Strip(q.capability), Strip(q.resource), st.externalRelease, p.key.audience, p.scope, p.key.scopeHash, p.key.digest,
           Held, CapabilityHeld, None, now, Min(now + EffectiveTtl(q.ttl, st.capabilityDefaultTtl), p.expiresAt),
           [Transition(HoldCreated, None, Held, None, CapabilityHeld)])
  }

  predicate Matches(e: Escrow, q: HoldRequest) {
    e.capability == Strip(q.capability) && e.resource == Strip(q.resource)
  }

  /** The refusals that come before the table of holds is read. */
  function HoldRefusal(db: Db, q: HoldRequest, now: int): (e: Option<EscrowError>) {
    if q.proof !in db.proofs then Some(ProofMissing)
    else if !Active(db.proofs[q.proof], now) then Some(ProofNotActive)
    else if Strip(q.capability) == "" then Some(KindEmpty)
    else if Strip(q.resource) == "" then Some(ResourceEmpty)
    else None
  }

  /** The hold an issued proof is bound to. */
  ghost function HoldOf(db: Db, proof: Id): (i: Id)
    requires HoldsFor(db, proof) != {}
    ensures i in HoldsFor(db, proof)
  {
    var i :| i in HoldsFor(db, proof);
    i
  }

  /** The answer of `create_hold`. */
  ghost function HoldAnswer(db: Db, st: Settings, q: HoldRequest, now: int): (r: Result<HoldOutcome, EscrowError>) {
    if HoldRefusal(db, q, now).Some? then Err(HoldRefusal(db, q, now).value)
    else if HoldsFor(db, q.proof) != {} then
      var i := HoldOf(db, q.proof);
      if Matches(db.escrows[i], q) then Ok(Kept(i)) else Err(BoundElsewhere)
    else if EffectiveTtl(q.ttl, st.capabilityDefaultTtl) > st.capabilityMaxTtl then Err(HoldTtlTooLong)
    else Ok(Opened(db.next))
  }

  /** The effect of `create_hold`: an expiry found on the existing hold is kept even when the call is refused. */
  ghost function Hold(db: Db, st: Settings, q: HoldRequest, now: int): (db': Db) {
    if HoldRefusal(db, q, now).Some? then db
    else if HoldsFor(db, q.proof) != {} then Fetched(db, HoldOf(db, q.proof), now)
    else if EffectiveTtl(q.ttl, st.capabilityDefaultTtl) > st.capabilityMaxTtl then db
    else db.(escrows := db.escrows[db.next := Refreshed(NewHold(db.proofs[q.proof], st, q, now), now)], next := db.next + 1)
  }

  lemma NewHoldInv(p: Proof, st: Settings, q: HoldRequest, now: int)
    requires EffectiveTtl(q.ttl, st.capabilityDefaultTtl) <= st.capabilityMaxTtl
    ensures RecordInv(NewHold(p, st, q, now)) && Bound(NewHold(p, st, q, now), p, st)
  {
  }

  lemma {:induction false} HoldInv(db: Db, st: Settings, q: HoldRequest, now: int)
    requires EscrowsInv(db, st)
    ensures EscrowsInv(Hold(db, st, q, now), st)
  {
    hide RecordInv, Refreshed, NewHold;
    if HoldRefusal(db, q, now).None? {
      if HoldsFor(db, q.proof) != {} {
        var i := HoldOf(db, q.proof);
        RowOf(db, st, i);
        RefreshedInv(db.escrows[i], now);
        RefreshedFields(db.escrows[i], now);
        ReplaceInv(db, st, i, Refreshed(db.escrows[i], now));
      } else if EffectiveTtl(q.ttl, st.capabilityDefaultTtl) <= st.capabilityMaxTtl {
        InsertInv(db, st, q, now);
      }
    }
  }

  lemma InsertInv(db: Db, st: Settings, q: HoldRequest, now: int)
    requires EscrowsInv(db, st) && q.proof in db.proofs && HoldsFor(db, q.proof) == {}
    requires EffectiveTtl(q.ttl, st.capabilityDefaultTtl) <= st.capabilityMaxTtl
    ensures EscrowsInv(db.(escrows := db.escrows[db.next := Refreshed(NewHold(db.proofs[q.proof], st, q, now), now)], next := db.next + 1), st)
  {
    hide RecordInv, Refreshed;
    var e := NewHold(db.proofs[q.proof], st, q, now);
    NewHoldInv(db.proofs[q.proof], st, q, now);
    RefreshedInv(e, now);
    RefreshedFields(e, now);
    var db' := db.(escrows := db.escrows[db.next := Refreshed(e, now)], next := db.next + 1);
    assert forall i :: i in db.escrows ==> i !in HoldsFor(db, q.proof);
    forall i | i in db'.escrows ensures RowInv(db', st, i) {
      assert i != db.next ==> RowInv(db, st, i);
    }
  }

  // ----- The service -----

  class EscrowService {
    const session: Session
    const settings: Settings
    const tokenHash: TokenHashFn

    constructor (session: Session, settings: Settings, tokenHash: TokenHashFn)
      ensures this.session == session && this.settings == settings && this.tokenHash == tokenHash
    {
      this.session, this.settings, this.tokenHash := session, settings, tokenHash;
    }

    /** Every record names a stored proof, as the foreign key demands. */
    ghost predicate Ready()
      reads session
    {
      && session.Clean()
      && (forall i :: i in session.work.escrows ==> session.work.escrows[i].proof in session.work.proofs)
    }

    /** `_append_transition`, with the state change it records. */
    method Move(i: Id, status: EscrowStatus, execution: ExecutionState)
      requires i in session.work.escrows
      modifies session`work
      ensures session.work == old(session.work).(escrows := old(session.work.escrows)[i := Advance(old(session.work.escrows[i]), status, execution)])
    {
      var e := session.work.escrows[i];
      var entry := Transition(LabelFor(execution), Some(e.status), status, Some(e.execution), execution);
      e := e.(status := status, execution := execution);
      e := e.(log := e.log + [entry]);
      session.work := session.work.(escrows := session.work.escrows[i := e]);
    }

    /** `get_record`. */
    method GetRecord(i: Id, now: int) returns (r: Result<Escrow, EscrowError>)
      requires Ready()
      modifies session
      ensures Ready()
      ensures i !in old(session.committed).escrows ==> r == Err(RecordNotFound) && session.committed == old(session.committed)
      ensures i in old(session.committed).escrows ==>
                && session.committed == Fetched(old(session.committed), i, now)
                && r == Ok(Refreshed(old(session.committed).escrows[i], now))
                && r.value.proof == old(session.committed).escrows[i].proof
    {
      if i !in session.work.escrows {
        return Err(RecordNotFound);
      }
      var e := session.work.escrows[i];
      if e.status in {Held, Released} && e.expiresAt <= now {
        Move(i, Expired, ExecutionExpired);
        session.Commit();
      } else {
        assert session.work.escrows == session.work.escrows[i := e];
      }
      r := Ok(session.work.escrows[i]);
    }

    /** A guarded UPDATE: it touches the row only while the row still has the expected status and digest. */
    method Claim(i: Id, expected: EscrowStatus, digest: Option<Digest>, status: EscrowStatus,
            execution: ExecutionState, stored: Option<Digest>)
      returns (rows: nat)
      requires i in session.work.escrows
      modifies session`work
      ensures var e := old(session.work.escrows[i]);
              var hit := e.status == expected && (digest.Some? ==> e.tokenDigest == digest);
              && rows == (if hit then 1 else 0)
              && session.work == (if hit then old(session.work).(escrows := old(session.work.escrows)[i := Advance(e, status, execution).(tokenDigest := stored)])
                                  else old(session.work))
    {
      var e := session.work.escrows[i];
      if e.status != expected || (digest.Some? && e.tokenDigest != digest) {
        return 0;
      }
      Move(i, status, execution);
      var moved := session.work.escrows[i];
      session.work := session.work.(escrows := session.work.escrows[i := moved.(tokenDigest := stored)]);
      rows := 1;
    }

    /** `release_capability`; `minted` is the signed token. */
    method ReleaseCapability(i: Id, minted: string, now: int) returns (r: Result<Escrow, EscrowError>)
      requires Ready()
      modifies session
      ensures Ready()
      ensures session.committed == Perform(old(session.committed), tokenHash, i, Release(minted), now)
      ensures r == Attempt(old(session.committed), tokenHash, i, Release(minted), now)
    {
      hide Refreshed, Strip;
      var fetched := GetRecord(i, now);
      if fetched.Err? {
        return fetched;
      }
      var e := fetched.value;
      if !Active(session.work.proofs[e.proof], now) {
        return Err(ProofNotActive);
      }
      if e.status != Held {
        return Err(NotHeld);
      }
      if e.external {
        return Err(ExternalRelease);
      }
      if Strip(minted) == "" {
        return Err(TokenEmpty);
      }
      var rows := Claim(i, Held, None, Released, CapabilityReleased, Some(tokenHash(Strip(minted))));
      session.Commit();
      r := Ok(session.work.escrows[i]);
    }

    /** `consume_capability`. */
    method ConsumeCapability(i: Id, token: string, now: int) returns (r: Result<Escrow, EscrowError>)
      requires Ready()
      modifies session
      ensures Ready()
      ensures session.committed == Perform(old(session.committed), tokenHash, i, Consume(token), now)
      ensures r == Attempt(old(session.committed), tokenHash, i, Consume(token), now)
    {
      hide Refreshed, Strip;
      var fetched := GetRecord(i, now);
      if fetched.Err? {
        return fetched;
      }
      var e := fetched.value;
      if !Active(session.work.proofs[e.proof], now) {
        return Err(ProofNotActive);
      }
      if e.status != Released {
        return Err(NotReleased);
      }
      if e.tokenDigest.None? {
        return Err(DigestMissing);
      }
      if Strip(token) == "" {
        return Err(TokenEmpty);
      }
      var digest := tokenHash(Strip(token));
      if digest != e.tokenDigest.value {
        return Err(TokenInvalid);
      }
      var rows := Claim(i, Released, Some(digest), Consumed, DispatchRequested, Some(digest));
      session.Commit();
      r := Ok(session.work.escrows[i]);
    }

    /** `revoke_capability`. */
    method RevokeCapability(i: Id, now: int) returns (r: Result<Escrow, EscrowError>)
      requires Ready()
      modifies session
      ensures Ready()
      ensures session.committed == Perform(old(session.committed), tokenHash, i, Revoke, now)
      ensures r == Attempt(old(session.committed), tokenHash, i, Revoke, now)
    {
      hide Refreshed;
      var fetched := GetRecord(i, now);
      if fetched.Err? {
        return fetched;
      }
      if fetched.value.status !in {Held, Released} {
        return Err(NotRevocable);
      }
      Move(i, Revoked, ExecutionRevoked);
      session.Commit();
      r := Ok(session.work.escrows[i]);
    }

    /** `quarantine_capability`. */
    method QuarantineCapability(i: Id, now: int) returns (r: Result<Escrow, EscrowError>)
      requires Ready()
      modifies session
      ensures Ready()
      ensures session.committed == Perform(old(session.committed), tokenHash, i, Impound, now)
      ensures r == Attempt(old(session.committed), tokenHash, i, Impound, now)
    {
      hide Refreshed;
      var fetched := GetRecord(i, now);
      if fetched.Err? {
        return fetched;
      }
      if fetched.value.status in {Revoked, Quarantined, Expired} {
        return Err(NotQuarantinable);
      }
      Move(i, Quarantined, ExecutionQuarantined);
      session.Commit();
      r := Ok(session.work.escrows[i]);
    }

    /** `record_execution_update`. */
    method RecordExecutionUpdate(i: Id, execution: ExecutionState, now: int) returns (r: Result<Escrow, EscrowError>)
      requires Ready()
      modifies session
      ensures Ready()
      ensures session.committed == Perform(old(session.committed), tokenHash, i, Report(execution), now)
      ensures r == Attempt(old(session.committed), tokenHash, i, Report(execution), now)
    {
      hide Refreshed;
      var fetched := GetRecord(i, now);
      if fetched.Err? {
        return fetched;
      }
      var e := fetched.value;
      if e.status != Consumed {
        return Err(NotConsumed);
      }
      if execution !in {DispatchConfirmed, ResultObserved, FailureObserved} {
        return Err(NotAnOutcome);
      }
      if !Progresses(e.execution, execution) {
        return Err(NotAProgression);
      }
      Move(i, Consumed, execution);
      session.Commit();
      r := Ok(session.work.escrows[i]);
    }

    method FindHold(proof: Id) returns (r: Option<Id>)
      ensures r.Some? ==> r.value in HoldsFor(session.work, proof)
      ensures r.None? ==> HoldsFor(session.work, proof) == {}
    {
      var db := session.work;
      var todo := db.escrows.Keys;
      while todo != {}
        invariant todo <= db.escrows.Keys
        invariant forall i :: i in db.escrows.Keys - todo ==> db.escrows[i].proof != proof
        decreases |todo|
      {
        var i :| i in todo;
        if db.escrows[i].proof == proof {
          return Some(i);
        }
        todo := todo - {i};
      }
      r := None;
    }

    /** `create_hold`. */
    method CreateHold(q: HoldRequest, now: int) returns (r: Result<HoldOutcome, EscrowError>)
      requires Ready() && EscrowsInv(session.committed, settings)
      modifies session
      ensures Ready()
      ensures session.committed == Hold(old(session.committed), settings, q, now)
      ensures r == HoldAnswer(old(session.committed), settings, q, now)
    {
      hide Refreshed, Strip, RowInv, NewHold;
      var db := session.work;
      if q.proof !in db.proofs {
        return Err(ProofMissing);
      }
      if !Active(db.proofs[q.proof], now) {
        return Err(ProofNotActive);
      }
      if Strip(q.capability) == "" {
        return Err(KindEmpty);
      }
      if Strip(q.resource) == "" {
        return Err(ResourceEmpty);
      }
      var existing := FindHold(q.proof);
      if existing.Some? {
        assert existing.value == HoldOf(db, q.proof);
        var fetched := GetRecord(existing.value, now);
        RefreshedFields(db.escrows[existing.value], now);
        if !Matches(fetched.value, q) {
          return Err(BoundElsewhere);
        }
        return Ok(Kept(existing.value));
      }
      if EffectiveTtl(q.ttl, settings.capabilityDefaultTtl) > settings.capabilityMaxTtl {
        return Err(HoldTtlTooLong);
      }
      var e := NewHold(db.proofs[q.proof], settings, q, now);
      session.work := db.(escrows := db.escrows[db.next := e], next := db.next + 1);
      session.Commit();
      NewHoldProof(db.proofs[q.proof], settings, q, now);
      var fetched := GetRecord(db.next, now);
      assert db.escrows[db.next := e][db.next := Refreshed(e, now)] == db.escrows[db.next := Refreshed(e, now)];
      r := Ok(Opened(db.next));
    }
  }

  lemma NewHoldProof(p: Proof, st: Settings, q: HoldRequest, now: int)
    ensures NewHold(p, st, q, now).proof == q.proof
  {
  }
}
