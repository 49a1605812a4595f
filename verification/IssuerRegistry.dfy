/**
  `issuer_registry.py`: issuer standings and the signed artifacts that report them.  Publishing takes
  two locked transactions with unlocked signing between them, so standings may change in the middle.
  Each method that ends in a commit is one locked section; a run is any sequence of sections.
*/
module IssuerRegistry {
  import opened Hashing
  import opened Text

  type Id = nat

  datatype Standing = GoodStanding | Suspended | Revoked

  datatype RegistryError =
    | Unauthorised | AlreadyRegistered | NotFound | ReasonMissing | RevokedIsFinal
    | SignerMissing | StandingChanged | SigningFailed | NoArtifact | ArtifactExpired

  datatype Identity = Identity(kind: string, name: string)

  datatype Issuer = Issuer(identity: Identity, standing: Standing, version: nat)

  datatype Artifact = Artifact(issuer: Id, status: Standing, issuedAt: int, expiresAt: int)

  datatype Progress = Requested | Completed(artifact: Artifact, at: int) | Failed(error: RegistryError)

  datatype Publication = Publication(issuer: Id, version: nat, standing: Standing, progress: Progress)

  datatype AuditKind = Registered | StandingSet | Published | PublicationFailed

  datatype AuditEvent = AuditEvent(issuer: Id, kind: AuditKind, version: nat, standing: Standing)

  /** `statements` are the unsigned statements of publications whose caller is out at the signer. */
  datatype Registry = Registry(issuers: map<Id, Issuer>, publications: map<Id, Publication>,
                               statements: map<Id, Artifact>, audit: seq<AuditEvent>, next: Id)

  const EMPTY: Registry := Registry(map[], map[], map[], [], 0)

  datatype Lifetimes = Lifetimes(ttl: int, maxStaleness: int)

  /** What the constructor of the service demands. */
  predicate Configured(l: Lifetimes) {
    0 < l.ttl <= l.maxStaleness
  }

  function Snapshot(g: Registry, i: Id, kind: AuditKind): (e: AuditEvent)
    requires i in g.issuers
  {
    AuditEvent(i, kind, g.issuers[i].version, g.issuers[i].standing)
  }

  // ----- The locked sections -----

  function RegisterAnswer(g: Registry, identity: Identity, permitted: bool): (r: Result<Id, RegistryError>) {
    if !permitted then Err(Unauthorised)
    else if exists i :: i in g.issuers && g.issuers[i].identity == identity then Err(AlreadyRegistered)
    else Ok(g.next)
  }

  function Register(g: Registry, identity: Identity, permitted: bool): (g': Registry) {
    if RegisterAnswer(g, identity, permitted).Err? then g
    else
      var d := g.(issuers := g.issuers[g.next := Issuer(identity, GoodStanding, 1)], next := g.next + 1);
      d.(audit := d.audit + [Snapshot(d, g.next, Registered)])
  }

  function ChangeRefusal(g: Registry, i: Id, target: Standing, reason: string,
          permitted: bool): (e: Option<RegistryError>) {
    if !permitted then Some(Unauthorised)
    else if Strip(reason) == "" then Some(ReasonMissing)
    else if i !in g.issuers then Some(NotFound)
    else if g.issuers[i].standing == Revoked && target != Revoked then Some(RevokedIsFinal)
    else None
  }

  /** `_change_standing`. */
  function Change(g: Registry, i: Id, target: Standing, reason: string, permitted: bool): (g': Registry) {
    if ChangeRefusal(g, i, target, reason, permitted).Some? || g.issuers[i].standing == target then g
    else
      var d := g.(issuers := g.issuers[i := g.issuers[i].(standing := target, version := g.issuers[i].version + 1)]);
      d.(audit := d.audit + [Snapshot(d, i, StandingSet)])
  }

  function BeginRefusal(g: Registry, i: Id, permitted: bool, signer: bool): (e: Option<RegistryError>) {
    if !permitted then Some(Unauthorised) else if !signer then Some(SignerMissing) else if i !in g.issuers then Some(NotFound) else None
  }

  /** The first transaction of `publish_status`: record what is about to be published. */
  function Begin(g: Registry, i: Id, permitted: bool, signer: bool): (g': Registry) {
    if BeginRefusal(g, i, permitted, signer).Some? then g
    else g.(publications := g.publications[g.next := Publication(i, g.issuers[i].version, g.issuers[i].standing, Requested)], next := g.next + 1)
  }

  predicate Open(g: Registry, p: Id) {
    p in g.publications && g.publications[p].progress.Requested? && g.publications[p].issuer in g.issuers
  }

  /**
    The statement is written after that commit, outside the lock, from the session's copy of the
    issuer or, if the session reloads it, from the row as it then is.
  */
  function Draft(g: Registry, p: Id, reloaded: bool, l: Lifetimes, now: int): (g': Registry) {
    if !Open(g, p) || p in g.statements then g
    else
      var row := g.publications[p];
      var status := if reloaded then g.issuers[row.issuer].standing else row.standing;
      g.(statements := g.statements[p := Artifact(row.issuer, status, now, now + l.ttl)])
  }

  function Verdict(g: Registry, p: Id, signed: bool): (e: Option<RegistryError>)
    requires Open(g, p)
  {
    var row := g.publications[p];
    if !signed then Some(SigningFailed)
    else if g.issuers[row.issuer].version != row.version || g.issuers[row.issuer].standing != row.standing then Some(StandingChanged)
    else None
  }

  /** The second transaction: under the lock again, compare with the present row, then store the artifact or the failure. */
  function Complete(g: Registry, p: Id, signed: bool, now: int): (g': Registry) {
    if !Open(g, p) || p !in g.statements then g
    else
      var row, verdict := g.publications[p], Verdict(g, p, signed);
      var progress := if verdict.Some? then Failed(verdict.value) else Completed(g.statements[p], now);
      g.(publications := g.publications[p := row.(progress := progress)], statements := g.statements - {p},
         audit := g.audit + [Outcome(g, row, verdict)])
  }

  /**
    A failed signature is logged from the session's copy of the issuer, taken by the first
    transaction; everything else is logged from the row just locked.
  */
  function Outcome(g: Registry, row: Publication, verdict: Option<RegistryError>): (e: AuditEvent)
    requires row.issuer in g.issuers
  {
    if verdict == Some(SigningFailed) then AuditEvent(row.issuer, PublicationFailed, row.version, row.standing)
    else Snapshot(g, row.issuer, if verdict.Some? then PublicationFailed else Published)
  }

  /** Completed publications of the issuer's present version. */
  ghost predicate Candidate(g: Registry, i: Id, p: Id) {
    && i in g.issuers && p in g.publications && g.publications[p].issuer == i
    && g.publications[p].version == g.issuers[i].version && g.publications[p].progress.Completed?
  }

  /** `latest_status_artifact`: the candidate completed last decides. */
  ghost predicate Serves(g: Registry, i: Id, now: int, r: Result<Artifact, RegistryError>) {
    if i !in g.issuers then r == Err(NotFound)
    else if !exists p :: Candidate(g, i, p) then r == Err(NoArtifact)
    else
      exists p ::
        && Candidate(g, i, p)
        && (forall q :: Candidate(g, i, q) ==> g.publications[q].progress.at <= g.publications[p].progress.at)
        && r == (var a := g.publications[p].progress.artifact; if a.expiresAt <= now then Err(ArtifactExpired) else Ok(a))
  }

  // ----- Runs -----

  datatype Section =
    | Enrol(identity: Identity, permitted: bool)
    | SetStanding(issuer: Id, target: Standing, reason: string, permitted: bool)
    | StartPublication(issuer: Id, permitted: bool, signer: bool)
    | DraftStatement(publication: Id, reloaded: bool, now: int)
    | FinishPublication(publication: Id, signed: bool, now: int)

  function Step(g: Registry, l: Lifetimes, s: Section): (g': Registry) {
    match s
    case Enrol(identity, permitted) => Register(g, identity, permitted)
    case SetStanding(i, target, reason, permitted) => Change(g, i, target, reason, permitted)
    case StartPublication(i, permitted, signer) => Begin(g, i, permitted, signer)
    case DraftStatement(p, reloaded, now) => Draft(g, p, reloaded, l, now)
    case FinishPublication(p, signed, now) => Complete(g, p, signed, now)
  }

  function After(l: Lifetimes, run: seq<Section>): (g: Registry) {
    if run == [] then EMPTY else Step(After(l, run[..|run| - 1]), l, run[|run| - 1])
  }

  /** The standings of an issuer, version by version, as the audit trail tells them. */
  function Trail(audit: seq<AuditEvent>, i: Id): (standings: seq<Standing>) {
    if audit == [] then []
    else
      var e := audit[|audit| - 1];
      Trail(audit[..|audit| - 1], i) + (if e.issuer == i && e.kind in {Registered, StandingSet} then [e.standing] else [])
  }

  lemma TrailSnoc(audit: seq<AuditEvent>, e: AuditEvent, i: Id)
    ensures Trail(audit + [e], i) == Trail(audit, i) + (if e.issuer == i && e.kind in {Registered, StandingSet} then [e.standing] else [])
  {
    assert (audit + [e])[..|audit|] == audit;
  }

  // ----- The invariant -----

  ghost predicate IssuerInv(g: Registry, i: Id)
    requires i in g.issuers
  {
    var t := Trail(g.audit, i);
    && i < g.next && |t| == g.issuers[i].version >= 1 && t[|t| - 1] == g.issuers[i].standing
    && (forall k :: 0 <= k < |t| - 1 ==> t[k] != Revoked && t[k] != t[k + 1])
  }

  /** A publication names a version the issuer has had, with that version's standing. */
  ghost predicate PublicationInv(g: Registry, l: Lifetimes, p: Id)
    requires p in g.publications
  {
    var row := g.publications[p];
    && p < g.next && row.issuer in g.issuers
    && 1 <= row.version <= |Trail(g.audit, row.issuer)| && Trail(g.audit, row.issuer)[row.version - 1] == row.standing
    && (row.progress.Completed? ==>
          row.progress.artifact.issuer == row.issuer && row.progress.artifact.status == row.standing
          && row.progress.artifact.expiresAt == row.progress.artifact.issuedAt + l.ttl)
  }

  /** A statement may carry another standing only when the version has moved on. */
  ghost predicate StatementInv(g: Registry, l: Lifetimes, p: Id)
    requires p in g.statements
  {
    && p in g.publications && g.publications[p].issuer in g.issuers
    && g.statements[p].issuer == g.publications[p].issuer
    && g.statements[p].expiresAt == g.statements[p].issuedAt + l.ttl
    && (g.statements[p].status != g.publications[p].standing ==> g.publications[p].version < g.issuers[g.publications[p].issuer].version)
  }

  ghost predicate Inv(g: Registry, l: Lifetimes) {
    && (forall i :: i in g.issuers ==> IssuerInv(g, i))
    && (forall i :: i !in g.issuers ==> Trail(g.audit, i) == [])
    && (forall p :: p in g.publications ==> PublicationInv(g, l, p))
    && (forall p :: p in g.statements ==> StatementInv(g, l, p))
    && (forall i, j :: i in g.issuers && j in g.issuers && g.issuers[i].identity == g.issuers[j].identity ==> i == j)
  }

  /** What no section undoes: issuers stay, their trail only grows. */
  ghost predicate Grows(a: Registry, b: Registry) {
    && a.issuers.Keys <= b.issuers.Keys
    && (forall i :: Trail(a.audit, i) <= Trail(b.audit, i))
  }

  lemma IssuerCarries(a: Registry, b: Registry, i: Id)
    requires i in a.issuers && i in b.issuers && IssuerInv(a, i) && b.issuers[i] == a.issuers[i]
    requires Trail(b.audit, i) == Trail(a.audit, i) && a.next <= b.next
    ensures IssuerInv(b, i)
  {
    hide Trail;
  }

  lemma PublicationCarries(a: Registry, b: Registry, l: Lifetimes, p: Id)
    requires p in a.publications && p in b.publications && PublicationInv(a, l, p) && b.publications[p] == a.publications[p]
    requires Trail(a.audit, a.publications[p].issuer) <= Trail(b.audit, a.publications[p].issuer)
    requires a.issuers.Keys <= b.issuers.Keys && a.next <= b.next
    ensures PublicationInv(b, l, p)
  {
    hide Trail;
  }

  lemma StatementCarries(a: Registry, b: Registry, l: Lifetimes, p: Id)
    requires p in a.statements && p in b.statements && StatementInv(a, l, p) && b.statements[p] == a.statements[p]
    requires p in b.publications && b.publications[p].issuer == a.publications[p].issuer
    requires b.publications[p].version == a.publications[p].version && b.publications[p].standing == a.publications[p].standing
    requires b.publications[p].issuer in b.issuers
    requires a.issuers[a.publications[p].issuer].version <= b.issuers[a.publications[p].issuer].version
    ensures StatementInv(b, l, p)
  {
  }

  /** A section that leaves issuers and trails alone. */
  lemma SameTrails(a: Registry, b: Registry, l: Lifetimes)
    requires Inv(a, l) && b.issuers == a.issuers && a.next <= b.next && forall i :: Trail(b.audit, i) == Trail(a.audit, i)
    requires forall p :: p in b.publications ==> PublicationInv(b, l, p)
    requires forall p :: p in b.statements ==> StatementInv(b, l, p)
    ensures Inv(b, l) && Grows(a, b)
  {
    hide Trail, PublicationInv, StatementInv, IssuerInv;
    forall i | i in b.issuers ensures IssuerInv(b, i) {
      IssuerCarries(a, b, i);
    }
  }

  /** A section that adds one entry to one trail. */
  lemma LongerTrail(a: Registry, b: Registry, l: Lifetimes, i: Id, x: Issuer)
    requires Inv(a, l) && b == a.(issuers := a.issuers[i := x], audit := b.audit, next := b.next) && a.next <= b.next && i < b.next
    requires Trail(b.audit, i) == Trail(a.audit, i) + [x.standing] && forall k :: k != i ==> Trail(b.audit, k) == Trail(a.audit, k)
    requires x.version == |Trail(a.audit, i)| + 1
    requires i in a.issuers ==> a.issuers[i].standing != Revoked && a.issuers[i].standing != x.standing && x.identity == a.issuers[i].identity
    requires i !in a.issuers ==> forall k :: k in a.issuers ==> a.issuers[k].identity != x.identity
    ensures Inv(b, l) && Grows(a, b)
  {
    NewVersion(a, b, l, i, x);
    NamesAndStrangers(a, b, l, i, x);
    hide Trail, PublicationInv, StatementInv, IssuerInv, Inv, Grows;
    assert forall k :: k in a.issuers ==> IssuerInv(a, k) by { IssuersOf(a, l); }
    Grown(a, b, i, x);
    forall k | k in b.issuers ensures IssuerInv(b, k) {
      if k != i { IssuerCarries(a, b, k); }
    }
    forall p | p in b.publications ensures PublicationInv(b, l, p) {
      PublicationIssuer(a, l, p);
      PublicationCarries(a, b, l, p);
    }
    forall p | p in b.statements ensures StatementInv(b, l, p) {
      StatementPublication(a, l, p);
      StatementCarries(a, b, l, p);
    }
    Assemble(b, l);
  }

  lemma IssuersOf(a: Registry, l: Lifetimes)
    requires Inv(a, l)
    ensures forall k :: k in a.issuers ==> IssuerInv(a, k)
  {
  }

  lemma Grown(a: Registry, b: Registry, i: Id, x: Issuer)
    requires b.issuers == a.issuers[i := x]
    requires Trail(b.audit, i) == Trail(a.audit, i) + [x.standing] && forall k :: k != i ==> Trail(b.audit, k) == Trail(a.audit, k)
    ensures Grows(a, b) && forall k :: Trail(a.audit, k) <= Trail(b.audit, k)
  {
    hide Trail;
  }

  ghost predicate Names(g: Registry) {
    && (forall i :: i !in g.issuers ==> Trail(g.audit, i) == [])
    && (forall i, j :: i in g.issuers && j in g.issuers && g.issuers[i].identity == g.issuers[j].identity ==> i == j)
  }

  lemma NamesAndStrangers(a: Registry, b: Registry, l: Lifetimes, i: Id, x: Issuer)
    requires Inv(a, l) && b.issuers == a.issuers[i := x] && forall k :: k != i ==> Trail(b.audit, k) == Trail(a.audit, k)
    requires i in a.issuers ==> x.identity == a.issuers[i].identity
    requires i !in a.issuers ==> forall k :: k in a.issuers ==> a.issuers[k].identity != x.identity
    ensures Names(b)
  {
    hide Trail, PublicationInv, StatementInv, IssuerInv;
  }

  lemma Assemble(g: Registry, l: Lifetimes)
    requires Names(g)
    requires forall i :: i in g.issuers ==> IssuerInv(g, i)
    requires forall p :: p in g.publications ==> PublicationInv(g, l, p)
    requires forall p :: p in g.statements ==> StatementInv(g, l, p)
    ensures Inv(g, l)
  {
  }

  lemma PublicationIssuer(g: Registry, l: Lifetimes, p: Id)
    requires Inv(g, l) && p in g.publications
    ensures PublicationInv(g, l, p) && g.publications[p].issuer in g.issuers && p < g.next
    ensures IssuerInv(g, g.publications[p].issuer)
  {
    hide Trail;
  }

  lemma StatementPublication(g: Registry, l: Lifetimes, p: Id)
    requires Inv(g, l) && p in g.statements
    ensures StatementInv(g, l, p) && p in g.publications && g.publications[p].issuer in g.issuers
  {
  }

  lemma NewVersion(a: Registry, b: Registry, l: Lifetimes, i: Id, x: Issuer)
    requires Inv(a, l) && b.issuers == a.issuers[i := x] && a.next <= b.next && i < b.next
    requires Trail(b.audit, i) == Trail(a.audit, i) + [x.standing] && x.version == |Trail(a.audit, i)| + 1
    requires i in a.issuers ==> a.issuers[i].standing != Revoked && a.issuers[i].standing != x.standing
    ensures IssuerInv(b, i)
    ensures i in a.issuers ==> a.issuers[i].version < x.version
  {
    hide Trail;
    assert i in a.issuers ==> IssuerInv(a, i);
    assert i !in a.issuers ==> Trail(a.audit, i) == [];
  }

  lemma TrailsAfter(audit: seq<AuditEvent>, e: AuditEvent)
    ensures forall i :: Trail(audit + [e], i) == Trail(audit, i) + (if e.issuer == i && e.kind in {Registered, StandingSet} then [e.standing] else [])
  {
    forall i ensures Trail(audit + [e], i) == Trail(audit, i) + (if e.issuer == i && e.kind in {Registered, StandingSet} then [e.standing] else []) {
      TrailSnoc(audit, e, i);
    }
  }

  lemma RegisterInv(g: Registry, l: Lifetimes, identity: Identity, permitted: bool)
    requires Inv(g, l)
    ensures Inv(Register(g, identity, permitted), l) && Grows(g, Register(g, identity, permitted))
  {
    hide Trail;
    if RegisterAnswer(g, identity, permitted).Ok? {
      TrailsAfter(g.audit, AuditEvent(g.next, Registered, 1, GoodStanding));
      assert forall i :: i in g.issuers ==> IssuerInv(g, i) && i < g.next;
      LongerTrail(g, Register(g, identity, permitted), l, g.next, Issuer(identity, GoodStanding, 1));
    }
  }

  lemma ChangeInv(g: Registry, l: Lifetimes, i: Id, target: Standing, reason: string, permitted: bool)
    requires Inv(g, l)
    ensures Inv(Change(g, i, target, reason, permitted), l) && Grows(g, Change(g, i, target, reason, permitted))
  {
    hide Trail, Strip;
    if ChangeRefusal(g, i, target, reason, permitted).None? && g.issuers[i].standing != target {
      var x := g.issuers[i].(standing := target, version := g.issuers[i].version + 1);
      TrailsAfter(g.audit, AuditEvent(i, StandingSet, x.version, x.standing));
      assert IssuerInv(g, i);
      LongerTrail(g, Change(g, i, target, reason, permitted), l, i, x);
    }
  }

  lemma BeginInv(g: Registry, l: Lifetimes, i: Id, permitted: bool, signer: bool)
    requires Inv(g, l)
    ensures Inv(Begin(g, i, permitted, signer), l) && Grows(g, Begin(g, i, permitted, signer))
  {
    if BeginRefusal(g, i, permitted, signer).None? {
      var d := Begin(g, i, permitted, signer);
      NewPublication(g, d, l, i);
      hide Trail, PublicationInv, StatementInv, IssuerInv, Inv;
      forall p | p in d.publications ensures PublicationInv(d, l, p) {
        if p != g.next {
          PublicationIssuer(g, l, p);
          PublicationCarries(g, d, l, p);
        }
      }
      forall p | p in d.statements ensures StatementInv(d, l, p) {
        StatementPublication(g, l, p);
        PublicationIssuer(g, l, p);
        StatementCarries(g, d, l, p);
      }
      SameTrails(g, d, l);
    }
  }

  lemma NewPublication(g: Registry, d: Registry, l: Lifetimes, i: Id)
    requires Inv(g, l) && i in g.issuers && d.issuers == g.issuers && d.audit == g.audit && g.next < d.next
    requires d.publications == g.publications[g.next := Publication(i, g.issuers[i].version, g.issuers[i].standing, Requested)]
    ensures PublicationInv(d, l, g.next)
  {
    hide Trail;
    assert IssuerInv(g, i);
  }

  lemma DraftInv(g: Registry, l: Lifetimes, p: Id, reloaded: bool, now: int)
    requires Inv(g, l)
    ensures Inv(Draft(g, p, reloaded, l, now), l) && Grows(g, Draft(g, p, reloaded, l, now))
  {
    if Open(g, p) && p !in g.statements {
      var d := Draft(g, p, reloaded, l, now);
      PublicationIssuer(g, l, p);
      NewStatement(g, d, l, p);
      hide Trail, PublicationInv, StatementInv, IssuerInv, Inv;
      forall q | q in d.publications ensures PublicationInv(d, l, q) {
        PublicationIssuer(g, l, q);
        PublicationCarries(g, d, l, q);
      }
      forall q | q in d.statements ensures StatementInv(d, l, q) {
        if q != p {
          StatementPublication(g, l, q);
          StatementCarries(g, d, l, q);
        }
      }
      SameTrails(g, d, l);
    }
  }

  lemma NewStatement(g: Registry, d: Registry, l: Lifetimes, p: Id)
    requires p in g.publications && PublicationInv(g, l, p) && IssuerInv(g, g.publications[p].issuer)
    requires d.issuers == g.issuers && d.publications == g.publications && p in d.statements
    requires d.statements[p].issuer == g.publications[p].issuer && d.statements[p].expiresAt == d.statements[p].issuedAt + l.ttl
    requires d.statements[p].status in {g.publications[p].standing, g.issuers[g.publications[p].issuer].standing}
    ensures StatementInv(d, l, p)
  {
    hide Trail;
  }

  /** What the second transaction leaves alone. */
  lemma CompleteUnfold(g: Registry, p: Id, signed: bool, now: int)
    requires Open(g, p) && p in g.statements
    ensures var d := Complete(g, p, signed, now);
            && d.issuers == g.issuers && d.next == g.next && |d.audit| == |g.audit| + 1 && d.audit == g.audit + [d.audit[|g.audit|]]
            && d.audit[|g.audit|].kind !in {Registered, StandingSet}
            && d.publications.Keys == g.publications.Keys && d.statements == g.statements - {p}
            && (forall q :: q in g.publications && q != p ==> d.publications[q] == g.publications[q])
            && d.publications[p] == g.publications[p].(progress := d.publications[p].progress)
            && (d.publications[p].progress.Completed? ==>
                  d.publications[p].progress.artifact == g.statements[p] && g.issuers[g.publications[p].issuer].version == g.publications[p].version)
  {
  }

  lemma CompleteInv(g: Registry, l: Lifetimes, p: Id, signed: bool, now: int)
    requires Inv(g, l)
    ensures Inv(Complete(g, p, signed, now), l) && Grows(g, Complete(g, p, signed, now))
  {
    if Open(g, p) && p in g.statements {
      var d := Complete(g, p, signed, now);
      PublicationIssuer(g, l, p);
      StatementPublication(g, l, p);
      CompleteUnfold(g, p, signed, now);
      TrailsAfter(g.audit, d.audit[|g.audit|]);
      hide Complete, Trail;
      DonePublication(g, d, l, p);
      hide Trail, PublicationInv, StatementInv, IssuerInv, Inv;
      forall q | q in d.publications ensures PublicationInv(d, l, q) {
        if q != p {
          PublicationIssuer(g, l, q);
          PublicationCarries(g, d, l, q);
        }
      }
      forall q | q in d.statements ensures StatementInv(d, l, q) {
        StatementPublication(g, l, q);
        StatementCarries(g, d, l, q);
      }
      SameTrails(g, d, l);
    }
  }

  lemma DonePublication(g: Registry, d: Registry, l: Lifetimes, p: Id)
    requires p in g.publications && PublicationInv(g, l, p) && p in g.statements && StatementInv(g, l, p) && p in d.publications
    requires d.issuers == g.issuers && d.next == g.next && Trail(d.audit, g.publications[p].issuer) == Trail(g.audit, g.publications[p].issuer)
    requires d.publications[p] == g.publications[p].(progress := d.publications[p].progress)
    requires d.publications[p].progress.Completed? ==>
               d.publications[p].progress.artifact == g.statements[p] && g.issuers[g.publications[p].issuer].version == g.publications[p].version
    ensures PublicationInv(d, l, p)
  {
    hide Trail;
  }

  lemma {:induction false} StepInv(g: Registry, l: Lifetimes, s: Section)
    requires Inv(g, l)
    ensures Inv(Step(g, l, s), l) && Grows(g, Step(g, l, s))
  {
    hide Inv, Grows, Register, Change, Begin, Draft, Complete;
    match s
    case Enrol(identity, permitted) => RegisterInv(g, l, identity, permitted);
    case SetStanding(i, target, reason, permitted) => ChangeInv(g, l, i, target, reason, permitted);
    case StartPublication(i, permitted, signer) => BeginInv(g, l, i, permitted, signer);
    case DraftStatement(p, reloaded, now) => DraftInv(g, l, p, reloaded, now);
    case FinishPublication(p, signed, now) => CompleteInv(g, l, p, signed, now);
  }

  lemma {:induction false} AfterInv(l: Lifetimes, run: seq<Section>)
    ensures Inv(After(l, run), l)
  {
    if run != [] {
      AfterInv(l, run[..|run| - 1]);
      StepInv(After(l, run[..|run| - 1]), l, run[|run| - 1]);
      hide Inv, Step;
    }
  }

  lemma GrowsTransitive(a: Registry, b: Registry, c: Registry)
    requires Grows(a, b) && Grows(b, c)
    ensures Grows(a, c)
  {
    hide Trail;
    forall i ensures Trail(a.audit, i) <= Trail(c.audit, i) {
      assert Trail(a.audit, i) <= Trail(b.audit, i) <= Trail(c.audit, i);
    }
  }

  lemma {:induction false} RunGrows(l: Lifetimes, run: seq<Section>, k: nat)
    requires k <= |run|
    ensures Grows(After(l, run[..k]), After(l, run))
  {
    if k == |run| {
      assert run[..k] == run;
    } else {
      var before := run[..|run| - 1];
      assert before[..k] == run[..k];
      RunGrows(l, before, k);
      AfterInv(l, before);
      StepInv(After(l, before), l, run[|run| - 1]);
      GrowsTransitive(After(l, run[..k]), After(l, before), After(l, run));
      hide Inv, Step, Grows;
    }
  }

  // ----- What is served -----

  /** In every interleaving, an artifact served reports the issuer's present standing and is younger than the staleness limit. */
  lemma ServedIsCurrent(l: Lifetimes, run: seq<Section>, i: Id, now: int, r: Result<Artifact, RegistryError>)
    requires Configured(l) && Serves(After(l, run), i, now, r) && r.Ok?
    ensures var g := After(l, run);
            && i in g.issuers && r.value.issuer == i && r.value.status == g.issuers[i].standing
            && now < r.value.issuedAt + l.ttl && now - r.value.issuedAt < l.maxStaleness
  {
    AfterInv(l, run);
    hide After, Trail, Inv, PublicationInv, IssuerInv;
    var g := After(l, run);
    var p :| Candidate(g, i, p) && r == (var a := g.publications[p].progress.artifact; if a.expiresAt <= now then Err(ArtifactExpired) else Ok(a));
    PublicationIssuer(g, l, p);
    CandidateIsCurrent(g, l, i, p);
  }

  lemma CandidateIsCurrent(g: Registry, l: Lifetimes, i: Id, p: Id)
    requires Candidate(g, i, p) && PublicationInv(g, l, p) && IssuerInv(g, i)
    ensures var a := g.publications[p].progress.artifact;
            a.issuer == i && a.status == g.issuers[i].standing && a.expiresAt == a.issuedAt + l.ttl
  {
    hide Trail;
  }

  /** Versions only grow, and what the trail says of a version never changes: one version, one standing. */
  lemma OneVersionOneStanding(l: Lifetimes, run: seq<Section>, k: nat, i: Id)
    requires k <= |run| && i in After(l, run[..k]).issuers
    ensures var a, b := After(l, run[..k]), After(l, run);
            && i in b.issuers
            && a.issuers[i].version <= b.issuers[i].version
            && (a.issuers[i].version == b.issuers[i].version ==> a.issuers[i].standing == b.issuers[i].standing)
            && 1 <= a.issuers[i].version <= |Trail(b.audit, i)|
            && Trail(b.audit, i)[a.issuers[i].version - 1] == a.issuers[i].standing
  {
    hide *;
    RunGrows(l, run, k);
    AfterInv(l, run[..k]);
    AfterInv(l, run);
    GrownIssuer(After(l, run[..k]), After(l, run), l, i);
  }

  lemma GrownIssuer(a: Registry, b: Registry, l: Lifetimes, i: Id)
    requires Inv(a, l) && Inv(b, l) && Grows(a, b) && i in a.issuers
    ensures i in b.issuers && a.issuers[i].version <= b.issuers[i].version
    ensures a.issuers[i].version == b.issuers[i].version ==> a.issuers[i].standing == b.issuers[i].standing
    ensures 1 <= a.issuers[i].version <= |Trail(b.audit, i)| && Trail(b.audit, i)[a.issuers[i].version - 1] == a.issuers[i].standing
  {
    hide Trail, PublicationInv, StatementInv;
    assert IssuerInv(a, i) && IssuerInv(b, i);
    assert Trail(a.audit, i) <= Trail(b.audit, i);
  }

  /** After a committed revocation the issuer stays revoked, and nothing served ever says otherwise. */
  lemma RevocationIsFinal(l: Lifetimes, run: seq<Section>, k: nat, i: Id, now: int, r: Result<Artifact, RegistryError>)
    requires Configured(l) && k <= |run| && i in After(l, run[..k]).issuers && After(l, run[..k]).issuers[i].standing == Revoked
    ensures i in After(l, run).issuers && After(l, run).issuers[i] == After(l, run[..k]).issuers[i].(identity := After(l, run).issuers[i].identity)
    ensures Serves(After(l, run), i, now, r) && r.Ok? ==> r.value.status == Revoked
  {
    OneVersionOneStanding(l, run, k, i);
    AfterInv(l, run[..k]);
    AfterInv(l, run);
    hide After, Trail, Serves, Inv;
    var a, b := After(l, run[..k]), After(l, run);
    RevokedIsLast(a, b, l, i);
    if Serves(After(l, run), i, now, r) && r.Ok? {
      ServedIsCurrent(l, run, i, now, r);
    }
  }

  lemma RevokedIsLast(a: Registry, b: Registry, l: Lifetimes, i: Id)
    requires Inv(a, l) && Inv(b, l) && i in a.issuers && i in b.issuers && a.issuers[i].standing == Revoked
    requires 1 <= a.issuers[i].version <= |Trail(b.audit, i)| && Trail(b.audit, i)[a.issuers[i].version - 1] == Revoked
    ensures b.issuers[i].standing == Revoked && b.issuers[i].version == a.issuers[i].version
  {
    hide Trail;
    assert IssuerInv(b, i);
  }

  /** A publication overtaken by a standing change never completes as it stands. */
  lemma OvertakenFails(g: Registry, l: Lifetimes, p: Id, signed: bool, now: int)
    requires Inv(g, l) && Open(g, p) && p in g.statements
    ensures var row, d := g.publications[p], Complete(g, p, signed, now);
            d.publications[p].progress.Completed? <==> signed && g.issuers[row.issuer].version == row.version
  {
    assert PublicationInv(g, l, p) && IssuerInv(g, g.publications[p].issuer);
    hide Trail;
  }

  lemma PublicationKept(g: Registry, l: Lifetimes, s: Section, p: Id)
    requires p in g.publications && p < g.next
    ensures var d := Step(g, l, s);
            && p in d.publications && p < d.next
            && d.publications[p] == g.publications[p].(progress := d.publications[p].progress)
            && (d.publications[p] != g.publications[p] ==> g.publications[p].progress.Requested? && s.FinishPublication? && s.publication == p)
  {
  }

  lemma {:induction false} PublicationStays(l: Lifetimes, run: seq<Section>, k: nat, p: Id)
    requires k <= |run| && p in After(l, run[..k]).publications
    ensures p in After(l, run).publications
    ensures var a, b := After(l, run[..k]).publications[p], After(l, run).publications[p];
            b == a.(progress := b.progress) && (!a.progress.Requested? ==> b == a)
  {
    if k == |run| {
      assert run[..k] == run;
    } else {
      var before := run[..|run| - 1];
      assert before[..k] == run[..k];
      PublicationStays(l, before, k, p);
      AfterInv(l, before);
      PublicationIssuer(After(l, before), l, p);
      PublicationKept(After(l, before), l, run[|run| - 1], p);
      hide Step, Inv;
    }
  }

  /**
    A publication that completes was undisturbed: from the section that started it to the one that
    completed it, its issuer's version and standing never changed, and the artifact reports them.
  */
  lemma {:induction false} CompletedWasUndisturbed(l: Lifetimes, run: seq<Section>, b: nat, c: nat, p: Id, j: nat)
    requires b <= j <= c < |run| && p in After(l, run[..b]).publications
    requires p in After(l, run[..c]).publications && After(l, run[..c]).publications[p].progress.Requested?
    requires p in After(l, run[..c + 1]).publications && After(l, run[..c + 1]).publications[p].progress.Completed?
    ensures var g, row := After(l, run[..j]), After(l, run[..c + 1]).publications[p];
            && row.issuer in g.issuers && g.issuers[row.issuer].version == row.version
            && g.issuers[row.issuer].standing == row.progress.artifact.status
  {
    hide After, Step, Inv, Trail, PublicationInv, StatementInv, IssuerInv;
    AfterInv(l, run[..b]);
    AfterInv(l, run[..j]);
    AfterInv(l, run[..c]);
    AfterInv(l, run[..c + 1]);
    assert run[..c][..b] == run[..b] && run[..j][..b] == run[..b] && run[..c][..j] == run[..j] && run[..c + 1][..c] == run[..c];
    PublicationStays(l, run[..c], b, p);
    PublicationStays(l, run[..j], b, p);
    PublicationStays(l, run[..c + 1], c, p);
    var row := After(l, run[..c]).publications[p];
    PublicationIssuer(After(l, run[..b]), l, p);
    StartedBelow(After(l, run[..b]), l, p);
    OneVersionOneStanding(l, run[..j], b, row.issuer);
    OneVersionOneStanding(l, run[..c], j, row.issuer);
    FinishingStep(l, run, c);
    PublicationIssuer(After(l, run[..c]), l, p);
    FinishedMeans(After(l, run[..c]), l, run[c], p);
    PublicationIssuer(After(l, run[..c + 1]), l, p);
    CompletedStatus(After(l, run[..c + 1]), l, p);
  }

  lemma FinishingStep(l: Lifetimes, run: seq<Section>, c: nat)
    requires c < |run|
    ensures After(l, run[..c + 1]) == Step(After(l, run[..c]), l, run[c])
  {
    assert run[..c + 1][..c] == run[..c];
    hide Step;
  }

  lemma StartedBelow(g: Registry, l: Lifetimes, p: Id)
    requires p in g.publications && PublicationInv(g, l, p) && IssuerInv(g, g.publications[p].issuer)
    ensures g.publications[p].version <= g.issuers[g.publications[p].issuer].version
  {
    hide Trail;
  }

  lemma FinishedMeans(g: Registry, l: Lifetimes, s: Section, p: Id)
    requires p in g.publications && g.publications[p].progress.Requested? && p < g.next
    requires p in Step(g, l, s).publications && Step(g, l, s).publications[p].progress.Completed?
    ensures var row := g.publications[p];
            row.issuer in g.issuers && g.issuers[row.issuer].version == row.version && g.issuers[row.issuer].standing == row.standing
  {
    PublicationKept(g, l, s, p);
  }

  lemma CompletedStatus(g: Registry, l: Lifetimes, p: Id)
    requires p in g.publications && PublicationInv(g, l, p) && g.publications[p].progress.Completed?
    ensures g.publications[p].progress.artifact.status == g.publications[p].standing
  {
    hide Trail;
  }

  // ----- The service -----

  ghost predicate LastOf(g: Registry, i: Id, p: Id) {
    Candidate(g, i, p) && forall q :: Candidate(g, i, q) ==> g.publications[q].progress.at <= g.publications[p].progress.at
  }

  class IssuerRegistryService {
    var registry: Registry
    const lifetimes: Lifetimes

    constructor (lifetimes: Lifetimes)
      requires Configured(lifetimes)
      ensures registry == EMPTY && this.lifetimes == lifetimes
    {
      registry, this.lifetimes := EMPTY, lifetimes;
    }

    /** `_find_by_identity`. */
    method FindByIdentity(identity: Identity) returns (r: Option<Id>)
      ensures r.Some? ==> r.value in registry.issuers && registry.issuers[r.value].identity == identity
      ensures r.None? ==> forall i :: i in registry.issuers ==> registry.issuers[i].identity != identity
    {
      var rows := registry.issuers;
      var todo := rows.Keys;
      while todo != {}
        invariant todo <= rows.Keys
        invariant forall i :: i in rows.Keys - todo ==> rows[i].identity != identity
        decreases |todo|
      {
        var i :| i in todo;
        if rows[i].identity == identity {
          return Some(i);
        }
        todo := todo - {i};
      }
      r := None;
    }

    /** `register_issuer`. */
    method RegisterIssuer(identity: Identity, permitted: bool) returns (r: Result<Id, RegistryError>)
      modifies this`registry
      ensures registry == Register(old(registry), identity, permitted)
      ensures r == RegisterAnswer(old(registry), identity, permitted)
    {
      if !permitted {
        return Err(Unauthorised);
      }
      var existing := FindByIdentity(identity);
      if existing.Some? {
        return Err(AlreadyRegistered);
      }
      var i := registry.next;
      registry := registry.(issuers := registry.issuers[i := Issuer(identity, GoodStanding, 1)], next := i + 1);
      registry := registry.(audit := registry.audit + [AuditEvent(i, Registered, 1, GoodStanding)]);
      r := Ok(i);
    }

    /** `_change_standing`; asking for the present standing changes nothing. */
    method ChangeStanding(i: Id, target: Standing, reason: string, permitted: bool)
      returns (r: Result<Issuer, RegistryError>)
      modifies this`registry
      ensures registry == Change(old(registry), i, target, reason, permitted)
      ensures r.Err? <==> ChangeRefusal(old(registry), i, target, reason, permitted).Some?
      ensures r.Err? ==> ChangeRefusal(old(registry), i, target, reason, permitted) == Some(r.error)
      ensures r.Ok? ==> i in registry.issuers && r.value == registry.issuers[i] && r.value.standing == target
    {
      if !permitted {
        return Err(Unauthorised);
      }
      if Strip(reason) == "" {
        return Err(ReasonMissing);
      }
      if i !in registry.issuers {
        return Err(NotFound);
      }
      var row := registry.issuers[i];
      if row.standing == Revoked && target != Revoked {
        return Err(RevokedIsFinal);
      }
      if row.standing == target {
        return Ok(row);
      }
      row := row.(standing := target);
      row := row.(version := row.version + 1);
      registry := registry.(issuers := registry.issuers[i := row]);
      registry := registry.(audit := registry.audit + [AuditEvent(i, StandingSet, row.version, target)]);
      r := Ok(row);
    }

    /** `reinstate_issuer` looks at the row before anything else, permission included. */
    method ReinstateIssuer(i: Id, reason: string, permitted: bool) returns (r: Result<Issuer, RegistryError>)
      modifies this`registry
      ensures i !in old(registry).issuers ==> r == Err(NotFound) && registry == old(registry)
      ensures i in old(registry).issuers && old(registry).issuers[i].standing == Revoked ==> r == Err(RevokedIsFinal) && registry == old(registry)
      ensures i in old(registry).issuers && old(registry).issuers[i].standing != Revoked ==>
                registry == Change(old(registry), i, GoodStanding, reason, permitted)
    {
      if i !in registry.issuers {
        return Err(NotFound);
      }
      if registry.issuers[i].standing == Revoked {
        return Err(RevokedIsFinal);
      }
      r := ChangeStanding(i, GoodStanding, reason, permitted);
    }

    /** First transaction of `publish_status`. */
    method BeginPublication(i: Id, permitted: bool, signer: bool) returns (r: Result<Id, RegistryError>)
      modifies this`registry
      ensures registry == Begin(old(registry), i, permitted, signer)
      ensures r == (var e := BeginRefusal(old(registry), i, permitted, signer); if e.Some? then Err(e.value) else Ok(old(registry).next))
    {
      if !permitted {
        return Err(Unauthorised);
      }
      if !signer {
        return Err(SignerMissing);
      }
      if i !in registry.issuers {
        return Err(NotFound);
      }
      var p, row := registry.next, registry.issuers[i];
      registry := registry.(publications := registry.publications[p := Publication(i, row.version, row.standing, Requested)], next := p + 1);
      r := Ok(p);
    }

    method DraftStatement(p: Id, reloaded: bool, now: int)
      requires Open(registry, p) && p !in registry.statements
      modifies this`registry
      ensures registry == Draft(old(registry), p, reloaded, lifetimes, now) && p in registry.statements
    {
      var row := registry.publications[p];
      var status := if reloaded then registry.issuers[row.issuer].standing else row.standing;
      registry := registry.(statements := registry.statements[p := Artifact(row.issuer, status, now, now + lifetimes.ttl)]);
    }

    /** Second transaction of `publish_status`. */
    method CompletePublication(p: Id, signed: bool, now: int) returns (r: Result<Artifact, RegistryError>)
      requires Open(registry, p) && p in registry.statements
      modifies this`registry
      ensures registry == Complete(old(registry), p, signed, now)
      ensures r == (var e := Verdict(old(registry), p, signed); if e.Some? then Err(e.value) else Ok(old(registry).statements[p]))
    {
      var row, statement := registry.publications[p], registry.statements[p];
      var present := registry.issuers[row.issuer];
      registry := registry.(statements := registry.statements - {p});
      var seen := present;
      if !signed {
        r := Err(SigningFailed);
        seen := present.(version := row.version, standing := row.standing);
      } else if present.version != row.version || present.standing != row.standing {
        r := Err(StandingChanged);
      } else {
        r := Ok(statement);
      }
      var kind := if r.Ok? then Published else PublicationFailed;
      var progress := if r.Ok? then Completed(statement, now) else Failed(r.error);
      registry := registry.(publications := registry.publications[p := row.(progress := progress)],
                            audit := registry.audit + [AuditEvent(row.issuer, kind, seen.version, seen.standing)]);
    }

    /** `publish_status` when nobody interferes: it completes exactly when the signer does. */
    method PublishStatus(i: Id, permitted: bool, signer: bool, signed: bool, now: int)
      returns (r: Result<Artifact, RegistryError>)
      requires Inv(registry, lifetimes)
      modifies this`registry
      ensures Inv(registry, lifetimes) && registry.issuers == old(registry).issuers
      ensures r.Ok? <==> permitted && signer && i in registry.issuers && signed
      ensures r.Ok? ==> r.value == Artifact(i, registry.issuers[i].standing, now, now + lifetimes.ttl) && Candidate(registry, i, old(registry).next)
    {
      hide Inv;
      BeginInv(registry, lifetimes, i, permitted, signer);
      NewId(registry, lifetimes);
      var began := BeginPublication(i, permitted, signer);
      if began.Err? {
        return Err(began.error);
      }
      DraftInv(registry, lifetimes, began.value, false, now);
      DraftStatement(began.value, false, now);
      CompleteInv(registry, lifetimes, began.value, signed, now);
      r := CompletePublication(began.value, signed, now);
    }

    /** `revoke_issuer`: the revocation is committed before signing, so a failed publication does not undo it. */
    method RevokeIssuer(i: Id, reason: string, permitted: bool, publisher: bool, signer: bool, signed: bool, now: int)
      returns (r: Result<Artifact, RegistryError>)
      requires Inv(registry, lifetimes)
      modifies this`registry
      ensures Inv(registry, lifetimes)
      ensures ChangeRefusal(old(registry), i, Revoked, reason, permitted).None? ==> i in registry.issuers && registry.issuers[i].standing == Revoked
      ensures r.Ok? ==> r.value.issuer == i && r.value.status == Revoked
      ensures ChangeRefusal(old(registry), i, Revoked, reason, permitted).Some? ==> r.Err? && registry == old(registry)
    {
      hide Inv;
      ChangeInv(registry, lifetimes, i, Revoked, reason, permitted);
      var changed := ChangeStanding(i, Revoked, reason, permitted);
      if changed.Err? {
        return Err(changed.error);
      }
      r := PublishStatus(i, publisher, signer, signed, now);
    }

    /** `latest_status_artifact`. */
    method LatestStatusArtifact(i: Id, now: int) returns (r: Result<Artifact, RegistryError>)
      ensures Serves(registry, i, now, r)
    {
      if i !in registry.issuers {
        return Err(NotFound);
      }
      var rows, version := registry.publications, registry.issuers[i].version;
      var last: Option<Id> := None;
      var todo := rows.Keys;
      while todo != {}
        invariant todo <= rows.Keys
        invariant last.Some? ==> Candidate(registry, i, last.value)
        invariant forall q :: q in rows.Keys - todo && Candidate(registry, i, q) ==>
                    last.Some? && rows[q].progress.at <= rows[last.value].progress.at
        decreases |todo|
      {
        var q :| q in todo;
        if rows[q].issuer == i && rows[q].version == version && rows[q].progress.Completed? {
          assert Candidate(registry, i, q);
          if last.None? || rows[q].progress.at > rows[last.value].progress.at {
            last := Some(q);
          }
        }
        todo := todo - {q};
      }
      if last.None? {
        return Err(NoArtifact);
      }
      assert LastOf(registry, i, last.value);
      var a := rows[last.value].progress.artifact;
      r := if a.expiresAt <= now then Err(ArtifactExpired) else Ok(a);
    }
  }

  lemma NewId(g: Registry, l: Lifetimes)
    requires Inv(g, l)
    ensures g.next !in g.publications && g.next !in g.statements && g.next !in g.issuers
  {
    hide Trail;
    assert forall p :: p in g.publications ==> PublicationInv(g, l, p) && p < g.next;
    assert forall p :: p in g.statements ==> StatementInv(g, l, p) && p in g.publications;
    assert forall i :: i in g.issuers ==> IssuerInv(g, i) && i < g.next;
  }
}
