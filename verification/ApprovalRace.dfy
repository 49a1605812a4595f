/**
  Overlapping callers of `approvals.py` on one approval request.  A caller reads the request and its
  decisions, decides on what it saw, and commits later: it inserts its own decision, which the unique
  index on request and principal can refuse, and it writes the status only when it differs from the
  status it read.  No write looks at what the row has become.
*/
module ApprovalRace {
  import opened Hashing
  import opened PolicyEngine
  import opened ControlPlane
  import opened Approvals

  datatype Write = Decide(decision: Decision) | Expire

  /** A caller between its read and its commit. */
  datatype Work = Work(seen: ApprovalRequest, write: Write)

  datatype State = State(request: ApprovalRequest, pending: map<nat, Work>)

  datatype Action = Read(caller: nat, write: Write, now: int) | Commit(caller: nat) | Abandon(caller: nat)

  /** The checks a caller makes on the request it read. */
  predicate Permitted(r: ApprovalRequest, requester: Principal, w: Write, now: int) {
    match w
    case Expire => Due(r, now)
    case Decide(d) =>
      && r.status == RequestPending && !Due(r, now) && MayDecide(r, requester, d.decider, d.roles)
      && forall i :: 0 <= i < |r.decisions| ==> r.decisions[i].decider != d.decider
  }

  predicate HasDecided(r: ApprovalRequest, p: Principal) {
    exists i :: 0 <= i < |r.decisions| && r.decisions[i].decider == p
  }

  /** Assignments that were still open on reading are written as expired. */
  function ExpireSeen(a: seq<Assignment>, seen: seq<Assignment>): (b: seq<Assignment>)
    ensures |b| == |a| && forall i :: 0 <= i < |a| ==> b[i].principal == a[i].principal
  {
    seq(|a|, i requires 0 <= i < |a| => if i < |seen| && seen[i].status == Assigned then a[i].(status := AssignmentExpired) else a[i])
  }

  /** The rows after the commit. */
  function Written(r: ApprovalRequest, w: Work): (r': ApprovalRequest) {
    match w.write
    case Expire => r.(status := RequestExpired, assignments := ExpireSeen(r.assignments, w.seen.assignments))
    case Decide(d) =>
      var target := StatusAfter(w.seen, d);
      r.(decisions := r.decisions + [d], assignments := CompleteAssignments(r.assignments, d.decider),
         status := if target == w.seen.status then r.status else target)
  }

  /** The unique index lets the decision in. */
  predicate Effective(s: State, a: Action) {
    a.Commit? && a.caller in s.pending &&
    (s.pending[a.caller].write.Decide? ==> !HasDecided(s.request, s.pending[a.caller].write.decision.decider))
  }

  function Step(s: State, requester: Principal, a: Action): (s': State) {
    match a
    case Read(t, w, now) =>
      if t !in s.pending && Permitted(s.request, requester, w, now) then s.(pending := s.pending[t := Work(s.request, w)]) else s
    case Abandon(t) => s.(pending := s.pending - {t})
    case Commit(t) =>
      var done := s.(pending := s.pending - {t});
      if Effective(s, a) then done.(request := Written(s.request, s.pending[t])) else done
  }

  function After(r: ApprovalRequest, requester: Principal, run: seq<Action>): (s: State) {
    if run == [] then State(r, map[]) else Step(After(r, requester, run[..|run| - 1]), requester, run[|run| - 1])
  }

  // ----- What holds in every interleaving -----

  /** What a reading still says about the request later on. */
  ghost predicate Later(w: Work, r: ApprovalRequest, requester: Principal) {
    && w.seen.decisions <= r.decisions && w.seen.required == r.required && w.seen.status == RequestPending
    && (w.write.Decide? ==> MayDecide(r, requester, w.write.decision.decider, w.write.decision.roles))
  }

  ghost predicate Entitled(r: ApprovalRequest, requester: Principal) {
    DistinctDeciders(r.decisions) && forall d :: d in r.decisions ==> MayDecide(r, requester, d.decider, d.roles)
  }

  ghost predicate Inv(s: State, requester: Principal) {
    && s.request.required >= 1 && s.request.status != RequestCanceled
    && Entitled(s.request, requester)
    && (s.request.status == RequestSatisfied ==> ApprovalCount(s.request.decisions) >= s.request.required)
    && (forall t :: t in s.pending ==> Later(s.pending[t], s.request, requester))
  }

  lemma {:induction false} CountPrefix(a: seq<Decision>, b: seq<Decision>)
    requires a <= b
    ensures ApprovalCount(a) <= ApprovalCount(b)
    decreases |b|
  {
    if |a| == |b| {
      assert a == b;
    } else {
      CountPrefix(a, b[..|b| - 1]);
    }
  }

  lemma WrittenEntitled(r: ApprovalRequest, w: Work, requester: Principal)
    requires Entitled(r, requester) && Later(w, r, requester)
    requires w.write.Decide? ==> !HasDecided(r, w.write.decision.decider)
    ensures Entitled(Written(r, w), requester)
  {
    hide StatusAfter;
    var r' := Written(r, w);
    forall d | d in r'.decisions ensures MayDecide(r', requester, d.decider, d.roles) {
      SameAssignees(r, r', d.decider);
    }
  }

  lemma WrittenStatus(r: ApprovalRequest, w: Work, requester: Principal)
    requires Later(w, r, requester) && r.status != RequestCanceled
    requires r.status == RequestSatisfied ==> ApprovalCount(r.decisions) >= r.required
    ensures var r' := Written(r, w);
            && r'.required == r.required && r'.status != RequestCanceled && r.decisions <= r'.decisions
            && (r'.status == RequestSatisfied ==> ApprovalCount(r'.decisions) >= r.required)
  {
    hide MayDecide;
    if w.write.Decide? {
      CountPrefix(w.seen.decisions, r.decisions);
      CountSnoc(w.seen.decisions, w.write.decision);
      CountSnoc(r.decisions, w.write.decision);
    }
  }

  lemma LaterStays(w: Work, r: ApprovalRequest, v: Work, requester: Principal)
    requires Later(w, r, requester)
    ensures Later(w, Written(r, v), requester)
  {
    hide StatusAfter;
    if w.write.Decide? {
      SameAssignees(r, Written(r, v), w.write.decision.decider);
    }
  }

  lemma StepInv(s: State, requester: Principal, a: Action)
    requires Inv(s, requester)
    ensures Inv(Step(s, requester, a), requester)
  {
    hide Entitled, Later, Written, Permitted, HasDecided;
    match a
    case Read(t, w, now) =>
      if t !in s.pending && Permitted(s.request, requester, w, now) {
        assert Later(Work(s.request, w), s.request, requester) by {
          ReadIsLater(s.request, requester, w, now);
        }
      }
    case Abandon(_) =>
    case Commit(t) =>
      if Effective(s, a) {
        WrittenEntitled(s.request, s.pending[t], requester);
        WrittenStatus(s.request, s.pending[t], requester);
        forall u | u in s.pending ensures Later(s.pending[u], Written(s.request, s.pending[t]), requester) {
          LaterStays(s.pending[u], s.request, s.pending[t], requester);
        }
      }
  }

  lemma ReadIsLater(r: ApprovalRequest, requester: Principal, w: Write, now: int)
    requires Permitted(r, requester, w, now)
    ensures Later(Work(r, w), r, requester)
  {
  }

  ghost predicate Opened(r: ApprovalRequest, requester: Principal) {
    RequestInv(r, requester) && r.status == RequestPending
  }

  lemma {:induction false} AfterInv(r: ApprovalRequest, requester: Principal, run: seq<Action>)
    requires Opened(r, requester)
    ensures Inv(After(r, requester, run), requester)
  {
    if run != [] {
      AfterInv(r, requester, run[..|run| - 1]);
      StepInv(After(r, requester, run[..|run| - 1]), requester, run[|run| - 1]);
      hide Step, Inv;
    }
  }

  /**
    For every interleaving: a satisfied request has at least the required number of different
    principals who approved, each entitled to decide, and nobody decides twice.
  */
  lemma {:induction false} SatisfiedHasQuorum(r: ApprovalRequest, requester: Principal, run: seq<Action>)
    requires Opened(r, requester)
    ensures var d := After(r, requester, run).request;
            && DistinctDeciders(d.decisions)
            && (d.status == RequestSatisfied ==> |Approvers(d.decisions)| >= d.required)
            && (forall p :: p in Approvers(d.decisions) ==>
                  exists e :: e in d.decisions && e.decider == p && e.approve && MayDecide(d, requester, p, e.roles))
  {
    AfterInv(r, requester, run);
    ApproversCounted(After(r, requester, run).request.decisions);
    hide After, MayDecide;
  }

  // ----- When the status tells the decisions -----

  /** The status is what the decisions imply. */
  ghost predicate Tells(r: ApprovalRequest) {
    && (r.status == RequestRejected <==> !NoRejection(r.decisions))
    && (r.status == RequestSatisfied <==> NoRejection(r.decisions) && ApprovalCount(r.decisions) >= r.required)
  }

  /** The caller counts a quorum with its own approval. */
  predicate Counts(r: ApprovalRequest) {
    ApprovalCount(r.decisions) + 1 >= r.required
  }

  /**
    What a caller concluded from its reading still fits when it commits: an approval that finds the request
    not yet satisfied counted a quorum exactly when there now is one, and an expiry finds the request
    neither satisfied nor rejected.
  */
  ghost predicate Fits(s: State, a: Action) {
    Effective(s, a) ==>
      var w := s.pending[a.caller];
      match w.write
      case Expire => s.request.status in {RequestPending, RequestExpired}
      case Decide(d) =>
        d.approve && s.request.status != RequestSatisfied ==> (Counts(w.seen) <==> NoRejection(s.request.decisions) && Counts(s.request))
  }

  lemma ApprovalWritten(r: ApprovalRequest, w: Work)
    requires w.write.Decide? && w.seen.status == RequestPending && w.seen.required == r.required
    ensures var r', d := Written(r, w), w.write.decision;
            && r'.required == r.required
            && (NoRejection(r'.decisions) <==> NoRejection(r.decisions) && d.approve)
            && (ApprovalCount(r'.decisions) >= r.required <==> if d.approve then Counts(r) else ApprovalCount(r.decisions) >= r.required)
            && r'.status == (if !d.approve then RequestRejected else if Counts(w.seen) then RequestSatisfied else r.status)
  {
    var d := w.write.decision;
    CountSnoc(w.seen.decisions, d);
    CountSnoc(r.decisions, d);
    assert d in r.decisions + [d];
    assert forall e :: e in r.decisions + [d] <==> e in r.decisions || e == d;
    hide ApprovalCount;
  }

  lemma WrittenTells(r: ApprovalRequest, w: Work, requester: Principal)
    requires Tells(r) && Later(w, r, requester)
    ensures Tells(Written(r, w)) <==>
              match w.write
              case Expire => r.status in {RequestPending, RequestExpired} || r.status == RequestCanceled
              case Decide(d) => d.approve && r.status != RequestSatisfied ==> (Counts(w.seen) <==> NoRejection(r.decisions) && Counts(r))
  {
    hide MayDecide, NoRejection, ApprovalCount;
    if w.write.Decide? {
      ApprovalWritten(r, w);
      hide Written;
    }
  }

  lemma StepTells(s: State, requester: Principal, a: Action)
    requires Inv(s, requester) && Tells(s.request)
    ensures Tells(Step(s, requester, a).request) <==> Fits(s, a)
  {
    hide Tells, Written, Permitted, HasDecided, Counts, NoRejection, Entitled, Later;
    if Effective(s, a) {
      WrittenTells(s.request, s.pending[a.caller], requester);
    }
  }

  ghost predicate AlwaysTells(r: ApprovalRequest, requester: Principal, run: seq<Action>) {
    forall k :: 0 <= k <= |run| ==> Tells(After(r, requester, run[..k]).request)
  }

  ghost predicate AllFit(r: ApprovalRequest, requester: Principal, run: seq<Action>) {
    forall k :: 0 <= k < |run| ==> Fits(After(r, requester, run[..k]), run[k])
  }

  lemma AlwaysTellsSnoc(r: ApprovalRequest, requester: Principal, run: seq<Action>)
    requires run != []
    ensures AlwaysTells(r, requester, run) <==> AlwaysTells(r, requester, run[..|run| - 1]) && Tells(After(r, requester, run).request)
  {
    hide After, Tells;
    var n := |run| - 1;
    var before := run[..n];
    assert run[..n + 1] == run;
    if AlwaysTells(r, requester, run) {
      forall k | 0 <= k <= n ensures Tells(After(r, requester, before[..k]).request) {
        assert before[..k] == run[..k];
      }
      assert Tells(After(r, requester, run[..n + 1]).request);
    }
    if AlwaysTells(r, requester, before) && Tells(After(r, requester, run).request) {
      forall k | 0 <= k <= n + 1 ensures Tells(After(r, requester, run[..k]).request) {
        if k <= n {
          assert before[..k] == run[..k];
        } else {
          assert run[..k] == run;
        }
      }
    }
  }

  lemma AllFitSnoc(r: ApprovalRequest, requester: Principal, run: seq<Action>)
    requires run != []
    ensures AllFit(r, requester, run) <==>
            AllFit(r, requester, run[..|run| - 1]) && Fits(After(r, requester, run[..|run| - 1]), run[|run| - 1])
  {
    hide After, Fits;
    var n := |run| - 1;
    var before := run[..n];
    assert forall k: nat :: k < n ==> before[..k] == run[..k] && before[k] == run[k];
    assert forall k: nat :: k < n ==> (Fits(After(r, requester, before[..k]), before[k]) <==> Fits(After(r, requester, run[..k]), run[k]));
  }

  /**
    For every interleaving: all along the run the status is the one the decisions imply if and only
    if the conclusion each caller drew from its reading still fits when it commits.
  */
  lemma {:induction false} StatusTellsExactlyWhenFits(r: ApprovalRequest, requester: Principal, run: seq<Action>)
    requires Opened(r, requester)
    ensures AlwaysTells(r, requester, run) <==> AllFit(r, requester, run)
  {
    if run != [] {
      var before := run[..|run| - 1];
      StatusTellsExactlyWhenFits(r, requester, before);
      AlwaysTellsSnoc(r, requester, run);
      AllFitSnoc(r, requester, run);
      AfterInv(r, requester, before);
      if AlwaysTells(r, requester, before) {
        assert before[..|before|] == before && Tells(After(r, requester, before[..|before|]).request);
        StepTells(After(r, requester, before), requester, run[|run| - 1]);
      }
      hide Step, Inv, Tells, Fits, AlwaysTells, AllFit, Opened;
    }
  }

  // ----- When a closed status is never left -----

  predicate Closed(st: RequestStatus) {
    st in {RequestSatisfied, RequestRejected, RequestExpired}
  }

  /** The status a caller writes, if it writes one. */
  function Target(w: Work): (st: Option<RequestStatus>) {
    match w.write
    case Expire => Some(RequestExpired)
    case Decide(d) => if StatusAfter(w.seen, d) == w.seen.status then None else Some(StatusAfter(w.seen, d))
  }

  lemma WrittenTarget(r: ApprovalRequest, w: Work)
    ensures Written(r, w).status == if Target(w).Some? then Target(w).value else r.status
    ensures r.decisions <= Written(r, w).decisions
  {
    hide StatusAfter;
  }

  lemma TargetClosed(w: Work)
    requires w.seen.status == RequestPending && Target(w).Some?
    ensures Closed(Target(w).value)
  {
    hide ApprovalCount;
  }

  /** The guard the UPDATE lacks: who writes a status finds the request still pending, or already at that status. */
  predicate Guarded(s: State, a: Action) {
    Effective(s, a) && Target(s.pending[a.caller]).Some? ==>
      s.request.status in {RequestPending, Target(s.pending[a.caller]).value}
  }

  ghost predicate AllGuarded(r: ApprovalRequest, requester: Principal, run: seq<Action>) {
    forall k :: 0 <= k < |run| ==> Guarded(After(r, requester, run[..k]), run[k])
  }

  ghost function StatusAt(r: ApprovalRequest, requester: Principal, run: seq<Action>, k: nat): (st: RequestStatus)
    requires k <= |run|
  {
    After(r, requester, run[..k]).request.status
  }

  ghost predicate ClosedStays(r: ApprovalRequest, requester: Principal, run: seq<Action>) {
    forall i, j :: 0 <= i <= j <= |run| && Closed(StatusAt(r, requester, run, i)) ==>
      StatusAt(r, requester, run, j) == StatusAt(r, requester, run, i)
  }

  lemma StepStatus(s: State, requester: Principal, a: Action)
    requires Inv(s, requester)
    ensures Guarded(s, a) && Closed(s.request.status) ==> Step(s, requester, a).request.status == s.request.status
    ensures !Guarded(s, a) ==> Closed(s.request.status) && Step(s, requester, a).request.status != s.request.status
  {
    hide Written, Permitted, HasDecided, Target, Entitled, Later;
    if Effective(s, a) {
      WrittenTarget(s.request, s.pending[a.caller]);
    }
  }

  lemma StatusNext(r: ApprovalRequest, requester: Principal, run: seq<Action>, k: nat)
    requires Opened(r, requester) && k < |run|
    ensures var s := After(r, requester, run[..k]);
            && Inv(s, requester) && StatusAt(r, requester, run, k) == s.request.status
            && StatusAt(r, requester, run, k + 1) == Step(s, requester, run[k]).request.status
  {
    hide Step, Inv, Opened;
    AfterInv(r, requester, run[..k]);
    assert run[..k + 1][..k] == run[..k];
  }

  lemma {:induction false} GuardedStays(r: ApprovalRequest, requester: Principal, run: seq<Action>, i: nat, j: nat)
    requires Opened(r, requester) && AllGuarded(r, requester, run) && i <= j <= |run| && Closed(StatusAt(r, requester, run, i))
    ensures StatusAt(r, requester, run, j) == StatusAt(r, requester, run, i)
  {
    hide StatusAt, Guarded, Opened, Step, Inv, After;
    if i < j {
      GuardedStays(r, requester, run, i, j - 1);
      StatusNext(r, requester, run, j - 1);
      StepStatus(After(r, requester, run[..j - 1]), requester, run[j - 1]);
    }
  }

  /**
    For every interleaving: satisfied, rejected and expired are never left if and only if every commit
    that takes effect and writes a status finds the request still pending or already at that status.
  */
  lemma {:induction false} ClosedStaysExactlyWhenGuarded(r: ApprovalRequest, requester: Principal, run: seq<Action>)
    requires Opened(r, requester)
    ensures ClosedStays(r, requester, run) <==> AllGuarded(r, requester, run)
  {
    hide StatusAt, Guarded, Opened, Step, Inv, After;
    if AllGuarded(r, requester, run) {
      forall i, j | 0 <= i <= j <= |run| && Closed(StatusAt(r, requester, run, i))
        ensures StatusAt(r, requester, run, j) == StatusAt(r, requester, run, i)
      {
        GuardedStays(r, requester, run, i, j);
      }
    }
    if ClosedStays(r, requester, run) {
      forall k | 0 <= k < |run| ensures Guarded(After(r, requester, run[..k]), run[k]) {
        StatusNext(r, requester, run, k);
        StepStatus(After(r, requester, run[..k]), requester, run[k]);
        assert Closed(StatusAt(r, requester, run, k)) ==> StatusAt(r, requester, run, k + 1) == StatusAt(r, requester, run, k);
      }
    }
  }

  // ----- When a closed status is final for every later run -----

  ghost function From(s: State, requester: Principal, run: seq<Action>): (s': State) {
    if run == [] then s else Step(From(s, requester, run[..|run| - 1]), requester, run[|run| - 1])
  }

  /** A caller between its read and its commit that can still write another status. */
  predicate Threatens(s: State, w: Work) {
    && Target(w).Some? && Target(w).value != s.request.status
    && (w.write.Decide? ==> !HasDecided(s.request, w.write.decision.decider))
  }

  ghost predicate Quiet(s: State) {
    forall t :: t in s.pending ==> !Threatens(s, s.pending[t])
  }

  ghost predicate StaysFor(s: State, requester: Principal) {
    forall run :: From(s, requester, run).request.status == s.request.status
  }

  lemma StillHarmless(s: State, w: Work, v: Work)
    requires !Threatens(s, w) && (Target(v).Some? ==> Target(v).value == s.request.status)
    ensures !Threatens(s.(request := Written(s.request, v)), w)
  {
    WrittenTarget(s.request, v);
    var r' := Written(s.request, v);
    assert forall p :: HasDecided(s.request, p) ==> HasDecided(r', p) by {
      forall p | HasDecided(s.request, p) ensures HasDecided(r', p) {
        var i :| 0 <= i < |s.request.decisions| && s.request.decisions[i].decider == p;
        assert r'.decisions[i] == s.request.decisions[i];
      }
    }
    hide Written, Target, HasDecided;
  }

  lemma SameThreat(s: State, d: State, w: Work)
    requires d.request == s.request
    ensures Threatens(d, w) <==> Threatens(s, w)
  {
    hide Target;
  }

  lemma QuietStep(s: State, requester: Principal, a: Action)
    requires Quiet(s) && Closed(s.request.status)
    ensures Quiet(Step(s, requester, a)) && Step(s, requester, a).request.status == s.request.status
  {
    hide Threatens, Written, HasDecided, Target, MayDecide;
    var d := Step(s, requester, a);
    assert a.Read? ==> d == s by { assert a.Read? ==> !Permitted(s.request, requester, a.write, a.now); }
    if Effective(s, a) {
      var v := s.pending[a.caller];
      HarmlessTarget(s, a);
      WrittenTarget(s.request, v);
      forall t | t in d.pending ensures !Threatens(d, d.pending[t]) {
        StillHarmless(s, d.pending[t], v);
        SameThreat(s.(request := Written(s.request, v)), d, d.pending[t]);
      }
    } else {
      forall t | t in d.pending ensures !Threatens(d, d.pending[t]) {
        SameThreat(s, d, d.pending[t]);
      }
    }
  }

  lemma HarmlessTarget(s: State, a: Action)
    requires Effective(s, a) && !Threatens(s, s.pending[a.caller])
    ensures Target(s.pending[a.caller]).Some? ==> Target(s.pending[a.caller]).value == s.request.status
  {
    hide Target, HasDecided;
  }

  lemma {:induction false} QuietRun(s: State, requester: Principal, run: seq<Action>)
    requires Quiet(s) && Closed(s.request.status)
    ensures Quiet(From(s, requester, run)) && From(s, requester, run).request.status == s.request.status
  {
    hide Step, Quiet;
    if run != [] {
      QuietRun(s, requester, run[..|run| - 1]);
      QuietStep(From(s, requester, run[..|run| - 1]), requester, run[|run| - 1]);
    }
  }

  lemma ThreatCarriedOut(s: State, requester: Principal, t: nat)
    requires t in s.pending && Threatens(s, s.pending[t])
    ensures From(s, requester, [Commit(t)]).request.status != s.request.status
  {
    hide Written, HasDecided, Target;
    WrittenTarget(s.request, s.pending[t]);
    assert [Commit(t)][..0] == [];
    assert From(s, requester, []) == s;
  }

  /**
    A closed status is final, whatever anyone does later, if and only if nobody who has read the
    request while it was pending can still commit another status.
  */
  lemma {:induction false} FinalExactlyWhenQuiet(s: State, requester: Principal)
    requires Closed(s.request.status)
    ensures StaysFor(s, requester) <==> Quiet(s)
  {
    hide From, Threatens, Closed;
    if Quiet(s) {
      forall run ensures From(s, requester, run).request.status == s.request.status {
        QuietRun(s, requester, run);
      }
    }
    if StaysFor(s, requester) {
      forall t | t in s.pending ensures !Threatens(s, s.pending[t]) {
        if Threatens(s, s.pending[t]) {
          ThreatCarriedOut(s, requester, t);
        }
      }
    }
  }

  // ----- An issuance that reads the status -----

  /** Issuances synchronise the approval state, find it satisfied, and store the issued proof when they commit. */
  datatype Desk = Desk(approvals: State, looked: set<nat>, issued: nat)

  datatype DeskAction = OnRequest(action: Action) | Look(issuer: nat) | Issue(issuer: nat) | GiveUp(issuer: nat)

  function DeskStep(d: Desk, requester: Principal, a: DeskAction): (d': Desk) {
    match a
    case OnRequest(x) => d.(approvals := Step(d.approvals, requester, x))
    case Look(t) => if d.approvals.request.status == RequestSatisfied then d.(looked := d.looked + {t}) else d
    case Issue(t) => if t in d.looked then d.(looked := d.looked - {t}, issued := d.issued + 1) else d
    case GiveUp(t) => d.(looked := d.looked - {t})
  }

  ghost function DeskFrom(d: Desk, requester: Principal, run: seq<DeskAction>): (d': Desk) {
    if run == [] then d else DeskStep(DeskFrom(d, requester, run[..|run| - 1]), requester, run[|run| - 1])
  }

  /** An issued proof stands on a request that is satisfied. */
  predicate Standing(d: Desk) {
    d.issued > 0 ==> d.approvals.request.status == RequestSatisfied
  }

  ghost predicate StandsFor(d: Desk, requester: Principal) {
    forall run :: Standing(DeskFrom(d, requester, run))
  }

  lemma {:induction false} QuietDesk(d: Desk, requester: Principal, run: seq<DeskAction>)
    requires d.approvals.request.status == RequestSatisfied && Quiet(d.approvals)
    ensures var e := DeskFrom(d, requester, run); e.approvals.request.status == RequestSatisfied && Quiet(e.approvals)
  {
    hide Step, Quiet;
    if run != [] {
      var a := run[|run| - 1];
      QuietDesk(d, requester, run[..|run| - 1]);
      if a.OnRequest? {
        QuietStep(DeskFrom(d, requester, run[..|run| - 1]).approvals, requester, a.action);
      }
    }
  }

  lemma IssueThenCommit(d: Desk, requester: Principal, x: nat, t: nat)
    requires x in d.looked
    ensures DeskFrom(d, requester, [Issue(x), OnRequest(Commit(t))]).issued > 0
    ensures DeskFrom(d, requester, [Issue(x), OnRequest(Commit(t))]).approvals == Step(d.approvals, requester, Commit(t))
  {
    hide Step;
    var run := [Issue(x), OnRequest(Commit(t))];
    assert run[..1] == [Issue(x)] && [Issue(x)][..0] == [];
    assert DeskFrom(d, requester, []) == d;
    assert DeskFrom(d, requester, [Issue(x)]) == DeskStep(d, requester, Issue(x));
  }

  /**
    When an issuance has found the request satisfied, its proof stands on a satisfied request in every
    later run if and only if nobody in flight at that moment can still commit another status.
  */
  lemma {:induction false} IssuedStandsExactlyWhenQuiet(d: Desk, requester: Principal)
    requires d.approvals.request.status == RequestSatisfied && d.looked != {}
    ensures StandsFor(d, requester) <==> Quiet(d.approvals)
  {
    hide DeskFrom, Threatens, Step;
    if Quiet(d.approvals) {
      forall run ensures Standing(DeskFrom(d, requester, run)) {
        QuietDesk(d, requester, run);
      }
    }
    if StandsFor(d, requester) {
      forall t | t in d.approvals.pending ensures !Threatens(d.approvals, d.approvals.pending[t]) {
        if Threatens(d.approvals, d.approvals.pending[t]) {
          var x :| x in d.looked;
          IssueThenCommit(d, requester, x, t);
          CommitOverturns(d.approvals, requester, t);
        }
      }
    }
  }

  lemma CommitOverturns(s: State, requester: Principal, t: nat)
    requires t in s.pending && Threatens(s, s.pending[t])
    ensures Step(s, requester, Commit(t)).request.status != s.request.status
  {
    hide Written, HasDecided, Target;
    WrittenTarget(s.request, s.pending[t]);
  }

  /** Every issuance that finds the request satisfied finds nobody in flight who can still write another status. */
  ghost predicate QuietLooks(d: Desk, requester: Principal, run: seq<DeskAction>) {
    forall k :: 0 <= k < |run| && run[k].Look? ==>
      var s := DeskFrom(d, requester, run[..k]).approvals;
      s.request.status == RequestSatisfied ==> Quiet(s)
  }

  lemma QuietLooksPrefix(d: Desk, requester: Principal, run: seq<DeskAction>)
    requires run != [] && QuietLooks(d, requester, run)
    ensures QuietLooks(d, requester, run[..|run| - 1])
    ensures var s := DeskFrom(d, requester, run[..|run| - 1]).approvals;
            run[|run| - 1].Look? && s.request.status == RequestSatisfied ==> Quiet(s)
  {
    hide DeskFrom, Quiet;
    var n := |run| - 1;
    var before := run[..n];
    assert run[n].Look? ==> (DeskFrom(d, requester, run[..n]).approvals.request.status == RequestSatisfied ==> Quiet(DeskFrom(d, requester, run[..n]).approvals));
    forall k | 0 <= k < n && before[k].Look?
      ensures DeskFrom(d, requester, before[..k]).approvals.request.status == RequestSatisfied ==> Quiet(DeskFrom(d, requester, before[..k]).approvals)
    {
      assert before[..k] == run[..k] && before[k] == run[k];
    }
  }

  /** In every interleaving of decisions, expiries and issuances with quiet looks, issued proofs stand on a satisfied request. */
  lemma {:induction false} QuietLooksStand(d: Desk, requester: Principal, run: seq<DeskAction>)
    requires d.looked == {} && d.issued == 0 && QuietLooks(d, requester, run)
    ensures var e := DeskFrom(d, requester, run);
            && Standing(e)
            && ((e.looked == {} && e.issued == 0) || (e.approvals.request.status == RequestSatisfied && Quiet(e.approvals)))
  {
    hide Step, Quiet, QuietLooks;
    if run != [] {
      var before, a := DeskFrom(d, requester, run[..|run| - 1]), run[|run| - 1];
      QuietLooksPrefix(d, requester, run);
      QuietLooksStand(d, requester, run[..|run| - 1]);
      if a.OnRequest? && before.approvals.request.status == RequestSatisfied && Quiet(before.approvals) {
        QuietStep(before.approvals, requester, a.action);
      }
    }
  }

  // ----- Serial runs -----

  /** A read followed at once by the commit is the serial decision, or the serial expiry. */
  lemma UninterruptedIsSerial(s: State, requester: Principal, t: nat, w: Write, now: int)
    requires t !in s.pending && Permitted(s.request, requester, w, now)
    ensures Step(Step(s, requester, Read(t, w, now)), requester, Commit(t)) ==
            s.(request := if w.Decide? then Decided(s.request, w.decision) else Refreshed(s.request, now))
  {
    hide StatusAfter, MayDecide;
    var mid := Step(s, requester, Read(t, w, now));
    assert mid.pending - {t} == s.pending;
    if w.Expire? {
      assert ExpireSeen(s.request.assignments, s.request.assignments) == ExpireAssignments(s.request.assignments);
    }
  }

  // ----- The failing run -----

  /**
    Two approvals that overlap, two short of the quorum: each counts only itself, so the request has its full
    quorum and stays pending; a third approval then satisfies it with one more than required.
  */
  lemma OverlappingApprovals(s: State, requester: Principal, a: Decision, b: Decision, c: Decision, now: int)
    requires s.pending == map[] && Opened(s.request, requester)
    requires ApprovalCount(s.request.decisions) == s.request.required - 2
    requires a.approve && b.approve && c.approve && a.decider != b.decider && a.decider != c.decider && b.decider != c.decider
    requires Permitted(s.request, requester, Decide(a), now) && Permitted(s.request, requester, Decide(b), now) && Permitted(s.request, requester, Decide(c), now)
    ensures var two := After2(s, requester, a, b, now);
            && two.request.status == RequestPending && |Approvers(two.request.decisions)| == two.request.required && !Tells(two.request)
            && var three := Step(Step(two, requester, Read(2, Decide(c), now)), requester, Commit(2));
               && three.request.status == RequestSatisfied && |Approvers(three.request.decisions)| == three.request.required + 1
  {
    var two := After2(s, requester, a, b, now);
    OverlapRequest(s, requester, a, b, now);
    CountTwo(s.request.decisions, a, b);
    OverlapInv(s, requester, a, b, now);
    ApproversCounted(two.request.decisions);
    ThirdSatisfies(two, requester, c, now);
    var three := Step(Step(two, requester, Read(2, Decide(c), now)), requester, Commit(2));
    ApproversCounted(three.request.decisions);
    hide *;
  }

  lemma CountTwo(ds: seq<Decision>, a: Decision, b: Decision)
    requires a.approve && b.approve
    ensures ApprovalCount(ds + [a] + [b]) == ApprovalCount(ds) + 2
  {
    CountSnoc(ds, a);
    CountSnoc(ds + [a], b);
  }

  lemma OverlapInv(s: State, requester: Principal, a: Decision, b: Decision, now: int)
    requires s.pending == map[] && Opened(s.request, requester)
    ensures Inv(After2(s, requester, a, b, now), requester)
    ensures DistinctDeciders(After2(s, requester, a, b, now).request.decisions)
  {
    StepInv(s, requester, Read(0, Decide(a), now));
    StepInv(Step(s, requester, Read(0, Decide(a), now)), requester, Read(1, Decide(b), now));
    StepInv(Step(Step(s, requester, Read(0, Decide(a), now)), requester, Read(1, Decide(b), now)), requester, Commit(0));
    StepInv(Step(Step(Step(s, requester, Read(0, Decide(a), now)), requester, Read(1, Decide(b), now)), requester, Commit(0)), requester, Commit(1));
    hide Step, MayDecide;
  }

  lemma ThirdSatisfies(two: State, requester: Principal, c: Decision, now: int)
    requires Inv(two, requester) && two.pending == map[] && c.approve && Permitted(two.request, requester, Decide(c), now)
    requires ApprovalCount(two.request.decisions) == two.request.required && NoRejection(two.request.decisions)
    ensures !Tells(two.request)
    ensures var three := Step(Step(two, requester, Read(2, Decide(c), now)), requester, Commit(2));
            && three.request.status == RequestSatisfied && three.request.required == two.request.required
            && DistinctDeciders(three.request.decisions)
            && ApprovalCount(three.request.decisions) == three.request.required + 1
  {
    CountSnoc(two.request.decisions, c);
    UninterruptedIsSerial(two, requester, 2, Decide(c), now);
    var mid := Step(two, requester, Read(2, Decide(c), now));
    StepInv(two, requester, Read(2, Decide(c), now));
    StepInv(mid, requester, Commit(2));
    hide Step, MayDecide;
  }

  function After2(s: State, requester: Principal, a: Decision, b: Decision, now: int): (two: State) {
    Step(Step(Step(Step(s, requester, Read(0, Decide(a), now)), requester, Read(1, Decide(b), now)), requester, Commit(0)), requester, Commit(1))
  }

  lemma OverlapRequest(s: State, requester: Principal, a: Decision, b: Decision, now: int)
    requires s.pending == map[] && Opened(s.request, requester)
    requires ApprovalCount(s.request.decisions) == s.request.required - 2
    requires a.approve && b.approve && a.decider != b.decider
    requires Permitted(s.request, requester, Decide(a), now) && Permitted(s.request, requester, Decide(b), now)
    ensures var two := After2(s, requester, a, b, now);
            && two.pending == map[] && two.request.decisions == s.request.decisions + [a] + [b]
            && two.request.status == RequestPending && two.request.required == s.request.required && NoRejection(two.request.decisions)
            && forall c: Decision :: c.decider != a.decider && c.decider != b.decider && Permitted(s.request, requester, Decide(c), now) ==>
                 Permitted(two.request, requester, Decide(c), now)
  {
    hide Permitted, MayDecide, Written, Step;
    var r := s.request;
    var one := Written(r, Work(r, Decide(a)));
    var two := Written(one, Work(r, Decide(b)));
    OverlapWritten(r, requester, a, b, now);
    OverlapSteps(s, requester, a, b, now);
    forall c: Decision | c.decider != a.decider && c.decider != b.decider && Permitted(r, requester, Decide(c), now)
      ensures Permitted(two, requester, Decide(c), now)
    {
      StillPermitted(r, two, requester, c, a, b, now);
    }
  }

  /** The rows after both writes. */
  lemma OverlapWritten(r: ApprovalRequest, requester: Principal, a: Decision, b: Decision, now: int)
    requires Opened(r, requester) && ApprovalCount(r.decisions) == r.required - 2 && a.approve && b.approve && a.decider != b.decider
    requires Permitted(r, requester, Decide(a), now) && Permitted(r, requester, Decide(b), now)
    ensures var one := Written(r, Work(r, Decide(a)));
            var two := Written(one, Work(r, Decide(b)));
            && !HasDecided(r, a.decider) && !HasDecided(one, b.decider)
            && two.decisions == r.decisions + [a] + [b] && NoRejection(two.decisions)
            && two == r.(decisions := two.decisions, assignments := two.assignments)
            && |two.assignments| == |r.assignments|
            && forall i :: 0 <= i < |r.assignments| ==> two.assignments[i].principal == r.assignments[i].principal
  {
    hide MayDecide, Due;
    CountSnoc(r.decisions, a);
    CountSnoc(r.decisions, b);
    hide ApprovalCount;
  }

  lemma OverlapSteps(s: State, requester: Principal, a: Decision, b: Decision, now: int)
    requires s.pending == map[] && Permitted(s.request, requester, Decide(a), now) && Permitted(s.request, requester, Decide(b), now)
    requires !HasDecided(s.request, a.decider) && !HasDecided(Written(s.request, Work(s.request, Decide(a))), b.decider)
    ensures var two := After2(s, requester, a, b, now);
            && two.pending == map[]
            && two.request == Written(Written(s.request, Work(s.request, Decide(a))), Work(s.request, Decide(b)))
  {
    hide Permitted, HasDecided, Written;
    var wa, wb := Work(s.request, Decide(a)), Work(s.request, Decide(b));
    var s2 := Step(Step(s, requester, Read(0, Decide(a), now)), requester, Read(1, Decide(b), now));
    assert s2 == State(s.request, map[0 := wa, 1 := wb]);
    var s3 := Step(s2, requester, Commit(0));
    assert s3.pending == map[1 := wb];
  }

  lemma StillPermitted(r: ApprovalRequest, two: ApprovalRequest, requester: Principal, c: Decision, a: Decision, b: Decision, now: int)
    requires Permitted(r, requester, Decide(c), now) && c.decider != a.decider && c.decider != b.decider
    requires two.decisions == r.decisions + [a] + [b] && two == r.(decisions := two.decisions, assignments := two.assignments)
    requires |two.assignments| == |r.assignments|
    requires forall i :: 0 <= i < |r.assignments| ==> two.assignments[i].principal == r.assignments[i].principal
    ensures Permitted(two, requester, Decide(c), now)
  {
    StillMayDecide(r, two, requester, c);
    hide MayDecide;
  }

  lemma StillMayDecide(r: ApprovalRequest, r': ApprovalRequest, requester: Principal, c: Decision)
    requires MayDecide(r, requester, c.decider, c.roles)
    requires |r.assignments| == |r'.assignments| && forall i :: 0 <= i < |r.assignments| ==> r.assignments[i].principal == r'.assignments[i].principal
    requires r'.roles == r.roles && r'.requesterSeparation == r.requesterSeparation
    ensures MayDecide(r', requester, c.decider, c.roles)
  {
    SameAssignees(r, r', c.decider);
  }

  /**
    An approval that completes the quorum overlaps a rejection: the request is satisfied, so that a
    proof may be issued, and then rejected, although each conclusion fits and the status tells
    the decisions throughout.
  */
  lemma OverlappingRejection(s: State, requester: Principal, a: Decision, b: Decision, now: int)
    requires s.pending == map[] && Opened(s.request, requester)
    requires ApprovalCount(s.request.decisions) == s.request.required - 1
    requires a.approve && !b.approve && a.decider != b.decider
    requires Permitted(s.request, requester, Decide(a), now) && Permitted(s.request, requester, Decide(b), now)
    ensures var read := Step(Step(s, requester, Read(0, Decide(a), now)), requester, Read(1, Decide(b), now));
            var one := Step(read, requester, Commit(0));
            var two := Step(one, requester, Commit(1));
            && one.request.status == RequestSatisfied && two.request.status == RequestRejected
            && Fits(read, Commit(0)) && Fits(one, Commit(1)) && Tells(one.request) && Tells(two.request)
  {
    hide MayDecide, Due;
    var r := s.request;
    var wa, wb := Work(r, Decide(a)), Work(r, Decide(b));
    var read := Step(Step(s, requester, Read(0, Decide(a), now)), requester, Read(1, Decide(b), now));
    assert read == State(r, map[0 := wa, 1 := wb]);
    var one := Step(read, requester, Commit(0));
    assert !HasDecided(r, a.decider);
    assert one == State(Written(r, wa), map[1 := wb]);
    assert !HasDecided(one.request, b.decider);
    ApprovalWritten(r, wa);
    ApprovalWritten(one.request, wb);
    hide ApprovalCount, NoRejection, Written, Permitted;
  }

  /** An approval that completes the quorum overlaps the expiry: an expired request becomes satisfied. */
  lemma OverlappingExpiry(s: State, requester: Principal, a: Decision, now: int, later: int)
    requires s.pending == map[] && Opened(s.request, requester) && a.approve
    requires ApprovalCount(s.request.decisions) == s.request.required - 1
    requires Permitted(s.request, requester, Decide(a), now) && Permitted(s.request, requester, Expire, later)
    ensures var read := Step(Step(s, requester, Read(0, Decide(a), now)), requester, Read(1, Expire, later));
            var one := Step(read, requester, Commit(1));
            var two := Step(one, requester, Commit(0));
            && one.request.status == RequestExpired && two.request.status == RequestSatisfied
  {
    hide MayDecide, Due;
    var r := s.request;
    var wa, wx := Work(r, Decide(a)), Work(r, Expire);
    var read := Step(Step(s, requester, Read(0, Decide(a), now)), requester, Read(1, Expire, later));
    assert read == State(r, map[0 := wa, 1 := wx]);
    var one := Step(read, requester, Commit(1));
    assert one == State(Written(r, wx), map[0 := wa]);
    assert !HasDecided(one.request, a.decider);
    ApprovalWritten(one.request, wa);
    hide ApprovalCount, NoRejection, Written, Permitted;
  }
}
