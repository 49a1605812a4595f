/**
  Overlapping callers of `escrow.py` on the record of one proof.  A caller reads the row, decides
  on what it saw, and commits later.  Release and consumption commit with a guarded UPDATE;
  revocation, quarantine, expiry and execution reports overwrite whatever the row has become.
*/
module EscrowRace {
  import opened Hashing
  import opened Text
  import opened ControlPlane
  import Escrows

  datatype Row = Row(status: EscrowStatus, execution: ExecutionState, digest: Option<Digest>)

  datatype Write =
    | ClaimRelease(minted: string)
    | ClaimConsume(token: string)
    | WriteRevoked
    | WriteQuarantined
    | WriteExpired
    | WriteReport(execution: ExecutionState)

  /** A caller between its read and its commit. */
  datatype Pending = Pending(seen: Row, write: Write)

  /** `released` and `consumed` list the tokens of the claims that succeeded. */
  datatype State = State(row: Option<Row>, log: seq<Transition>, pending: map<nat, Pending>,
                         released: seq<string>, consumed: seq<string>)

  /** `proceed` is what else the caller found: an active proof, a release mode that allows it, a passed expiry. */
  datatype Action =
    | Insert
    | Read(caller: nat, write: Write, proceed: bool)
    | Commit(caller: nat)
    | Abandon(caller: nat)

  const START: State := State(None, [], map[], [], [])

  /** The checks a caller makes on the row it read. */
  predicate Permitted(seen: Row, w: Write, th: Escrows.TokenHashFn) {
    match w
    case ClaimRelease(minted) => seen.status == Held && Strip(minted) != ""
    case ClaimConsume(token) => seen.status == Released && Strip(token) != "" && seen.digest == Some(th(Strip(token)))
    case WriteRevoked => seen.status in {Held, Released}
    case WriteQuarantined => seen.status !in {Revoked, Quarantined, Expired}
    case WriteExpired => seen.status in {Held, Released}
    case WriteReport(x) => seen.status == Consumed && x in {DispatchConfirmed, ResultObserved, FailureObserved} && Escrows.Progresses(seen.execution, x)
  }

  predicate Guarded(w: Write) {
    w.ClaimRelease? || w.ClaimConsume?
  }

  function TargetStatus(seen: Row, w: Write): (s: EscrowStatus) {
    match w
    case ClaimRelease(_) => Released
    case ClaimConsume(_) => Consumed
    case WriteRevoked => Revoked
    case WriteQuarantined => Quarantined
    case WriteExpired => Expired
    case WriteReport(_) => seen.status
  }

  function TargetExecution(w: Write): (x: ExecutionState) {
    match w
    case ClaimRelease(_) => CapabilityReleased
    case ClaimConsume(_) => DispatchRequested
    case WriteRevoked => ExecutionRevoked
    case WriteQuarantined => ExecutionQuarantined
    case WriteExpired => ExecutionExpired
    case WriteReport(x) => x
  }

  /** The row-level effect of the UPDATE: a report writes the execution column alone. */
  function Written(row: Row, w: Write, th: Escrows.TokenHashFn): (r: Row) {
    match w
    case ClaimRelease(minted) => Row(Released, CapabilityReleased, Some(th(Strip(minted))))
    case ClaimConsume(_) => row.(status := Consumed, execution := DispatchRequested)
    case WriteReport(x) => row.(execution := x)
    case _ => row.(status := TargetStatus(row, w), execution := TargetExecution(w))
  }

  /** The WHERE clause of the guarded claims. */
  predicate Hits(row: Row, w: Write, th: Escrows.TokenHashFn) {
    match w
    case ClaimRelease(_) => row.status == Held
    case ClaimConsume(token) => row.status == Released && row.digest == Some(th(Strip(token)))
    case _ => true
  }

  function Entry(p: Pending): (t: Transition) {
    Transition(Escrows.LabelFor(TargetExecution(p.write)), Some(p.seen.status), TargetStatus(p.seen, p.write),
               Some(p.seen.execution), TargetExecution(p.write))
  }

  function Step(s: State, th: Escrows.TokenHashFn, a: Action): (s': State) {
    match a
    case Insert =>
      if s.row.Some? then s
      else s.(row := Some(Row(Held, CapabilityHeld, None)), log := [Transition(HoldCreated, None, Held, None, CapabilityHeld)])
    case Read(t, w, proceed) =>
      if s.row.Some? && proceed && t !in s.pending && Permitted(s.row.value, w, th) then s.(pending := s.pending[t := Pending(s.row.value, w)])
      else s
    case Abandon(t) => s.(pending := s.pending - {t})
    case Commit(t) =>
      if t !in s.pending || s.row.None? then s
      else
        var p := s.pending[t];
        var done := s.(pending := s.pending - {t});
        if !Hits(s.row.value, p.write, th) then done
        else done.(row := Some(Written(s.row.value, p.write, th)), log := s.log + [Entry(p)],
                   released := if p.write.ClaimRelease? then s.released + [p.write.minted] else s.released,
                   consumed := if p.write.ClaimConsume? then s.consumed + [p.write.token] else s.consumed)
  }

  function After(th: Escrows.TokenHashFn, run: seq<Action>): (s: State) {
    if run == [] then START else Step(After(th, run[..|run| - 1]), th, run[|run| - 1])
  }

  // ----- At most once -----

  predicate RowInv(row: Row, th: Escrows.TokenHashFn, released: seq<string>, consumed: seq<string>) {
    && |released| <= 1 && |consumed| <= |released|
    && (row.status == Held ==> row.execution == CapabilityHeld && released == [])
    && (row.status == Released ==> row.execution == CapabilityReleased && |released| == 1 && consumed == [])
    && row.digest == (if released == [] then None else Some(th(Strip(released[0]))))
    && (consumed != [] ==> th(Strip(consumed[0])) == th(Strip(released[0])))
  }

  predicate SeenInv(seen: Row) {
    (seen.status == Held ==> seen.execution == CapabilityHeld) && (seen.status == Released ==> seen.execution == CapabilityReleased)
  }

  ghost predicate Inv(s: State, th: Escrows.TokenHashFn) {
    && (s.row.None? ==> s.pending == map[] && s.released == [] && s.consumed == [] && s.log == [])
    && (s.row.Some? ==> RowInv(s.row.value, th, s.released, s.consumed) && s.log != [])
    && (forall t :: t in s.pending ==>
          SeenInv(s.pending[t].seen) && Permitted(s.pending[t].seen, s.pending[t].write, th)
          && s.row.Some? && Later(s.pending[t].seen, s.row.value))
  }

  /** What a reading still says about the row later on. */
  predicate Later(seen: Row, row: Row) {
    && (seen.status != Held ==> row.status != Held)
    && (seen.status !in {Held, Released} ==> row.status !in {Held, Released})
  }

  /** A committed write keeps the row's part of the invariant, whatever the row has become since the reading. */
  lemma WrittenInv(row: Row, p: Pending, th: Escrows.TokenHashFn, released: seq<string>, consumed: seq<string>)
    requires RowInv(row, th, released, consumed) && Permitted(p.seen, p.write, th) && Hits(row, p.write, th) && Later(p.seen, row)
    ensures RowInv(Written(row, p.write, th), th,
                   if p.write.ClaimRelease? then released + [p.write.minted] else released,
                   if p.write.ClaimConsume? then consumed + [p.write.token] else consumed)
    ensures Later(row, Written(row, p.write, th))
  {
    hide Strip;
  }

  lemma StepInv(s: State, th: Escrows.TokenHashFn, a: Action)
    requires Inv(s, th)
    ensures Inv(Step(s, th, a), th)
  {
    if a.Commit? && a.caller in s.pending {
      var p := s.pending[a.caller];
      if Hits(s.row.value, p.write, th) {
        WrittenInv(s.row.value, p, th, s.released, s.consumed);
      }
    }
    hide Strip, Permitted, Written, Hits, Entry;
  }

  lemma {:induction false} AfterInv(th: Escrows.TokenHashFn, run: seq<Action>)
    ensures Inv(After(th, run), th)
  {
    if run != [] {
      AfterInv(th, run[..|run| - 1]);
      StepInv(After(th, run[..|run| - 1]), th, run[|run| - 1]);
    }
  }

  /**
    In every interleaving at most one release and at most one consumption succeed, and the token
    consumed has the digest of the token released.
  */
  lemma AtMostOnce(th: Escrows.TokenHashFn, run: seq<Action>)
    ensures var s := After(th, run);
            && |s.released| <= 1 && |s.consumed| <= |s.released|
            && (s.consumed != [] ==> th(Strip(s.consumed[0])) == th(Strip(s.released[0])))
  {
    AfterInv(th, run);
    hide Strip;
  }

  lemma StepNeverReturns(s: State, th: Escrows.TokenHashFn, a: Action)
    requires Inv(s, th) && s.row.Some?
    ensures var r := Step(s, th, a).row;
            && r.Some?
            && (s.row.value.status != Held ==> r.value.status != Held)
            && (s.row.value.status !in {Held, Released} ==> r.value.status !in {Held, Released})
    ensures s.released <= Step(s, th, a).released && s.consumed <= Step(s, th, a).consumed
  {
    hide Strip;
  }

  /** A row that has left `held`, or both `held` and `released`, never goes back, however callers interleave. */
  lemma {:induction false} NeverReturns(th: Escrows.TokenHashFn, run: seq<Action>, k: nat)
    requires k <= |run| && After(th, run[..k]).row.Some?
    ensures var a, b := After(th, run[..k]).row, After(th, run).row;
            && b.Some?
            && (a.value.status != Held ==> b.value.status != Held)
            && (a.value.status !in {Held, Released} ==> b.value.status !in {Held, Released})
  {
    if k == |run| {
      assert run[..k] == run;
    } else {
      var before := run[..|run| - 1];
      assert before[..k] == run[..k];
      NeverReturns(th, before, k);
      AfterInv(th, before);
      StepNeverReturns(After(th, before), th, run[|run| - 1]);
      hide Step, Inv;
    }
  }

  // ----- The lost update, and exactly when the log stays faithful -----

  /** The log replays to the row. */
  predicate Faithful(s: State) {
    s.row.Some? && Escrows.Replay(s.log) == Some((s.row.value.status, s.row.value.execution))
  }

  /** The guard the unguarded writes lack: at commit the row is still in the state that was read. */
  predicate Fresh(s: State, a: Action) {
    a.Commit? && a.caller in s.pending && s.row.Some? && !Guarded(s.pending[a.caller].write) ==>
      s.pending[a.caller].seen.status == s.row.value.status && s.pending[a.caller].seen.execution == s.row.value.execution
  }

  ghost predicate AllFresh(th: Escrows.TokenHashFn, run: seq<Action>) {
    forall k :: 0 <= k < |run| ==> Fresh(After(th, run[..k]), run[k])
  }

  lemma ReplaySnoc(log: seq<Transition>, t: Transition)
    requires log != []
    ensures Escrows.Replay(log + [t]) ==
              (var before := Escrows.Replay(log);
               if before.Some? && t.fromStatus == Some(before.value.0) && t.fromExecution == Some(before.value.1)
               then Some((t.toStatus, t.toExecution)) else None)
  {
    assert (log + [t])[..|log|] == log;
  }

  lemma StepFaithful(s: State, th: Escrows.TokenHashFn, a: Action)
    requires Inv(s, th) && s.row.Some?
    ensures Escrows.Replay(s.log).None? ==> Escrows.Replay(Step(s, th, a).log).None?
    ensures Faithful(s) && Fresh(s, a) ==> Faithful(Step(s, th, a))
    ensures Faithful(s) && !Fresh(s, a) ==> Escrows.Replay(Step(s, th, a).log).None?
  {
    hide Strip, Escrows.Replay;
    if a.Commit? && a.caller in s.pending {
      ReplaySnoc(s.log, Entry(s.pending[a.caller]));
    }
  }

  lemma AllFreshSnoc(th: Escrows.TokenHashFn, run: seq<Action>)
    requires run != []
    ensures AllFresh(th, run) <==> AllFresh(th, run[..|run| - 1]) && Fresh(After(th, run[..|run| - 1]), run[|run| - 1])
  {
    hide After, Fresh;
    var n := |run| - 1;
    var before := run[..n];
    assert forall k: nat :: k < n ==> before[..k] == run[..k] && before[k] == run[k];
    assert forall k: nat :: k < n ==> (Fresh(After(th, before[..k]), before[k]) <==> Fresh(After(th, run[..k]), run[k]));
  }

  lemma AfterSnoc(th: Escrows.TokenHashFn, run: seq<Action>)
    requires run != []
    ensures After(th, run) == Step(After(th, run[..|run| - 1]), th, run[|run| - 1])
  {
  }

  lemma StepFromNothing(s: State, th: Escrows.TokenHashFn, a: Action)
    requires Inv(s, th) && s.row.None?
    ensures Fresh(s, a) && (Step(s, th, a).row.Some? ==> Faithful(Step(s, th, a)))
  {
    FirstEntry();
    hide Strip, Escrows.Replay;
  }

  lemma {:induction false} FaithfulOrBroken(th: Escrows.TokenHashFn, run: seq<Action>)
    ensures After(th, run).row.Some? && AllFresh(th, run) ==> Faithful(After(th, run))
    ensures After(th, run).row.Some? && !AllFresh(th, run) ==> Escrows.Replay(After(th, run).log).None?
    ensures After(th, run).row.None? ==> AllFresh(th, run)
  {
    if run != [] {
      var n := |run| - 1;
      var s := After(th, run[..n]);
      FaithfulOrBroken(th, run[..n]);
      AfterInv(th, run[..n]);
      AfterSnoc(th, run);
      AllFreshSnoc(th, run);
      if s.row.Some? {
        StepFaithful(s, th, run[n]);
        StepNeverReturns(s, th, run[n]);
      } else {
        StepFromNothing(s, th, run[n]);
      }
      hide Step, Escrows.Replay, Fresh, Inv, AllFresh, After;
    }
  }

  lemma FirstEntry()
    ensures Escrows.Replay([Transition(HoldCreated, None, Held, None, CapabilityHeld)]) == Some((Held, CapabilityHeld))
  {
  }

  /** For every run: the log replays to the row exactly when no unguarded write came after its reading went stale. */
  lemma {:induction false} FaithfulExactlyWhenFresh(th: Escrows.TokenHashFn, run: seq<Action>)
    requires After(th, run).row.Some?
    ensures Faithful(After(th, run)) <==> AllFresh(th, run)
  {
    FaithfulOrBroken(th, run);
  }

  lemma FreshStepOrdered(s: State, th: Escrows.TokenHashFn, a: Action)
    requires Inv(s, th) && Faithful(s) && Escrows.LogInv(s.log) && Fresh(s, a)
    ensures Escrows.LogInv(Step(s, th, a).log)
  {
    Escrows.ReplayEndsAtLast(s.log);
    var log := Step(s, th, a).log;
    if log != s.log {
      var p := s.pending[a.caller];
      assert p.seen.status == s.row.value.status && p.seen.execution == s.row.value.execution;
      OrderedEntry(s.log, p, th);
    }
  }

  lemma OrderedEntry(log: seq<Transition>, p: Pending, th: Escrows.TokenHashFn)
    requires Escrows.LogInv(log) && Permitted(p.seen, p.write, th)
    requires p.seen.status == log[|log| - 1].toStatus && p.seen.execution == log[|log| - 1].toExecution
    ensures Escrows.LogInv(log + [Entry(p)])
  {
    hide Strip;
    assert Escrows.Coupled(p.seen.status, p.seen.execution);
  }

  /** With fresh writes only, every interleaving leaves the log of a serial run: well labelled, ordered, at most six entries. */
  lemma {:induction false} FreshRunsAreOrdered(th: Escrows.TokenHashFn, run: seq<Action>)
    requires AllFresh(th, run) && After(th, run).row.Some?
    ensures Escrows.LogInv(After(th, run).log) && |After(th, run).log| <= 6
  {
    var n := |run| - 1;
    var s := After(th, run[..n]);
    AfterInv(th, run[..n]);
    AllFreshSnoc(th, run);
    AfterSnoc(th, run);
    if s.row.Some? {
      FreshRunsAreOrdered(th, run[..n]);
      FaithfulExactlyWhenFresh(th, run[..n]);
      FreshStepOrdered(s, th, run[n]);
    } else {
      FirstLog(s, th, run[n]);
    }
    hide Step, AllFresh, Escrows.Replay, Inv;
    Escrows.RankGrows(After(th, run).log, |After(th, run).log| - 1);
  }

  lemma FirstLog(s: State, th: Escrows.TokenHashFn, a: Action)
    requires Inv(s, th) && s.row.None? && Step(s, th, a).row.Some?
    ensures Escrows.LogInv(Step(s, th, a).log)
  {
  }

  const STALE_RUN: seq<Action> := [Insert, Read(0, ClaimRelease("t"), true), Commit(0), Read(1, WriteRevoked, true),
                                   Read(2, ClaimConsume("t"), true), Commit(2), Commit(1)]

  function ReleasedRow(th: Escrows.TokenHashFn): (r: Row) {
    Row(Released, CapabilityReleased, Some(th("t")))
  }

  /** The states the failing run goes through, logs left out. */
  predicate Stage(s: State, th: Escrows.TokenHashFn, k: nat) {
    var revoking, consuming := Pending(ReleasedRow(th), WriteRevoked), Pending(ReleasedRow(th), ClaimConsume("t"));
    match k
    case 0 => s == START
    case 1 => s.row == Some(Row(Held, CapabilityHeld, None)) && s.pending == map[]
    case 2 => s.row == Some(Row(Held, CapabilityHeld, None)) && s.pending == map[0 := Pending(Row(Held, CapabilityHeld, None), ClaimRelease("t"))]
    case 3 => s.row == Some(ReleasedRow(th)) && s.pending == map[]
    case 4 => s.row == Some(ReleasedRow(th)) && s.pending == map[1 := revoking]
    case 5 => s.row == Some(ReleasedRow(th)) && s.pending == map[1 := revoking, 2 := consuming]
    case 6 => s.row == Some(Row(Consumed, DispatchRequested, Some(th("t")))) && s.pending == map[1 := revoking] && s.consumed != []
    case 7 => s.row == Some(Row(Revoked, ExecutionRevoked, Some(th("t")))) && s.consumed != []
    case _ => false
  }

  lemma NextStage(s: State, th: Escrows.TokenHashFn, k: nat)
    requires k < 7 && Stage(s, th, k)
    ensures Stage(Step(s, th, STALE_RUN[k]), th, k + 1)
  {
    assert Strip("t") == "t";
    if k == 2 || k == 5 || k == 6 {
      assert map[0 := 0] - {0} == map[];
    }
  }

  lemma {:induction false} ReachesStage(th: Escrows.TokenHashFn, k: nat)
    requires k <= 7
    ensures Stage(After(th, STALE_RUN[..k]), th, k)
  {
    if k > 0 {
      ReachesStage(th, k - 1);
      Unwind(th, STALE_RUN, k - 1);
      NextStage(After(th, STALE_RUN[..k - 1]), th, k - 1);
    }
  }

  /** The failing run: a revocation read before a consumption and committed after it leaves a consumed capability revoked. */
  lemma StaleRevocation(th: Escrows.TokenHashFn)
    ensures var s := After(th, STALE_RUN);
            s.consumed != [] && s.row == Some(Row(Revoked, ExecutionRevoked, Some(th("t")))) && !Faithful(s)
  {
    hide After, AllFresh, Faithful, Step;
    ReachesStage(th, 6);
    ReachesStage(th, 7);
    assert STALE_RUN[..7] == STALE_RUN;
    assert !Fresh(After(th, STALE_RUN[..6]), STALE_RUN[6]);
    NotAllFresh(th, STALE_RUN, 6);
    FaithfulExactlyWhenFresh(th, STALE_RUN);
  }

  lemma NotAllFresh(th: Escrows.TokenHashFn, run: seq<Action>, k: nat)
    requires k < |run| && !Fresh(After(th, run[..k]), run[k])
    ensures !AllFresh(th, run)
  {
  }

  lemma Unwind(th: Escrows.TokenHashFn, run: seq<Action>, k: nat)
    requires k < |run|
    ensures After(th, run[..k + 1]) == Step(After(th, run[..k]), th, run[k])
  {
    assert run[..k + 1][..k] == run[..k];
  }

  // ----- Without overlap this is the serial service -----

  function WriteFor(c: Escrows.Command): (w: Write) {
    match c
    case Release(minted) => ClaimRelease(minted)
    case Consume(token) => ClaimConsume(token)
    case Revoke => WriteRevoked
    case Impound => WriteQuarantined
    case Report(x) => WriteReport(x)
  }

  function RowOf(e: Escrow): (r: Row) {
    Row(e.status, e.execution, e.tokenDigest)
  }

  /** A read followed at once by its commit is exactly the serial command, entry and refusals included. */
  lemma UninterruptedIsSerial(s: State, e: Escrow, p: Proof, th: Escrows.TokenHashFn, c: Escrows.Command,
          now: int, t: nat)
    requires s.row == Some(RowOf(e)) && s.log == e.log && t !in s.pending && Escrows.Active(p, now) && !e.external
    ensures var s' := Step(Step(s, th, Read(t, WriteFor(c), true)), th, Commit(t));
            var r := Escrows.Apply(e, p, th, c, now);
            && (r.Ok? <==> t in Step(s, th, Read(t, WriteFor(c), true)).pending)
            && (r.Ok? ==> s'.row == Some(RowOf(r.value)) && s'.log == r.value.log)
            && (r.Err? ==> s' == s)
  {
    hide Strip;
  }
}
