/**
  Several workers and cancellers on one job of `execution_worker.py`.  Recovery runs every job that is
  on record as running, whether or not its worker still lives, and each worker counts on in the copy of
  `attempt_count` that it loaded when it started.  A canceller reads the status first and commits later.
*/
module WorkerRace {
  import opened Hashing
  import opened ExecutionWorker

  /** A worker between two commits, with its own copy of the attempt count. */
  datatype Runner = Gone | Loaded(copy: nat, was: JobStatus) | Ready(copy: nat) | InCall(copy: nat) | Replied(copy: nat, outcome: Outcome)

  /**
    `cancellers` counts the callers of `cancel_job` that found the job open and have not committed yet;
    `called` counts the calls of the executor and `tried` the attempts put on record, over all workers.
  */
  datatype State = State(job: Job, runners: seq<Runner>, cancellers: nat, called: nat, tried: nat)

  datatype Action = Begin | Go(runner: nat, answer: Outcome) | Halt(runner: nat) | AskToCancel | Withdraw

  function CopyOf(w: Runner): (n: nat) {
    if w.Gone? then 0 else w.copy
  }

  /** The columns a worker writes when it is done; it does not write the count again. */
  function Closed(j: Job, end: Job): (j': Job) {
    j.(status := end.status, error := end.error, result := end.result)
  }

  function Advance(s: State, i: nat, answer: Outcome): (s': State)
    requires i < |s.runners|
  {
    match s.runners[i]
    case Gone => s
    case Loaded(a, was) =>
      var job := if was == Running then s.job else s.job.(status := Running);
      s.(job := job, runners := s.runners[i := Ready(a)])
    case Ready(a) =>
      if a < s.job.maxRetries + 1 then
        s.(job := s.job.(attempts := a + 1), runners := s.runners[i := InCall(a + 1)], tried := s.tried + 1)
      else s.(job := Closed(s.job, Buried(s.job, None)), runners := s.runners[i := Gone])
    case InCall(a) => s.(runners := s.runners[i := Replied(a, answer)], called := s.called + 1)
    case Replied(a, o) =>
      var end := Settled(s.job.(attempts := a), o);
      if end.Some? then s.(job := Closed(s.job, end.value), runners := s.runners[i := Gone])
      else s.(runners := s.runners[i := Ready(a)])
  }

  function Step(s: State, e: Action): (s': State) {
    match e
    case Begin =>
      if Terminal(s.job.status) then s
      else s.(runners := s.runners + [Loaded(s.job.attempts, s.job.status)])
    case Go(i, answer) => if i < |s.runners| then Advance(s, i, answer) else s
    case Halt(i) => if i < |s.runners| then s.(runners := s.runners[i := Gone]) else s
    case AskToCancel => if Terminal(s.job.status) then s else s.(cancellers := s.cancellers + 1)
    case Withdraw => if s.cancellers == 0 then s else s.(job := s.job.(status := Cancelled), cancellers := s.cancellers - 1)
  }

  function After(s: State, run: seq<Action>): (s': State) {
    if run == [] then s else Step(After(s, run[..|run| - 1]), run[|run| - 1])
  }

  lemma AfterSnoc(s: State, run: seq<Action>, e: Action)
    ensures After(s, run + [e]) == Step(After(s, run), e)
  {
    assert (run + [e])[..|run|] == run;
  }

  lemma {:induction false} AfterConcat(s: State, a: seq<Action>, b: seq<Action>)
    ensures After(s, a + b) == After(After(s, a), b)
    decreases |b|
  {
    hide Step;
    if b == [] {
      assert a + b == a;
    } else {
      var t := |b| - 1;
      AfterConcat(s, a, b[..t]);
      assert (a + b)[..|a + b| - 1] == a + b[..t];
    }
  }

  predicate Submitted(s: State) {
    s.job.status == Pending && s.job.attempts == 0 && s.runners == [] && s.cancellers == 0 && s.called == 0 && s.tried == 0
  }

  // ----- When the count on record is the truth -----

  /** Whoever records an attempt finds the count still as in its own copy. */
  predicate Fresh(s: State, e: Action) {
    e.Go? && e.runner < |s.runners| && s.runners[e.runner].Ready? && s.runners[e.runner].copy < s.job.maxRetries + 1 ==>
      s.runners[e.runner].copy == s.job.attempts
  }

  ghost predicate AllFresh(s: State, run: seq<Action>) {
    forall k :: 0 <= k < |run| ==> Fresh(After(s, run[..k]), run[k])
  }

  lemma AllFreshSnoc(s: State, run: seq<Action>)
    requires run != []
    ensures AllFresh(s, run) <==> AllFresh(s, run[..|run| - 1]) && Fresh(After(s, run[..|run| - 1]), run[|run| - 1])
  {
    hide After, Fresh;
    var n := |run| - 1;
    var before := run[..n];
    assert forall k: nat :: k < n ==> before[..k] == run[..k] && before[k] == run[k];
    assert forall k: nat :: k < n ==> (Fresh(After(s, before[..k]), before[k]) <==> Fresh(After(s, run[..k]), run[k]));
  }

  ghost predicate Truthful(s: State) {
    s.job.attempts == s.tried && forall i :: 0 <= i < |s.runners| ==> CopyOf(s.runners[i]) <= s.tried
  }

  /** Some attempt was recorded over another: the count is behind, and so is every copy. */
  ghost predicate Behind(s: State) {
    s.job.attempts < s.tried && forall i :: 0 <= i < |s.runners| ==> CopyOf(s.runners[i]) < s.tried
  }

  lemma StepTruth(s: State, e: Action)
    ensures Truthful(s) && Fresh(s, e) ==> Truthful(Step(s, e))
    ensures Truthful(s) && !Fresh(s, e) ==> Behind(Step(s, e))
    ensures Behind(s) ==> Behind(Step(s, e))
  {
    hide Settled, Buried;
  }

  lemma {:induction false} TruthOfRun(s: State, run: seq<Action>)
    requires Submitted(s)
    ensures AllFresh(s, run) ==> Truthful(After(s, run))
    ensures !AllFresh(s, run) ==> Behind(After(s, run))
  {
    if run != [] {
      TruthOfRun(s, run[..|run| - 1]);
      AllFreshSnoc(s, run);
      StepTruth(After(s, run[..|run| - 1]), run[|run| - 1]);
      hide Step, AllFresh, Fresh, Truthful, Behind;
    }
  }

  /** For every run: the count on record is the number of attempts made if and only if every attempt was recorded on a fresh copy. */
  lemma CountTrueExactlyWhenFresh(s: State, run: seq<Action>)
    requires Submitted(s)
    ensures After(s, run).job.attempts == After(s, run).tried <==> AllFresh(s, run)
  {
    TruthOfRun(s, run);
    hide After, AllFresh;
  }

  // ----- How many calls are still to come -----

  function Clip(n: int): (m: nat) {
    if n < 0 then 0 else n
  }

  /** The calls a worker can still make. */
  function Left(w: Runner, j: Job): (n: nat) {
    var r := j.maxRetries + 1;
    match w
    case Gone => 0
    case Loaded(a, _) => Clip(r - a)
    case Ready(a) => Clip(r - a)
    case InCall(a) => 1 + Clip(r - a)
    case Replied(a, o) => if Settled(j.(attempts := a), o).None? then Clip(r - a) else 0
  }

  function LeftAll(ws: seq<Runner>, j: Job): (n: nat) {
    if ws == [] then 0 else LeftAll(ws[..|ws| - 1], j) + Left(ws[|ws| - 1], j)
  }

  function Potential(s: State): (n: nat) {
    s.called + LeftAll(s.runners, s.job)
  }

  lemma {:induction false} LeftSet(ws: seq<Runner>, i: nat, w: Runner, j: Job)
    requires i < |ws|
    ensures LeftAll(ws[i := w], j) == LeftAll(ws, j) - Left(ws[i], j) + Left(w, j)
  {
    hide Left;
    var t := |ws| - 1;
    if i == t {
      assert ws[i := w][..t] == ws[..t];
    } else {
      LeftSet(ws[..t], i, w, j);
      assert ws[i := w][..t] == ws[..t][i := w];
    }
  }

  lemma LeftSnoc(ws: seq<Runner>, w: Runner, j: Job)
    ensures LeftAll(ws + [w], j) == LeftAll(ws, j) + Left(w, j)
  {
    assert (ws + [w])[..|ws|] == ws;
  }

  /** Only the retry limit of the job enters. */
  lemma {:induction false} LeftSame(ws: seq<Runner>, j: Job, k: Job)
    requires j.maxRetries == k.maxRetries
    ensures LeftAll(ws, j) == LeftAll(ws, k)
  {
    if ws != [] {
      LeftSame(ws[..|ws| - 1], j, k);
    }
  }

  lemma GoPotential(s: State, i: nat, answer: Outcome)
    requires i < |s.runners|
    ensures var d := Advance(s, i, answer);
            && d.runners == s.runners[i := d.runners[i]] && |d.runners| == |s.runners| && d.job.maxRetries == s.job.maxRetries
            && d.called + Left(d.runners[i], s.job) <= s.called + Left(s.runners[i], s.job)
  {
    hide Judge, Buried;
  }

  lemma StepPotential(s: State, e: Action)
    ensures Step(s, e).job.maxRetries == s.job.maxRetries
    ensures !e.Begin? ==> Potential(Step(s, e)) <= Potential(s)
    ensures e.Begin? && !Terminal(s.job.status) ==> Potential(Step(s, e)) == Potential(s) + Clip(s.job.maxRetries + 1 - s.job.attempts)
    ensures e.Begin? && Terminal(s.job.status) ==> Step(s, e) == s
  {
    var d := Step(s, e);
    LeftSame(d.runners, d.job, s.job);
    match e
    case Begin => LeftSnoc(s.runners, Loaded(s.job.attempts, s.job.status), s.job);
    case Go(i, answer) =>
      if i < |s.runners| {
        GoPotential(s, i, answer);
        LeftSet(s.runners, i, d.runners[i], s.job);
        hide Advance, Left;
      }
    case Halt(i) => if i < |s.runners| { LeftSet(s.runners, i, Gone, s.job); }
    case AskToCancel =>
    case Withdraw =>
    hide LeftAll;
  }

  ghost predicate NoBegins(run: seq<Action>) {
    forall e :: e in run ==> !e.Begin?
  }

  lemma {:induction false} NoBeginsBound(s: State, run: seq<Action>)
    requires NoBegins(run)
    ensures After(s, run).called <= Potential(s) && Potential(After(s, run)) <= Potential(s)
    ensures After(s, run).job.maxRetries == s.job.maxRetries
  {
    if run != [] {
      var t := |run| - 1;
      assert run[t] in run && forall e :: e in run[..t] ==> e in run;
      NoBeginsBound(s, run[..t]);
      StepPotential(After(s, run[..t]), run[t]);
      hide Step, LeftAll;
    }
  }

  /** One worker makes all the calls it has left. */
  lemma {:induction false} Drain(s: State, i: nat) returns (run: seq<Action>)
    requires i < |s.runners|
    ensures NoBegins(run)
    ensures var d := After(s, run);
            && d.called == s.called + Left(s.runners[i], s.job) && d.job.maxRetries == s.job.maxRetries
            && |d.runners| == |s.runners| && d.runners == s.runners[i := d.runners[i]]
    decreases Left(s.runners[i], s.job), if s.runners[i].Replied? then 3 else if s.runners[i].Loaded? then 2 else if s.runners[i].Ready? then 1 else 0
  {
    if Left(s.runners[i], s.job) == 0 {
      run := [];
      assert s.runners[i := s.runners[i]] == s.runners;
    } else {
      var e := Go(i, Raised(""));
      var next := Step(s, e);
      NextCall(s, i);
      var rest := Drain(next, i);
      run := [e] + rest;
      AfterConcat(s, [e], rest);
      AfterSnoc(s, [], e);
      assert [] + [e] == [e];
      hide Step, Left;
    }
  }

  lemma NextCall(s: State, i: nat)
    requires i < |s.runners| && Left(s.runners[i], s.job) > 0
    ensures var d := Step(s, Go(i, Raised("")));
            && |d.runners| == |s.runners| && d.runners == s.runners[i := d.runners[i]] && d.job.maxRetries == s.job.maxRetries
            && d.called + Left(d.runners[i], d.job) == s.called + Left(s.runners[i], s.job)
            && (s.runners[i].InCall? ==> d.called == s.called + 1)
            && (s.runners[i].Ready? ==> d.runners[i].InCall? && d.called == s.called)
            && (s.runners[i].Loaded? ==> d.runners[i].Ready? && d.called == s.called)
            && (s.runners[i].Replied? ==> d.runners[i].Ready? && d.called == s.called)
            && !s.runners[i].Gone?
  {
  }

  /** All workers together make all the calls left to them. */
  lemma {:induction false} DrainAll(s: State, k: nat) returns (run: seq<Action>)
    requires k <= |s.runners|
    ensures NoBegins(run)
    ensures var d := After(s, run);
            && d.called == s.called + LeftAll(s.runners[..k], s.job) && d.job.maxRetries == s.job.maxRetries
            && |d.runners| == |s.runners| && d.runners[k..] == s.runners[k..]
  {
    if k == 0 {
      run := [];
    } else {
      var first := DrainAll(s, k - 1);
      var mid := After(s, first);
      assert mid.runners[k - 1] == mid.runners[k - 1..][0] == s.runners[k - 1..][0] == s.runners[k - 1];
      var rest := Drain(mid, k - 1);
      run := first + rest;
      AfterConcat(s, first, rest);
      assert s.runners[..k] == s.runners[..k - 1] + [s.runners[k - 1]];
      LeftSnoc(s.runners[..k - 1], s.runners[k - 1], s.job);
      LeftSame([s.runners[k - 1]], s.job, mid.job);
      LeftOne(s.runners[k - 1], s.job, mid.job);
      var d := After(mid, rest);
      assert d.runners[k..] == mid.runners[k..] == mid.runners[k - 1..][1..] == s.runners[k - 1..][1..] == s.runners[k..];
      hide Step, Left, LeftAll, After;
    }
  }

  lemma LeftOne(w: Runner, j: Job, k: Job)
    requires j.maxRetries == k.maxRetries
    ensures Left(w, j) == Left(w, k)
  {
  }

  /** The workers now alive can go past the limit. */
  ghost predicate CanExceed(s: State) {
    exists run :: NoBegins(run) && After(s, run).called > Allowance(s.job)
  }

  /** They can if and only if the calls made and the calls left to them add up to more than the limit. */
  lemma {:induction false} CanExceedExactlyWhen(s: State)
    ensures CanExceed(s) <==> Potential(s) > Allowance(s.job)
  {
    if CanExceed(s) {
      var run :| NoBegins(run) && After(s, run).called > Allowance(s.job);
      NoBeginsBound(s, run);
    }
    if Potential(s) > Allowance(s.job) {
      var run := DrainAll(s, |s.runners|);
      assert s.runners[..|s.runners|] == s.runners;
      assert NoBegins(run) && After(s, run).called > Allowance(s.job);
    }
  }

  /**
    When a start is safe: after starting a worker on an open job the limit can be exceeded exactly
    when the calls made, those left to the live workers and those the record grants the new one
    are more than the limit.
  */
  lemma {:induction false} StartCanExceedExactlyWhen(s: State)
    requires !Terminal(s.job.status)
    ensures CanExceed(Step(s, Begin)) <==>
              s.called + LeftAll(s.runners, s.job) + Clip(s.job.maxRetries + 1 - s.job.attempts) > Allowance(s.job)
  {
    StepPotential(s, Begin);
    CanExceedExactlyWhen(Step(s, Begin));
    hide CanExceed, LeftAll, Step;
  }

  // ----- One worker at a time -----

  predicate NobodyLive(s: State) {
    forall i :: 0 <= i < |s.runners| ==> s.runners[i].Gone?
  }

  /** Every start finds no live worker. */
  ghost predicate Solo(s: State, run: seq<Action>) {
    forall k :: 0 <= k < |run| && run[k].Begin? ==> NobodyLive(After(s, run[..k]))
  }

  lemma SoloPrefix(s: State, run: seq<Action>)
    requires run != [] && Solo(s, run)
    ensures Solo(s, run[..|run| - 1]) && (run[|run| - 1].Begin? ==> NobodyLive(After(s, run[..|run| - 1])))
  {
    hide After, NobodyLive;
    var n := |run| - 1;
    var before := run[..n];
    forall k | 0 <= k < n && before[k].Begin? ensures NobodyLive(After(s, before[..k])) {
      assert before[..k] == run[..k] && before[k] == run[k];
    }
  }

  /** At most one worker lives, its copy is the record, and the calls are covered by the attempts on record. */
  ghost predicate SoloInv(s: State) {
    && (forall i, k :: 0 <= i < |s.runners| && 0 <= k < |s.runners| && !s.runners[i].Gone? && !s.runners[k].Gone? ==> i == k)
    && (forall i :: 0 <= i < |s.runners| && !s.runners[i].Gone? ==> s.runners[i].copy == s.job.attempts)
    && s.called <= s.job.attempts <= Allowance(s.job)
    && (forall i :: 0 <= i < |s.runners| && s.runners[i].InCall? ==> s.called < s.job.attempts)
  }

  lemma SoloStep(s: State, e: Action)
    requires SoloInv(s) && (e.Begin? ==> NobodyLive(s))
    ensures SoloInv(Step(s, e)) && Fresh(s, e) && Step(s, e).job.maxRetries == s.job.maxRetries
  {
    hide Settled, Buried;
  }

  lemma {:induction false} SoloRun(s: State, run: seq<Action>)
    requires Submitted(s) && Solo(s, run)
    ensures SoloInv(After(s, run)) && AllFresh(s, run) && After(s, run).job.maxRetries == s.job.maxRetries
  {
    if run != [] {
      SoloPrefix(s, run);
      SoloRun(s, run[..|run| - 1]);
      SoloStep(After(s, run[..|run| - 1]), run[|run| - 1]);
      AllFreshSnoc(s, run);
      hide Step, SoloInv, Fresh, AllFresh, Solo, NobodyLive;
    }
  }

  /** While every start finds no live worker, crashes, recoveries and cancellations never push the calls past the limit. */
  lemma {:induction false} SoloBound(s: State, run: seq<Action>)
    requires Submitted(s) && Solo(s, run)
    ensures After(s, run).called <= Allowance(s.job) && AllFresh(s, run)
  {
    SoloRun(s, run);
    hide After, AllFresh, Solo;
  }

  /** The failing run, for every limit: a second start beside a live worker lets the executor be called twice as often. */
  lemma {:induction false} OverlappingStartDoubles(s: State) returns (run: seq<Action>)
    requires Submitted(s) && s.job.maxRetries >= 0
    ensures After(s, run).called == 2 * Allowance(s.job) > Allowance(s.job)
    ensures !Solo(s, run) && forall k :: 2 <= k < |run| ==> !run[k].Begin?
  {
    var two := After(s, [Begin, Begin]);
    AfterSnoc(s, [], Begin);
    AfterSnoc(s, [Begin], Begin);
    assert [] + [Begin] == [Begin] && [Begin] + [Begin] == [Begin, Begin];
    assert two.runners == [Loaded(0, Pending), Loaded(0, Pending)];
    LeftSnoc([], Loaded(0, Pending), two.job);
    LeftSnoc([Loaded(0, Pending)], Loaded(0, Pending), two.job);
    assert [] + [Loaded(0, Pending)] == [Loaded(0, Pending)] && [Loaded(0, Pending)] + [Loaded(0, Pending)] == two.runners;
    var rest := DrainAll(two, 2);
    assert two.runners[..2] == two.runners;
    run := [Begin, Begin] + rest;
    AfterConcat(s, [Begin, Begin], rest);
    assert run[1].Begin? && run[..1] == [Begin];
    assert !NobodyLive(After(s, run[..1])) by {
      assert After(s, [Begin]).runners == [Loaded(0, Pending)];
    }
    forall k | 2 <= k < |run| ensures !run[k].Begin? {
      assert run[k] == rest[k - 2] && rest[k - 2] in rest;
    }
  }

  // ----- When a terminal status is final -----

  /** A worker that cannot write a status other than `st` any more: it is gone, or its next commit is its last and writes `st`. */
  predicate Harmless(w: Runner, j: Job, st: JobStatus) {
    match w
    case Gone => true
    case Loaded(a, was) => was == Running && a >= j.maxRetries + 1 && st == DeadLetter
    case Ready(a) => a >= j.maxRetries + 1 && st == DeadLetter
    case InCall(_) => false
    case Replied(a, o) => var end := Settled(j.(attempts := a), o); end.Some? && end.value.status == st
  }

  /** No worker can write another status, and no cancellation is in flight that would change it. */
  ghost predicate Settling(s: State) {
    && (forall i :: 0 <= i < |s.runners| ==> Harmless(s.runners[i], s.job, s.job.status))
    && (s.cancellers == 0 || s.job.status == Cancelled)
  }

  ghost predicate Final(s: State) {
    forall run :: After(s, run).job.status == s.job.status
  }

  /** Only the retry limit of the job enters. */
  lemma SettledStatus(j: Job, k: Job, o: Outcome)
    requires j.maxRetries == k.maxRetries && j.attempts == k.attempts
    ensures Settled(j, o).Some? <==> Settled(k, o).Some?
    ensures Settled(j, o).Some? ==> Settled(j, o).value.status == Settled(k, o).value.status
  {
  }

  lemma HarmlessSame(w: Runner, j: Job, k: Job, st: JobStatus)
    requires j.maxRetries == k.maxRetries
    ensures Harmless(w, j, st) <==> Harmless(w, k, st)
  {
    hide Settled;
    if w.Replied? {
      SettledStatus(j.(attempts := w.copy), k.(attempts := w.copy), w.outcome);
    }
  }

  lemma SettlingStep(s: State, e: Action)
    requires Settling(s) && Terminal(s.job.status)
    ensures Settling(Step(s, e)) && Step(s, e).job.status == s.job.status
  {
    hide Settled, Harmless;
    var d := Step(s, e);
    if e.Go? && e.runner < |s.runners| {
      HarmlessGo(s, e.runner, e.answer);
    }
    forall i | 0 <= i < |d.runners| ensures Harmless(d.runners[i], d.job, s.job.status) {
      if i < |s.runners| && d.runners[i] == s.runners[i] {
        HarmlessSame(s.runners[i], s.job, d.job, s.job.status);
      } else {
        assert e.Halt? ==> Harmless(d.runners[i], d.job, s.job.status) by { GoneHarmless(d.job, s.job.status); }
      }
    }
  }

  lemma GoneHarmless(j: Job, st: JobStatus)
    ensures Harmless(Gone, j, st)
  {
  }

  lemma HarmlessGo(s: State, i: nat, answer: Outcome)
    requires i < |s.runners| && Harmless(s.runners[i], s.job, s.job.status)
    ensures var d := Advance(s, i, answer);
            && d.job.status == s.job.status && d.job.maxRetries == s.job.maxRetries && d.cancellers == s.cancellers
            && d.runners == s.runners[i := d.runners[i]] && |d.runners| == |s.runners| && Harmless(d.runners[i], d.job, s.job.status)
  {
    if s.runners[i].Replied? {
      SettledStatus(s.job.(attempts := s.runners[i].copy), s.job.(attempts := s.runners[i].copy), s.runners[i].outcome);
    }
    hide Settled;
  }

  lemma {:induction false} SettlingRun(s: State, run: seq<Action>)
    requires Settling(s) && Terminal(s.job.status)
    ensures Settling(After(s, run)) && After(s, run).job.status == s.job.status
  {
    hide Step, Settling;
    if run != [] {
      SettlingRun(s, run[..|run| - 1]);
      SettlingStep(After(s, run[..|run| - 1]), run[|run| - 1]);
    }
  }

  /** An answer that makes a worker write another status than `st`. */
  function Contrary(st: JobStatus): (o: Outcome) {
    if st == Succeeded then Answered(false, "failed", None) else Answered(true, "succeeded", None)
  }

  lemma ContrarySettles(j: Job, st: JobStatus)
    ensures var end := Settled(j, Contrary(st)); end.Some? && end.value.status != st
  {
  }

  function Distance(w: Runner, j: Job): (n: nat) {
    match w
    case Gone => 0
    case Loaded(_, _) => 5
    case Ready(_) => 3
    case InCall(_) => 2
    case Replied(a, o) => if Settled(j.(attempts := a), o).None? then 4 else 1
  }

  /** A worker that is not harmless moves the status, or moves on and stays so. */
  lemma HarmfulGo(s: State, i: nat)
    requires i < |s.runners| && !Harmless(s.runners[i], s.job, s.job.status)
    ensures var d := Advance(s, i, Contrary(s.job.status));
            || d.job.status != s.job.status
            || (&& i < |d.runners| && !Harmless(d.runners[i], d.job, s.job.status)
                && Distance(d.runners[i], d.job) < Distance(s.runners[i], s.job))
  {
    var w := s.runners[i];
    ContrarySettles(s.job.(attempts := CopyOf(w)), s.job.status);
    if w.Replied? {
      SettledFacts(s.job.(attempts := w.copy), w.outcome);
    }
    hide Settled, Contrary;
  }

  lemma {:induction false} Overturn(s: State, i: nat) returns (run: seq<Action>)
    requires i < |s.runners| && !Harmless(s.runners[i], s.job, s.job.status)
    ensures After(s, run).job.status != s.job.status
    decreases Distance(s.runners[i], s.job)
  {
    hide Advance, Harmless, Distance, Contrary;
    var e := Go(i, Contrary(s.job.status));
    var d := Step(s, e);
    HarmfulGo(s, i);
    AfterSnoc(s, [], e);
    assert [] + [e] == [e];
    if d.job.status != s.job.status {
      run := [e];
    } else {
      var rest := Overturn(d, i);
      run := [e] + rest;
      AfterConcat(s, [e], rest);
    }
  }

  /**
    A terminal status is final for every later run of workers, recoveries, crashes and cancellations if and
    only if no live worker can still write another one and no cancellation that read the job open
    is still to commit, unless the job is cancelled already.
  */
  lemma {:induction false} TerminalFinalExactlyWhenSettling(s: State)
    requires Terminal(s.job.status)
    ensures Final(s) <==> Settling(s)
  {
    hide After, Step, Harmless, Terminal;
    if Settling(s) {
      forall run ensures After(s, run).job.status == s.job.status {
        SettlingRun(s, run);
      }
    }
    if Final(s) {
      forall i | 0 <= i < |s.runners| ensures Harmless(s.runners[i], s.job, s.job.status) {
        if !Harmless(s.runners[i], s.job, s.job.status) {
          var run := Overturn(s, i);
        }
      }
      if s.cancellers > 0 && s.job.status != Cancelled {
        CancelsNow(s);
      }
    }
  }

  lemma CancelsNow(s: State)
    requires s.cancellers > 0
    ensures After(s, [Withdraw]).job.status == Cancelled
  {
    AfterSnoc(s, [], Withdraw);
    assert [] + [Withdraw] == [Withdraw];
  }

  /** The failing run: the job is cancelled after it succeeded, its worker being gone. */
  lemma {:induction false} LateCancellation(s: State) returns (run: seq<Action>)
    requires Submitted(s) && s.job.maxRetries >= 0
    ensures var d := After(s, run);
            && d.job.status == Succeeded && NobodyLive(d) && d.cancellers == 1
            && After(s, run + [Withdraw]).job.status == Cancelled
  {
    var yes := Answered(true, "succeeded", None);
    run := [Begin, AskToCancel] + [Go(0, yes)] + [Go(0, yes)] + [Go(0, yes)] + [Go(0, yes)];
    AfterSnoc(s, [], Begin);
    AfterSnoc(s, [Begin], AskToCancel);
    assert [] + [Begin] == [Begin] && [Begin] + [AskToCancel] == [Begin, AskToCancel];
    var s2 := After(s, [Begin, AskToCancel]);
    assert s2 == s.(runners := [Loaded(0, Pending)], cancellers := 1);
    AfterSnoc(s, [Begin, AskToCancel], Go(0, yes));
    AfterSnoc(s, [Begin, AskToCancel] + [Go(0, yes)], Go(0, yes));
    AfterSnoc(s, [Begin, AskToCancel] + [Go(0, yes)] + [Go(0, yes)], Go(0, yes));
    AfterSnoc(s, [Begin, AskToCancel] + [Go(0, yes)] + [Go(0, yes)] + [Go(0, yes)], Go(0, yes));
    AfterSnoc(s, run, Withdraw);
    FourSteps(s2, yes);
    hide Step, Submitted;
  }

  lemma FourSteps(s: State, yes: Outcome)
    requires s.runners == [Loaded(0, Pending)] && s.job.attempts == 0 && s.job.maxRetries >= 0 && s.cancellers == 1
    requires yes == Answered(true, "succeeded", None)
    ensures var d := Step(Step(Step(Step(s, Go(0, yes)), Go(0, yes)), Go(0, yes)), Go(0, yes));
            d.job.status == Succeeded && d.runners == [Gone] && d.cancellers == 1
  {
    var s1 := Step(s, Go(0, yes));
    assert s1.runners == [Ready(0)];
    var s2 := Step(s1, Go(0, yes));
    assert s2.runners == [InCall(1)];
    var s3 := Step(s2, Go(0, yes));
    assert s3.runners == [Replied(1, yes)];
  }
}
