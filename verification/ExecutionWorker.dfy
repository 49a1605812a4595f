/** `execution_worker.py`: durable jobs run with retries, and what survives a crash at any point. */
module ExecutionWorker {
  import opened Hashing

  type Id = nat

  datatype JobStatus = Pending | Running | Succeeded | Failed | TimedOut | DeadLetter | Cancelled

  /** What the executor did: it raised, or answered with `ok`, a state and perhaps an error text. */
  datatype Outcome = Raised(message: string) | Answered(ok: bool, state: string, error: Option<string>)

  datatype Job = Job(tenant: string, key: string, status: JobStatus, attempts: nat, maxRetries: int,
                     result: Option<Outcome>, error: Option<string>)

  datatype JobError = JobMissing | DeadLettered(reason: string)

  predicate Terminal(s: JobStatus) {
    s != Pending && s != Running
  }

  /** The executor's behaviour at each attempt; an attempt number is never used twice. */
  type Executor = nat -> Outcome

  datatype Verdict = Success | Unknown(error: string) | Failure(error: string) | Retry(error: string)

  function Judge(o: Outcome): (v: Verdict) {
    match o
    case Raised(e) => Retry(e)
    case Answered(ok, state, error) =>
      if ok || state == "succeeded" then Success
      else if state == "outcome_unknown" then Unknown(if error.Some? then error.value else "outcome unknown")
      else if state == "failed" then Failure(if error.Some? then error.value else "execution failed")
      else Retry(if error.Some? then error.value else "retryable error")
  }

  // ----- The retry loop as a recursion -----

  /** `slept` lists the attempts after which the worker backed off. */
  datatype Course = Course(job: Job, calls: nat, slept: seq<nat>)

  function Buried(j: Job, last: Option<string>): (j': Job) {
    j.(status := DeadLetter, error := Some(if last.Some? && last.value != "" then last.value else "retries exhausted"))
  }

  function Reason(j: Job): (s: string) {
    if j.error.Some? then j.error.value else ""
  }

  /** How the row ends after this answer, or none when another attempt follows. */
  function Settled(tried: Job, o: Outcome): (end: Option<Job>) {
    var final := tried.attempts >= tried.maxRetries + 1;
    match Judge(o)
    case Success => Some(tried.(status := Succeeded, result := Some(o)))
    case Failure(e) => Some(tried.(status := Failed, error := Some(e), result := Some(o)))
    case Unknown(e) => if final then Some(tried.(status := TimedOut, error := Some(e))) else None
    case Retry(e) => if final then Some(Buried(tried, Some(e))) else None
  }

  function ErrorOf(o: Outcome): (e: Option<string>) {
    match Judge(o)
    case Success => None
    case Failure(e) => Some(e)
    case Unknown(e) => Some(e)
    case Retry(e) => Some(e)
  }

  function Drive(j: Job, executor: Executor, last: Option<string>): (c: Course)
    decreases j.maxRetries + 1 - j.attempts
  {
    if j.attempts >= j.maxRetries + 1 then Course(Buried(j, last), 0, [])
    else
      var tried := j.(attempts := j.attempts + 1);
      var o := executor(tried.attempts);
      match Settled(tried, o)
      case Some(end) => Course(end, 1, [])
      case None =>
        var rest := Drive(tried, executor, ErrorOf(o));
        Course(rest.job, rest.calls + 1, [tried.attempts] + rest.slept)
  }

  /** `run_job` on a job row. */
  function CourseOf(j: Job, executor: Executor): (c: Course) {
    if Terminal(j.status) then Course(j, 0, []) else Drive(j.(status := Running), executor, None)
  }

  function Allowance(j: Job): (n: nat) {
    if j.maxRetries + 1 < 0 then 0 else j.maxRetries + 1
  }

  lemma SettledFacts(tried: Job, o: Outcome)
    ensures var end, v := Settled(tried, o), Judge(o);
            && (end.None? ==> tried.attempts < tried.maxRetries + 1 && (v.Unknown? || v.Retry?))
            && (end.Some? ==> end.value == tried.(status := end.value.status, error := end.value.error, result := end.value.result))
            && (end.Some? ==> Terminal(end.value.status) && end.value.status != Cancelled)
            && (end.Some? && (v.Unknown? || v.Retry?) ==> tried.attempts >= tried.maxRetries + 1)
            && (end.Some? ==> (end.value.status == Succeeded <==> v.Success?) && (end.value.status == Failed <==> v.Failure?))
            && (end.Some? ==> (end.value.status == TimedOut <==> v.Unknown?) && (end.value.status == DeadLetter <==> v.Retry?))
  {
  }

  lemma DriveUnfold(j: Job, executor: Executor, last: Option<string>)
    ensures j.attempts >= j.maxRetries + 1 ==> Drive(j, executor, last) == Course(Buried(j, last), 0, [])
    ensures j.attempts < j.maxRetries + 1 ==>
              var tried := j.(attempts := j.attempts + 1);
              var o, c := executor(tried.attempts), Drive(j, executor, last);
              var end, rest := Settled(tried, o), Drive(tried, executor, ErrorOf(o));
              && (end.Some? ==> c == Course(end.value, 1, []))
              && (end.None? ==> c == Course(rest.job, rest.calls + 1, [tried.attempts] + rest.slept))
  {
  }

  lemma {:induction false} DriveBounds(j: Job, executor: Executor, last: Option<string>)
    ensures var c := Drive(j, executor, last);
            && Terminal(c.job.status) && c.job.status != Cancelled
            && c.job.attempts == j.attempts + c.calls
            && (c.calls > 0 ==> c.job.attempts <= Allowance(j))
            && c.job.maxRetries == j.maxRetries && c.job.tenant == j.tenant && c.job.key == j.key
            && |c.slept| <= c.calls
            && (forall i :: 0 <= i < |c.slept| ==> c.slept[i] == j.attempts + 1 + i && c.slept[i] <= j.maxRetries)
    decreases j.maxRetries + 1 - j.attempts
  {
    hide Drive, Settled, Judge, ErrorOf;
    DriveUnfold(j, executor, last);
    if j.attempts < j.maxRetries + 1 {
      var tried := j.(attempts := j.attempts + 1);
      var o := executor(tried.attempts);
      SettledFacts(tried, o);
      if Settled(tried, o).None? {
        DriveBounds(tried, executor, ErrorOf(o));
      }
    }
  }

  lemma CourseBounds(j: Job, executor: Executor)
    ensures var c := CourseOf(j, executor);
            && Terminal(c.job.status)
            && (c.job.status == Cancelled ==> j.status == Cancelled)
            && c.job.attempts == j.attempts + c.calls
            && (c.calls > 0 ==> c.job.attempts <= Allowance(j))
            && c.job.maxRetries == j.maxRetries && c.job.tenant == j.tenant && c.job.key == j.key
            && (forall i :: 0 <= i < |c.slept| ==> c.slept[i] == j.attempts + 1 + i && c.slept[i] <= j.maxRetries)
  {
    DriveBounds(j.(status := Running), executor, None);
  }

  /** The final status tells exactly what the last executor answer was. */
  lemma {:induction false} DriveVerdict(j: Job, executor: Executor, last: Option<string>)
    requires j.attempts < j.maxRetries + 1
    ensures var c := Drive(j, executor, last);
            var v := Judge(executor(c.job.attempts));
            && (c.job.status == Succeeded <==> v.Success?)
            && (c.job.status == Failed <==> v.Failure?)
            && (c.job.status == TimedOut <==> v.Unknown?)
            && (c.job.status == DeadLetter <==> v.Retry?)
            && (v.Unknown? || v.Retry? ==> c.job.attempts == Allowance(j))
            && (forall n: nat :: j.attempts < n < c.job.attempts ==> Judge(executor(n)).Unknown? || Judge(executor(n)).Retry?)
    decreases j.maxRetries + 1 - j.attempts
  {
    hide Drive, Settled, Judge, ErrorOf;
    DriveUnfold(j, executor, last);
    var tried := j.(attempts := j.attempts + 1);
    var o := executor(tried.attempts);
    SettledFacts(tried, o);
    if Settled(tried, o).None? {
      DriveVerdict(tried, executor, ErrorOf(o));
    }
  }

  // ----- Backing off -----

  function PowerOfTwo(n: nat): (p: real)
    ensures p >= 1.0
  {
    if n == 0 then 1.0 else 2.0 * PowerOfTwo(n - 1)
  }

  /** `min(2.0 * 2 ** (attempt - 1), 30.0)`. */
  function Delay(attempt: nat): (d: real)
    requires attempt >= 1
    ensures 0.0 < d <= 30.0
  {
    var d := 2.0 * PowerOfTwo(attempt - 1);
    if d <= 30.0 then d else 30.0
  }

  /** The jitter drawn after each attempt. */
  type Jitter = nat -> real

  ghost predicate Jittered(jitter: Jitter) {
    forall k: nat :: k >= 1 ==> 0.0 <= jitter(k) <= Delay(k) * 0.1
  }

  function TimeSlept(slept: seq<nat>, jitter: Jitter): (t: real)
    requires forall i :: 0 <= i < |slept| ==> slept[i] >= 1
  {
    if slept == [] then 0.0
    else TimeSlept(slept[..|slept| - 1], jitter) + Delay(slept[|slept| - 1]) + jitter(slept[|slept| - 1])
  }

  /** The sum of min(2^k, 30) for k from a + 1 to b. */
  function DelaySum(a: nat, b: nat): (t: real)
    ensures t >= 0.0
    decreases b - a
  {
    if b <= a then 0.0 else DelaySum(a, b - 1) + Delay(b)
  }

  lemma {:induction false} SumWiden(a: nat, b: nat, c: nat)
    requires b <= c
    ensures DelaySum(a, b) <= DelaySum(a, c) && DelaySum(a, c) <= DelaySum(0, c)
    decreases c
  {
    if b < c {
      SumWiden(a, b, c - 1);
    } else if a < c {
      SumWiden(a, b - 1, c - 1);
    }
  }

  lemma {:induction false} SleptWithin(slept: seq<nat>, jitter: Jitter, first: nat)
    requires Jittered(jitter) && forall i :: 0 <= i < |slept| ==> slept[i] == first + 1 + i
    ensures 0.0 <= TimeSlept(slept, jitter) <= 1.1 * DelaySum(first, first + |slept|)
  {
    if slept != [] {
      var n := |slept| - 1;
      SleptWithin(slept[..n], jitter, first);
      var k := slept[n];
      assert k == first + |slept|;
      assert DelaySum(first, k) == DelaySum(first, k - 1) + Delay(k);
    }
  }

  /** One call sleeps at most 1.1 times the sum of min(2^k, 30) for k from 1 to the number of retries. */
  lemma BackoffBounded(j: Job, executor: Executor, jitter: Jitter)
    requires Jittered(jitter)
    ensures var c := CourseOf(j, executor);
            && (forall i :: 0 <= i < |c.slept| ==> c.slept[i] >= 1)
            && 0.0 <= TimeSlept(c.slept, jitter) <= 1.1 * DelaySum(0, if j.maxRetries < 0 then 0 else j.maxRetries)
  {
    hide Jittered, CourseOf, TimeSlept;
    var c := CourseOf(j, executor);
    CourseBounds(j, executor);
    SleptWithin(c.slept, jitter, j.attempts);
    if c.slept != [] {
      assert c.slept[|c.slept| - 1] <= j.maxRetries;
      SumWiden(j.attempts, j.attempts + |c.slept|, j.maxRetries);
    }
  }

  // ----- Crashes -----

  /** Where a live worker stands between two commits; its copy of the row is the row itself. */
  datatype Phase = Idle | Looping(last: Option<string>) | Calling(before: Option<string>) | Holding(outcome: Outcome)

  /** `called` counts how often the executor was ever called for this job. */
  datatype Machine = Machine(job: Job, worker: Phase, called: nat)

  datatype Event = Start | Proceed(answer: Outcome) | Crash | Cancel

  /** One commit, one call, or one decision of the worker. */
  function Advance(m: Machine, answer: Outcome): (m': Machine) {
    match m.worker
    case Idle => m
    case Looping(last) =>
      if m.job.attempts < m.job.maxRetries + 1 then m.(job := m.job.(attempts := m.job.attempts + 1), worker := Calling(last))
      else m.(job := Buried(m.job, last), worker := Idle)
    case Calling(_) => m.(worker := Holding(answer), called := m.called + 1)
    case Holding(o) =>
      var end := Settled(m.job, o);
      if end.Some? then m.(job := end.value, worker := Idle) else m.(worker := Looping(ErrorOf(o)))
  }

  /**
    `Start` is a run or a recovery; here it waits until no worker is live.  A cancellation may come
    from elsewhere while a worker is live, in one step; `WorkerRace` splits it into its read and commit.
  */
  function Step(m: Machine, e: Event): (m': Machine) {
    match e
    case Start => if m.worker.Idle? && !Terminal(m.job.status) then m.(job := m.job.(status := Running), worker := Looping(None)) else m
    case Proceed(answer) => Advance(m, answer)
    case Crash => m.(worker := Idle)
    case Cancel => if !Terminal(m.job.status) then m.(job := m.job.(status := Cancelled)) else m
  }

  function After(m: Machine, run: seq<Event>): (m': Machine) {
    if run == [] then m else Step(After(m, run[..|run| - 1]), run[|run| - 1])
  }

  predicate Fresh(m: Machine) {
    m.worker.Idle? && m.called == 0 && m.job.attempts == 0
  }

  /** Calls never outnumber the attempts on record, which stay within the allowance. */
  predicate Inv(m: Machine) {
    && m.called <= m.job.attempts <= Allowance(m.job)
    && (m.worker.Calling? ==> m.called < m.job.attempts)
    && (!m.worker.Idle? ==> m.job.status in {Running, Cancelled})
  }

  /**
    For any executor and any schedule of crashes, recoveries and cancellations in which no run or
    recovery starts beside a live worker: at most max_retries + 1 calls.  `WorkerRace` has the rest.
  */
  lemma {:induction false} RetryBound(m: Machine, run: seq<Event>)
    requires Fresh(m)
    ensures Inv(After(m, run)) && After(m, run).job.maxRetries == m.job.maxRetries
    ensures After(m, run).called <= Allowance(m.job)
  {
    if run != [] {
      RetryBound(m, run[..|run| - 1]);
    }
  }

  /** Once no worker is live and no cancellation is in flight, a terminal status absorbs every run, recovery, cancellation and crash. */
  lemma {:induction false} TerminalAbsorbs(m: Machine, run: seq<Event>)
    requires m.worker.Idle? && Terminal(m.job.status)
    ensures After(m, run) == m
  {
    if run != [] {
      TerminalAbsorbs(m, run[..|run| - 1]);
    }
  }

  ghost predicate StaysCancelled(m: Machine) {
    forall run :: After(m, run).job.status == Cancelled
  }

  /** The worker's last commit overwrites a cancellation that came while it was live. */
  lemma {:induction false} OverwritesCancel(m: Machine) returns (run: seq<Event>)
    requires Inv(m) && m.job.status == Cancelled && !m.worker.Idle?
    ensures After(m, run).job.status != Cancelled
    decreases Remaining(m)
  {
    var yes := Answered(true, "succeeded", None);
    var next := Advance(m, yes);
    if next.worker.Idle? {
      run := [Proceed(yes)];
      assert run[..0] == [];
      assert After(m, run) == next;
    } else {
      var rest := OverwritesCancel(next);
      run := [Proceed(yes)] + rest;
      FirstStep(m, Proceed(yes), rest);
    }
  }

  lemma {:induction false} FirstStep(m: Machine, e: Event, rest: seq<Event>)
    ensures After(m, [e] + rest) == After(Step(m, e), rest)
    decreases |rest|
  {
    if rest == [] {
      assert [e] + rest == [e] && [e][..0] == [];
      assert After(m, []) == m;
    } else {
      assert ([e] + rest)[..|rest|] == [e] + rest[..|rest| - 1];
      FirstStep(m, e, rest[..|rest| - 1]);
    }
  }

  /** A cancellation is final exactly when no worker was live. */
  lemma CancelFinalExactlyWhenIdle(m: Machine)
    requires Inv(m) && m.job.status == Cancelled
    ensures StaysCancelled(m) <==> m.worker.Idle?
  {
    if m.worker.Idle? {
      forall run ensures After(m, run).job.status == Cancelled {
        TerminalAbsorbs(m, run);
      }
    } else {
      var run := OverwritesCancel(m);
    }
  }

  function Remaining(m: Machine): (n: nat) {
    var left := if m.job.attempts < m.job.maxRetries + 1 then m.job.maxRetries + 1 - m.job.attempts else 0;
    match m.worker
    case Idle => 0
    case Looping(_) => 3 * left + 1
    case Holding(_) => 3 * left + 2
    case Calling(_) => 3 * left + 3
  }

  /** The worker left alone until it is done. */
  function Undisturbed(m: Machine, executor: Executor): (m': Machine)
    decreases Remaining(m)
  {
    if m.worker.Idle? then m else Undisturbed(Advance(m, executor(m.job.attempts)), executor)
  }

  lemma ThreeSteps(m: Machine, executor: Executor)
    requires m.worker.Looping? && m.job.attempts < m.job.maxRetries + 1
    ensures var tried := m.job.(attempts := m.job.attempts + 1);
            Undisturbed(m, executor) == Undisturbed(Advance(Machine(tried, Holding(executor(tried.attempts)), m.called + 1), executor(tried.attempts)), executor)
  {
    var tried := m.job.(attempts := m.job.attempts + 1);
    var calling := Advance(m, executor(m.job.attempts));
    assert calling == Machine(tried, Calling(m.worker.last), m.called);
    var holding := Advance(calling, executor(tried.attempts));
    assert Undisturbed(calling, executor) == Undisturbed(holding, executor);
  }

  /** Left alone, the crash-prone machine does exactly what the retry loop does. */
  lemma {:induction false} UndisturbedIsDrive(m: Machine, executor: Executor)
    requires m.worker.Looping?
    ensures var c := Drive(m.job, executor, m.worker.last);
            Undisturbed(m, executor) == Machine(c.job, Idle, m.called + c.calls)
    decreases m.job.maxRetries + 1 - m.job.attempts
  {
    if m.job.attempts < m.job.maxRetries + 1 {
      ThreeSteps(m, executor);
      var tried := m.job.(attempts := m.job.attempts + 1);
      var o := executor(tried.attempts);
      if Settled(tried, o).None? {
        UndisturbedIsDrive(Machine(tried, Looping(ErrorOf(o)), m.called + 1), executor);
      }
    }
  }

  // ----- The worker -----

  lemma NoTime(jitter: Jitter)
    ensures TimeSlept([], jitter) == 0.0
  {
  }

  lemma MoreTime(slept: seq<nat>, attempt: nat, jitter: Jitter)
    requires attempt >= 1 && forall i :: 0 <= i < |slept| ==> slept[i] >= 1
    ensures TimeSlept(slept + [attempt], jitter) == TimeSlept(slept, jitter) + Delay(attempt) + jitter(attempt)
  {
    assert (slept + [attempt])[..|slept|] == slept;
  }

  class Worker {
    var jobs: map<Id, Job>
    var calls: nat
    var slept: real
    var next: Id

    ghost predicate Valid()
      reads this
    {
      && (forall i :: i in jobs ==> i < next)
      && (forall i, j :: i in jobs && j in jobs && jobs[i].tenant == jobs[j].tenant && jobs[i].key == jobs[j].key ==> i == j)
    }

    constructor ()
      ensures Valid() && jobs == map[] && calls == 0 && slept == 0.0
    {
      jobs, calls, slept, next := map[], 0, 0.0, 0;
    }

    /** `submit_job`: the same tenant and key get the same job. */
    method SubmitJob(tenant: string, key: string, maxRetries: int) returns (id: Id)
      requires Valid()
      modifies this`jobs, this`next
      ensures Valid() && id in jobs && jobs[id].tenant == tenant && jobs[id].key == key
      ensures id in old(jobs) ==> jobs == old(jobs)
      ensures id !in old(jobs) ==>
                && jobs == old(jobs)[id := Job(tenant, key, Pending, 0, maxRetries, None, None)]
                && forall i :: i in old(jobs) ==> old(jobs)[i].tenant != tenant || old(jobs)[i].key != key
    {
      var todo := jobs.Keys;
      while todo != {}
        invariant todo <= jobs.Keys
        invariant forall i :: i in jobs.Keys - todo ==> jobs[i].tenant != tenant || jobs[i].key != key
        decreases |todo|
      {
        var i :| i in todo;
        if jobs[i].tenant == tenant && jobs[i].key == key {
          return i;
        }
        todo := todo - {i};
      }
      id := next;
      jobs := jobs[id := Job(tenant, key, Pending, 0, maxRetries, None, None)];
      next := next + 1;
    }

    /** `_backoff`. */
    method Backoff(attempt: nat, jitter: Jitter)
      requires attempt >= 1
      modifies this`slept
      ensures slept == old(slept) + Delay(attempt) + jitter(attempt)
    {
      slept := slept + Delay(attempt) + jitter(attempt);
    }

    /** The loop of `run_job`: the attempt is on record before the executor is called. */
    method KeepTrying(id: Id, executor: Executor, jitter: Jitter)
      requires id in jobs && Jittered(jitter)
      modifies this`jobs, this`calls, this`slept
      ensures var c := Drive(old(jobs)[id], executor, None);
              && jobs == old(jobs)[id := c.job] && calls == old(calls) + c.calls
              && (forall i :: 0 <= i < |c.slept| ==> c.slept[i] >= 1)
              && slept == old(slept) + TimeSlept(c.slept, jitter)
    {
      hide Drive, Settled, ErrorOf, Buried, TimeSlept, Delay, Jittered;
      ghost var before := jobs;
      ghost var course := Drive(jobs[id], executor, None);
      DriveBounds(jobs[id], executor, None);
      NoTime(jitter);
      var last: Option<string> := None;
      ghost var done: seq<nat> := [];
      while jobs[id].attempts < jobs[id].maxRetries + 1
        invariant id in jobs && jobs == before[id := jobs[id]]
        invariant var rest := Drive(jobs[id], executor, last);
                  course.job == rest.job && course.calls == (calls - old(calls)) + rest.calls && course.slept == done + rest.slept
        invariant calls >= old(calls)
        invariant forall i :: 0 <= i < |done| ==> done[i] >= 1
        invariant slept == old(slept) + TimeSlept(done, jitter)
        decreases jobs[id].maxRetries + 1 - jobs[id].attempts
      {
        DriveUnfold(jobs[id], executor, last);
        var job := jobs[id].(attempts := jobs[id].attempts + 1);
        jobs := jobs[id := job];
        var answer := executor(job.attempts);
        calls := calls + 1;
        var end := Settled(job, answer);
        if end.Some? {
          jobs := jobs[id := end.value];
          assert course.slept == done;
          return;
        }
        last := ErrorOf(answer);
        Backoff(job.attempts, jitter);
        MoreTime(done, job.attempts, jitter);
        done := done + [job.attempts];
      }
      DriveUnfold(jobs[id], executor, last);
      jobs := jobs[id := Buried(jobs[id], last)];
      assert course.slept == done + [] == done;
    }

    /** `run_job`. */
    method RunJob(id: Id, executor: Executor, jitter: Jitter) returns (r: Result<Job, JobError>)
      requires Jittered(jitter)
      modifies this`jobs, this`calls, this`slept
      ensures id !in old(jobs) ==> r == Err(JobMissing) && jobs == old(jobs) && calls == old(calls) && slept == old(slept)
      ensures id in old(jobs) ==>
                var c := CourseOf(old(jobs)[id], executor);
                && jobs == old(jobs)[id := c.job] && calls == old(calls) + c.calls
                && (forall i :: 0 <= i < |c.slept| ==> c.slept[i] >= 1)
                && slept == old(slept) + TimeSlept(c.slept, jitter)
                && r == (if !Terminal(old(jobs)[id].status) && c.job.status == DeadLetter then Err(DeadLettered(Reason(c.job))) else Ok(c.job))
    {
      if id !in jobs {
        return Err(JobMissing);
      }
      hide Drive, Delay, Jittered, Reason;
      if Terminal(jobs[id].status) {
        assert jobs == jobs[id := jobs[id]];
        return Ok(jobs[id]);
      }
      jobs := jobs[id := jobs[id].(status := Running)];
      KeepTrying(id, executor, jitter);
      r := if jobs[id].status == DeadLetter then Err(DeadLettered(Reason(jobs[id]))) else Ok(jobs[id]);
    }

    /** `cancel_job`. */
    method CancelJob(id: Id) returns (r: Result<Job, JobError>)
      modifies this`jobs
      ensures id !in old(jobs) ==> r == Err(JobMissing) && jobs == old(jobs)
      ensures id in old(jobs) ==>
                var j := old(jobs)[id];
                jobs == old(jobs)[id := if Terminal(j.status) then j else j.(status := Cancelled)] && r == Ok(jobs[id])
    {
      if id !in jobs {
        return Err(JobMissing);
      }
      if Terminal(jobs[id].status) {
        assert jobs == jobs[id := jobs[id]];
        return Ok(jobs[id]);
      }
      jobs := jobs[id := jobs[id].(status := Cancelled)];
      r := Ok(jobs[id]);
    }

    /** A run whose dead-lettering is swallowed. */
    method TryRun(id: Id, executor: Executor, jitter: Jitter) returns (counted: bool)
      requires id in jobs && !Terminal(jobs[id].status) && Jittered(jitter)
      modifies this`jobs, this`calls, this`slept
      ensures jobs == old(jobs)[id := CourseOf(old(jobs)[id], executor).job]
      ensures counted <==> Counts(old(jobs)[id], executor)
    {
      hide CourseOf, TimeSlept, Reason, Jittered;
      var ran := RunJob(id, executor, jitter);
      counted := ran.Ok?;
    }

    /** `recover_pending_jobs`: every open job is run once; those that end dead-lettered are not counted. */
    method RecoverPendingJobs(executors: Id -> Executor, jitter: Jitter) returns (count: nat)
      requires Jittered(jitter)
      modifies this`jobs, this`calls, this`slept
      ensures jobs == Ran(old(jobs), executors, old(jobs).Keys)
      ensures count == |Recovered(old(jobs), executors, old(jobs).Keys)|
    {
      hide *;
      ghost var start := jobs;
      var open := OpenJobs(jobs);
      var todo := open;
      count := 0;
      AllRan(start, executors);
      ghost var done: set<Id> := {};
      while todo != {}
        invariant todo <= open <= start.Keys && done + todo == open && done * todo == {}
        invariant jobs == Ran(start, executors, done)
        invariant count == |Recovered(start, executors, done)|
        decreases |todo|
      {
        var i :| i in todo;
        RecoveredOne(start, executors, done, i);
        RanOne(start, executors, done, i);
        var counted := TryRun(i, executors(i), jitter);
        if counted {
          count := count + 1;
        }
        todo, done := todo - {i}, done + {i};
      }
      assert done == open;
    }
  }

  /** The jobs after those of `ids` that were open have been run. */
  ghost function Ran(jobs: map<Id, Job>, executors: Id -> Executor, ids: set<Id>): (out: map<Id, Job>) {
    map i | i in jobs :: if i in ids then CourseOf(jobs[i], executors(i)).job else jobs[i]
  }

  /** Recovery leaves no job open. */
  lemma RecoveryCloses(jobs: map<Id, Job>, executors: Id -> Executor, i: Id)
    requires i in jobs
    ensures i in Ran(jobs, executors, jobs.Keys) && Terminal(Ran(jobs, executors, jobs.Keys)[i].status)
    ensures Terminal(jobs[i].status) ==> Ran(jobs, executors, jobs.Keys)[i] == jobs[i]
  {
    CourseBounds(jobs[i], executors(i));
  }

  function OpenJobs(jobs: map<Id, Job>): (ids: set<Id>) {
    set i | i in jobs && !Terminal(jobs[i].status)
  }

  lemma AllRan(jobs: map<Id, Job>, executors: Id -> Executor)
    ensures var open := OpenJobs(jobs);
            && open <= jobs.Keys
            && Ran(jobs, executors, open) == Ran(jobs, executors, jobs.Keys)
            && Recovered(jobs, executors, open) == Recovered(jobs, executors, jobs.Keys)
            && forall i :: i in open ==> i in jobs && !Terminal(jobs[i].status)
    ensures Ran(jobs, executors, {}) == jobs && Recovered(jobs, executors, {}) == {}
  {
  }

  /** The open jobs among `ids` whose run does not end dead-lettered. */
  ghost function Recovered(jobs: map<Id, Job>, executors: Id -> Executor, ids: set<Id>): (out: set<Id>)
    requires ids <= jobs.Keys
  {
    set i | i in ids && Counts(jobs[i], executors(i))
  }

  predicate Counts(j: Job, executor: Executor) {
    !Terminal(j.status) && CourseOf(j, executor).job.status != DeadLetter
  }

  lemma RecoveredOne(jobs: map<Id, Job>, executors: Id -> Executor, ids: set<Id>, i: Id)
    requires ids <= jobs.Keys && i in jobs && i !in ids
    ensures |Recovered(jobs, executors, ids + {i})| == |Recovered(jobs, executors, ids)| + (if Counts(jobs[i], executors(i)) then 1 else 0)
  {
    hide Counts;
    if Counts(jobs[i], executors(i)) {
      assert Recovered(jobs, executors, ids + {i}) == Recovered(jobs, executors, ids) + {i};
    } else {
      assert Recovered(jobs, executors, ids + {i}) == Recovered(jobs, executors, ids);
    }
  }

  lemma RanOne(jobs: map<Id, Job>, executors: Id -> Executor, ids: set<Id>, i: Id)
    requires i in jobs && i !in ids
    ensures i in Ran(jobs, executors, ids) && Ran(jobs, executors, ids)[i] == jobs[i]
    ensures Ran(jobs, executors, ids + {i}) == Ran(jobs, executors, ids)[i := CourseOf(jobs[i], executors(i)).job]
  {
    hide CourseOf;
  }
}
