/**
  Overlapping callers of `submit_job` in `execution_worker.py`.  A caller looks for a job with its
  tenant and idempotency key and, having found none, stores one later; the index is not unique.
*/
module SubmissionRace {
  import opened Hashing

  datatype Key = Key(tenant: string, key: string)

  /** The keys of the stored jobs, in order, and the callers that found no job and have not stored theirs yet. */
  datatype State = State(jobs: seq<Key>, pending: map<nat, Key>)

  datatype Action = Look(caller: nat, key: Key) | Store(caller: nat) | GiveUp(caller: nat)

  const START: State := State([], map[])

  function Step(s: State, a: Action): (s': State) {
    match a
    case Look(t, k) => if t !in s.pending && k !in s.jobs then s.(pending := s.pending[t := k]) else s
    case Store(t) => if t in s.pending then State(s.jobs + [s.pending[t]], s.pending - {t}) else s
    case GiveUp(t) => s.(pending := s.pending - {t})
  }

  function After(run: seq<Action>): (s: State) {
    if run == [] then START else Step(After(run[..|run| - 1]), run[|run| - 1])
  }

  ghost predicate OneJobPerKey(s: State) {
    forall i, j :: 0 <= i < j < |s.jobs| ==> s.jobs[i] != s.jobs[j]
  }

  /** Who stores a job finds that there still is none. */
  predicate Timely(s: State, a: Action) {
    a.Store? && a.caller in s.pending ==> s.pending[a.caller] !in s.jobs
  }

  ghost predicate AllTimely(run: seq<Action>) {
    forall k :: 0 <= k < |run| ==> Timely(After(run[..k]), run[k])
  }

  lemma AllTimelySnoc(run: seq<Action>)
    requires run != []
    ensures AllTimely(run) <==> AllTimely(run[..|run| - 1]) && Timely(After(run[..|run| - 1]), run[|run| - 1])
  {
    hide After, Timely;
    var n := |run| - 1;
    var before := run[..n];
    assert forall k: nat :: k < n ==> before[..k] == run[..k] && before[k] == run[k];
    assert forall k: nat :: k < n ==> (Timely(After(before[..k]), before[k]) <==> Timely(After(run[..k]), run[k]));
  }

  lemma StepJobs(s: State, a: Action)
    ensures OneJobPerKey(Step(s, a)) <==> OneJobPerKey(s) && Timely(s, a)
  {
    var d := Step(s, a);
    assert forall i :: 0 <= i < |s.jobs| ==> d.jobs[i] == s.jobs[i];
    if !Timely(s, a) {
      var i :| 0 <= i < |s.jobs| && s.jobs[i] == s.pending[a.caller];
      assert d.jobs[i] == d.jobs[|s.jobs|];
    }
  }

  /**
    For every interleaving there is at most one job per tenant and key if and only if every caller that
    stored one found that there still was none.
  */
  lemma {:induction false} OneJobExactlyWhenTimely(run: seq<Action>)
    ensures OneJobPerKey(After(run)) <==> AllTimely(run)
  {
    if run != [] {
      OneJobExactlyWhenTimely(run[..|run| - 1]);
      AllTimelySnoc(run);
      StepJobs(After(run[..|run| - 1]), run[|run| - 1]);
      hide Step, OneJobPerKey, AllTimely, Timely;
    }
  }

  /** A look followed at once by its store is the serial call: the job found, or a new one. */
  lemma UninterruptedIsSerial(s: State, t: nat, k: Key)
    requires t !in s.pending
    ensures Step(Step(s, Look(t, k)), Store(t)) == s.(jobs := if k in s.jobs then s.jobs else s.jobs + [k])
  {
    assert s.pending - {t} == s.pending;
    if k !in s.jobs {
      assert s.pending[t := k] - {t} == s.pending;
    }
  }

  /** Two overlapping submissions under one new key store two jobs. */
  lemma OverlappingSubmissions(s: State, t: nat, u: nat, k: Key)
    requires s.pending == map[] && t != u && k !in s.jobs
    ensures Step(Step(Step(Step(s, Look(t, k)), Look(u, k)), Store(t)), Store(u)).jobs == s.jobs + [k, k]
  {
    var two := Step(Step(s, Look(t, k)), Look(u, k));
    assert two == State(s.jobs, map[t := k, u := k]);
    var three := Step(two, Store(t));
    assert three.jobs == s.jobs + [k] && three.pending == map[u := k];
    assert s.jobs + [k] + [k] == s.jobs + [k, k];
  }
}
