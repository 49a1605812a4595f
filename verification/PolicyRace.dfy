/**
  Overlapping callers of `PolicyManagementService`.  A caller reads with plain SELECTs and commits
  later; only the unique constraint on workflow and version makes a commit fail.
*/
module PolicyRace {
  import opened Hashing
  import opened PolicyEngine
  import opened PolicyRegistry

  /** A caller between its read and its commit; `rivals` are the other versions it read as active. */
  datatype Work =
    | Creating(workflow: Workflow, content: Policy, version: nat)
    | Updating(policy: Id, content: Policy)
    | Activating(policy: Id, seen: PolicyStatus, rivals: set<Id>)

  datatype State = State(registry: Registry, pending: map<nat, Work>)

  datatype Action = Read(caller: nat, call: Call) | Commit(caller: nat) | Abandon(caller: nat)

  predicate Refused(g: Registry, c: Call) {
    match c
    case CreatePolicy(w, _) => w.tenant !in g.tenants
    case UpdatePolicy(i, _) => UpdateRefusal(g, i).Some?
    case ActivatePolicy(i) => ActivateRefusal(g, i).Some?
  }

  ghost function Begun(g: Registry, c: Call): (w: Work)
    requires !Refused(g, c)
  {
    match c
    case CreatePolicy(w, content) => Creating(w, content, Top(g, w) + 1)
    case UpdatePolicy(i, content) => Updating(i, content)
    case ActivatePolicy(i) => Activating(i, g.rows[i].status, set k | k in g.rows && Rival(g.rows, i, k))
  }

  /** Rows are never deleted, so what was read is still there. */
  predicate Grounded(g: Registry, w: Work) {
    match w
    case Creating(_, _, version) => version >= 1
    case Updating(i, _) => i in g.rows
    case Activating(i, _, rivals) => i in g.rows && i !in rivals && forall k :: k in rivals ==> k in g.rows
  }

  /** The INSERT meets no row of the same workflow and version. */
  predicate Lands(g: Registry, w: Work) {
    w.Creating? ==> forall i :: i in g.rows ==> !(g.rows[i].workflow == w.workflow && g.rows[i].version == w.version)
  }

  /** The status of row k after an activation; a status is written only where it differs from the one read. */
  function StatusAfter(g: Registry, w: Work, k: Id): (st: PolicyStatus)
    requires w.Activating? && k in g.rows
  {
    if k in w.rivals then Retired else if k == w.policy && w.seen != Active then Active else g.rows[k].status
  }

  function Written(g: Registry, w: Work): (g': Registry)
    requires Grounded(g, w)
  {
    match w
    case Creating(workflow, content, version) => g.(rows := g.rows[g.next := Row(workflow, version, Draft, content)], next := g.next + 1)
    case Updating(i, content) => g.(rows := g.rows[i := g.rows[i].(content := content)])
    case Activating(_, _, _) => g.(rows := map k | k in g.rows :: g.rows[k].(status := StatusAfter(g, w, k)))
  }

  predicate Effective(s: State, a: Action) {
    a.Commit? && a.caller in s.pending && Grounded(s.registry, s.pending[a.caller]) && Lands(s.registry, s.pending[a.caller])
  }

  ghost function Step(s: State, a: Action): (s': State) {
    match a
    case Read(t, c) => if t !in s.pending && !Refused(s.registry, c) then s.(pending := s.pending[t := Begun(s.registry, c)]) else s
    case Abandon(t) => s.(pending := s.pending - {t})
    case Commit(t) =>
      var done := s.(pending := s.pending - {t});
      if Effective(s, a) then done.(registry := Written(s.registry, s.pending[t])) else done
  }

  /** A run from empty tables. */
  ghost function After(tenants: set<string>, run: seq<Action>): (s: State) {
    if run == [] then State(Registry(tenants, map[], 0), map[]) else Step(After(tenants, run[..|run| - 1]), run[|run| - 1])
  }

  // ----- What holds in every interleaving -----

  /** What a reading still says about the tables later on. */
  ghost predicate Later(g: Registry, w: Work) {
    && Grounded(g, w)
    && (w.Creating? ==> w.version <= Top(g, w.workflow) + 1)
    && (w.Activating? ==> forall k :: k in w.rivals ==> g.rows[k].workflow == g.rows[w.policy].workflow && g.rows[k].status != Draft)
    && (w.Activating? && w.seen != Draft ==> g.rows[w.policy].status != Draft)
  }

  ghost predicate Inv(s: State) {
    && Numbered(s.registry) && NoGap(s.registry)
    && forall t :: t in s.pending ==> Later(s.registry, s.pending[t])
  }

  lemma BegunLater(g: Registry, c: Call)
    requires !Refused(g, c)
    ensures Later(g, Begun(g, c))
  {
    hide Top;
  }

  lemma InsertedTop(g: Registry, w: Work, u: Workflow)
    requires Numbered(g) && w.Creating? && Grounded(g, w)
    ensures var d := Written(g, w);
            && Versions(d, u) == Versions(g, u) + (if u == w.workflow then {w.version} else {})
            && Top(d, u) == (if u == w.workflow && w.version > Top(g, u) then w.version else Top(g, u))
  {
    var d := Written(g, w);
    assert g.next !in g.rows;
    forall v | v in Versions(g, u) ensures v in Versions(d, u) {
      var i :| i in g.rows && g.rows[i].workflow == u && g.rows[i].version == v;
      assert d.rows[i] == g.rows[i];
    }
    assert u == w.workflow ==> d.rows[g.next].version in Versions(d, u);
    hide Numbered;
    assert Versions(d, u) == Versions(g, u) + (if u == w.workflow then {w.version} else {});
  }

  lemma WrittenNumbered(g: Registry, w: Work)
    requires Numbered(g) && NoGap(g) && Later(g, w) && Lands(g, w)
    ensures Numbered(Written(g, w)) && NoGap(Written(g, w))
    ensures forall u :: Top(g, u) <= Top(Written(g, w), u)
  {
    hide Top, Versions;
    var d := Written(g, w);
    if w.Creating? {
      forall u ensures Top(g, u) <= Top(d, u) && forall v: nat :: 1 <= v <= Top(d, u) ==> v in Versions(d, u) {
        InsertedTop(g, w, u);
      }
    } else {
      SameNumbers(g, d);
      forall u ensures Top(g, u) <= Top(d, u) {
        SameVersions(g, d, u);
      }
    }
  }

  lemma LaterStays(g: Registry, w: Work, v: Work)
    requires Later(g, w) && Grounded(g, v) && Numbered(g)
    requires forall u :: Top(g, u) <= Top(Written(g, v), u)
    ensures Later(Written(g, v), w)
  {
    hide Top;
  }

  lemma StepInv(s: State, a: Action)
    requires Inv(s)
    ensures Inv(Step(s, a))
  {
    hide Numbered, NoGap, Later, Written, Lands, Begun, Grounded;
    match a
    case Read(t, c) =>
      if t !in s.pending && !Refused(s.registry, c) {
        BegunLater(s.registry, c);
      }
    case Abandon(_) =>
    case Commit(t) =>
      if Effective(s, a) {
        WrittenNumbered(s.registry, s.pending[t]);
        forall u | u in s.pending ensures Later(Written(s.registry, s.pending[t]), s.pending[u]) {
          LaterStays(s.registry, s.pending[u], s.pending[t]);
        }
      }
  }

  lemma {:induction false} AfterInv(tenants: set<string>, run: seq<Action>)
    ensures Inv(After(tenants, run))
  {
    if run == [] {
      assert forall w: Workflow :: Versions(Registry(tenants, map[], 0), w) == {} && Top(Registry(tenants, map[], 0), w) == 0;
    } else {
      AfterInv(tenants, run[..|run| - 1]);
      StepInv(After(tenants, run[..|run| - 1]), run[|run| - 1]);
      hide Step, Inv;
    }
  }

  /** For every interleaving the versions of a workflow are 1..n, each once: an overlapping creation fails rather than skip or repeat one. */
  lemma VersionsStayWithoutGap(tenants: set<string>, run: seq<Action>, w: Workflow, i: Id, k: Id)
    ensures var g := After(tenants, run).registry;
            && (forall v: nat :: v in Versions(g, w) <==> 1 <= v <= Top(g, w))
            && (i in g.rows && k in g.rows && SameVersion(g.rows[i], g.rows[k]) ==> i == k)
  {
    AfterInv(tenants, run);
    hide After;
  }

  // ----- When at most one version is active -----

  /** An activation whose version is active afterwards has read as active every other version that now is. */
  ghost predicate Complete(s: State, a: Action) {
    Effective(s, a) && s.pending[a.caller].Activating? ==>
      var g, w := s.registry, s.pending[a.caller];
      w.seen != Active || g.rows[w.policy].status == Active ==>
        forall k :: k in g.rows && Rival(g.rows, w.policy, k) ==> k in w.rivals
  }

  lemma ActiveAfter(g: Registry, w: Work)
    requires Later(g, w) && w.Activating? && OneActive(g)
    ensures OneActive(Written(g, w)) <==>
              (w.seen != Active || g.rows[w.policy].status == Active ==> forall k :: k in g.rows && Rival(g.rows, w.policy, k) ==> k in w.rivals)
  {
    var d, p := Written(g, w), w.policy;
    hide Top;
    if (w.seen != Active || g.rows[p].status == Active) && exists k :: k in g.rows && Rival(g.rows, p, k) && k !in w.rivals {
      var k :| k in g.rows && Rival(g.rows, p, k) && k !in w.rivals;
      assert BothActive(d.rows[p], d.rows[k]);
    } else {
      forall i, k | i in d.rows && k in d.rows && BothActive(d.rows[i], d.rows[k]) ensures i == k {
        assert g.rows[i].status == Active || i == p;
        assert g.rows[k].status == Active || k == p;
        assert i != p && k != p ==> BothActive(g.rows[i], g.rows[k]);
      }
    }
  }

  lemma OtherActive(g: Registry, w: Work)
    requires Grounded(g, w) && !w.Activating? && OneActive(g) && Numbered(g)
    ensures OneActive(Written(g, w))
  {
    var d := Written(g, w);
    forall i, k | i in d.rows && k in d.rows && BothActive(d.rows[i], d.rows[k]) ensures i == k {
      assert i in g.rows && k in g.rows && BothActive(g.rows[i], g.rows[k]);
    }
  }

  lemma StepActive(s: State, a: Action)
    requires Inv(s) && OneActive(s.registry)
    ensures OneActive(Step(s, a).registry) <==> Complete(s, a)
  {
    hide OneActive, Numbered, NoGap, Later, Written, Lands, Begun;
    if Effective(s, a) {
      if s.pending[a.caller].Activating? {
        ActiveAfter(s.registry, s.pending[a.caller]);
      } else {
        OtherActive(s.registry, s.pending[a.caller]);
      }
    }
  }

  ghost predicate AlwaysOneActive(tenants: set<string>, run: seq<Action>) {
    forall k :: 0 <= k <= |run| ==> OneActive(After(tenants, run[..k]).registry)
  }

  ghost predicate AllComplete(tenants: set<string>, run: seq<Action>) {
    forall k :: 0 <= k < |run| ==> Complete(After(tenants, run[..k]), run[k])
  }

  lemma Next(tenants: set<string>, run: seq<Action>, k: nat)
    requires k < |run|
    ensures Inv(After(tenants, run[..k])) && After(tenants, run[..k + 1]) == Step(After(tenants, run[..k]), run[k])
  {
    hide Step, Inv;
    AfterInv(tenants, run[..k]);
    assert run[..k + 1][..k] == run[..k];
  }

  lemma {:induction false} OneActiveUpTo(tenants: set<string>, run: seq<Action>, k: nat)
    requires k <= |run| && AllComplete(tenants, run)
    ensures OneActive(After(tenants, run[..k]).registry)
  {
    if k > 0 {
      OneActiveUpTo(tenants, run, k - 1);
      Next(tenants, run, k - 1);
      StepActive(After(tenants, run[..k - 1]), run[k - 1]);
      assert Complete(After(tenants, run[..k - 1]), run[k - 1]);
      hide Step, Inv, OneActive, Complete, After;
    }
  }

  /**
    For every interleaving: all along the run a workflow has at most one active version if and only if
    each activation that leaves its version active has read as active every other one that now is.
  */
  lemma {:induction false} OneActiveExactlyWhenComplete(tenants: set<string>, run: seq<Action>)
    ensures AlwaysOneActive(tenants, run) <==> AllComplete(tenants, run)
  {
    hide Step, Inv, OneActive, Complete, After;
    if AllComplete(tenants, run) {
      forall k | 0 <= k <= |run| ensures OneActive(After(tenants, run[..k]).registry) {
        OneActiveUpTo(tenants, run, k);
      }
    }
    if AlwaysOneActive(tenants, run) {
      forall k | 0 <= k < |run| ensures Complete(After(tenants, run[..k]), run[k]) {
        Next(tenants, run, k);
        assert OneActive(After(tenants, run[..k]).registry) && OneActive(After(tenants, run[..k + 1]).registry);
        StepActive(After(tenants, run[..k]), run[k]);
      }
    }
  }

  // ----- When published versions are fixed -----

  /** An update finds its version still a draft, or changes nothing, and an activation finds its version not retired meanwhile. */
  predicate Allowed(s: State, a: Action) {
    Effective(s, a) ==>
      var g, w := s.registry, s.pending[a.caller];
      match w
      case Creating(_, _, _) => true
      case Updating(i, content) => g.rows[i].status == Draft || g.rows[i].content == content
      case Activating(i, seen, _) => g.rows[i].status == Retired ==> seen == Active
  }

  ghost predicate AllAllowed(tenants: set<string>, run: seq<Action>) {
    forall k :: 0 <= k < |run| ==> Allowed(After(tenants, run[..k]), run[k])
  }

  ghost predicate Fixed(tenants: set<string>, run: seq<Action>) {
    forall i, j :: 0 <= i <= j <= |run| ==> Kept(RegistryAt(tenants, run, i), RegistryAt(tenants, run, j))
  }

  ghost function RegistryAt(tenants: set<string>, run: seq<Action>, k: nat): (g: Registry)
    requires k <= |run|
  {
    After(tenants, run[..k]).registry
  }

  lemma StepKept(s: State, a: Action)
    requires Inv(s)
    ensures Kept(s.registry, Step(s, a).registry) <==> Allowed(s, a)
  {
    hide NoGap, Top;
    if Effective(s, a) {
      WrittenKept(s.registry, s.pending[a.caller]);
    }
    hide Numbered, Later, Written, Lands, Begun;
  }

  lemma WrittenKept(g: Registry, w: Work)
    requires Numbered(g) && Later(g, w)
    ensures Kept(g, Written(g, w)) <==>
              match w
              case Creating(_, _, _) => true
              case Updating(i, content) => g.rows[i].status == Draft || g.rows[i].content == content
              case Activating(i, seen, _) => g.rows[i].status == Retired ==> seen == Active
  {
    hide Top;
    var d := Written(g, w);
    if !w.Creating? {
      assert Kept(g, d) ==> RowKept(g.rows[w.policy], d.rows[w.policy]);
    }
  }

  lemma KeptTransitive(a: Registry, b: Registry, c: Registry)
    requires Kept(a, b) && Kept(b, c)
    ensures Kept(a, c)
  {
  }

  lemma KeptSelf(a: Registry)
    ensures Kept(a, a)
  {
  }

  lemma {:induction false} KeptUpTo(tenants: set<string>, run: seq<Action>, i: nat, j: nat)
    requires i <= j <= |run| && AllAllowed(tenants, run)
    ensures Kept(RegistryAt(tenants, run, i), RegistryAt(tenants, run, j))
  {
    hide Step, Inv, Kept, Allowed, After;
    if i == j {
      KeptSelf(RegistryAt(tenants, run, i));
    } else {
      KeptUpTo(tenants, run, i, j - 1);
      Next(tenants, run, j - 1);
      StepKept(After(tenants, run[..j - 1]), run[j - 1]);
      KeptTransitive(RegistryAt(tenants, run, i), RegistryAt(tenants, run, j - 1), RegistryAt(tenants, run, j));
    }
  }

  /**
    For every interleaving: a version that left draft keeps its content and a retired one stays retired
    if and only if each update finds its version still a draft, or changes nothing, and no
    activation revives a version that was retired since it was read.
  */
  lemma {:induction false} FixedExactlyWhenAllowed(tenants: set<string>, run: seq<Action>)
    ensures Fixed(tenants, run) <==> AllAllowed(tenants, run)
  {
    hide Step, Inv, Kept, Allowed, After;
    if AllAllowed(tenants, run) {
      forall i, j | 0 <= i <= j <= |run| ensures Kept(RegistryAt(tenants, run, i), RegistryAt(tenants, run, j)) {
        KeptUpTo(tenants, run, i, j);
      }
    }
    if Fixed(tenants, run) {
      forall k | 0 <= k < |run| ensures Allowed(After(tenants, run[..k]), run[k]) {
        Next(tenants, run, k);
        assert Kept(RegistryAt(tenants, run, k), RegistryAt(tenants, run, k + 1));
        StepKept(After(tenants, run[..k]), run[k]);
      }
    }
  }

  // ----- Serial runs and failing runs -----

  /** A read followed at once by its commit is the serial call. */
  lemma UninterruptedIsSerial(s: State, t: nat, c: Call)
    requires Inv(s) && t !in s.pending
    ensures Step(Step(s, Read(t, c)), Commit(t)) == s.(registry := PolicyRegistry.Step(s.registry, c))
  {
    hide Top, NoGap, Later;
    var g := s.registry;
    assert s.pending - {t} == s.pending;
    if !Refused(g, c) {
      BegunLater(g, c);
      var w := Begun(g, c);
      var mid := Step(s, Read(t, c));
      assert mid.pending - {t} == s.pending;
      assert Grounded(g, w) by { LaterGrounded(g, w); }
      if c.CreatePolicy? {
        VersionsBounded(g, c.workflow);
      }
      assert Lands(g, w);
      if c.ActivatePolicy? {
        assert Written(g, w).rows == Activate(g, c.policy).rows;
      }
    }
  }

  lemma LaterGrounded(g: Registry, w: Work)
    requires Later(g, w)
    ensures Grounded(g, w)
  {
  }

  /** Two activations of different drafts of one workflow that overlap leave both active. */
  lemma OverlappingActivations(s: State, t: nat, u: nat, i: Id, k: Id)
    requires s.pending == map[] && t != u && i != k && i in s.registry.rows && k in s.registry.rows
    requires s.registry.rows[i].workflow == s.registry.rows[k].workflow
    requires s.registry.rows[i].status == s.registry.rows[k].status == Draft
    ensures var d := Step(Step(Step(Step(s, Read(t, ActivatePolicy(i))), Read(u, ActivatePolicy(k))), Commit(t)), Commit(u));
            i in d.registry.rows && k in d.registry.rows && BothActive(d.registry.rows[i], d.registry.rows[k]) && !OneActive(d.registry)
  {
    hide Top;
    var g := s.registry;
    var w, v := Begun(g, ActivatePolicy(i)), Begun(g, ActivatePolicy(k));
    var s2 := Step(Step(s, Read(t, ActivatePolicy(i))), Read(u, ActivatePolicy(k)));
    assert s2 == State(g, map[t := w, u := v]);
    var s3 := Step(s2, Commit(t));
    assert s3 == State(Written(g, w), map[u := v]);
    assert Grounded(s3.registry, v) && Lands(s3.registry, v);
    var s4 := Step(s3, Commit(u));
    assert s4.registry == Written(s3.registry, v);
    assert BothActive(s4.registry.rows[i], s4.registry.rows[k]);
  }

  /** An update that overlaps the activation of its draft changes the content of the active version. */
  lemma OverlappingUpdate(s: State, t: nat, u: nat, i: Id, content: Policy)
    requires s.pending == map[] && t != u && i in s.registry.rows && s.registry.rows[i].status == Draft && s.registry.rows[i].content != content
    ensures var one := Step(Step(Step(s, Read(t, UpdatePolicy(i, content))), Read(u, ActivatePolicy(i))), Commit(u));
            var two := Step(one, Commit(t));
            && i in one.registry.rows && one.registry.rows[i].status == Active && one.registry.rows[i].content == s.registry.rows[i].content
            && i in two.registry.rows && two.registry.rows[i].status == Active && two.registry.rows[i].content == content
  {
    var g := s.registry;
    var w, v := Updating(i, content), Begun(g, ActivatePolicy(i));
    var s2 := Step(Step(s, Read(t, UpdatePolicy(i, content))), Read(u, ActivatePolicy(i)));
    assert s2 == State(g, map[t := w, u := v]);
    var one := Step(s2, Commit(u));
    assert one == State(Written(g, v), map[t := w]);
  }
}
