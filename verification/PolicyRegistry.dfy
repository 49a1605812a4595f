/** `PolicyManagementService` of `policy_engine.py`: versions of a workflow's policy and which one is active. */
module PolicyRegistry {
  import opened Hashing
  import opened PolicyEngine

  type Id = nat

  datatype PolicyStatus = Draft | Active | Retired

  datatype Workflow = Workflow(tenant: string, key: string)

  datatype Row = Row(workflow: Workflow, version: nat, status: PolicyStatus, content: Policy)

  datatype Registry = Registry(tenants: set<string>, rows: map<Id, Row>, next: Id)

  datatype RegistryError = TenantNotFound | PolicyNotFound | NotDraft | RetiredForGood

  // ----- The calls -----

  ghost function Versions(g: Registry, w: Workflow): (vs: set<nat>) {
    set i | i in g.rows && g.rows[i].workflow == w :: g.rows[i].version
  }

  /** `max(version) or 0`. */
  ghost predicate IsTop(vs: set<nat>, top: nat) {
    (forall v :: v in vs ==> v <= top) && (top in vs || top == 0)
  }

  ghost function Top(g: Registry, w: Workflow): (top: nat)
    ensures IsTop(Versions(g, w), top)
  {
    TopExists(Versions(g, w));
    var top: nat :| IsTop(Versions(g, w), top);
    top
  }

  lemma {:induction false} TopExists(vs: set<nat>)
    ensures exists top: nat :: IsTop(vs, top)
  {
    if vs == {} {
      assert IsTop(vs, 0);
    } else {
      var x :| x in vs;
      TopExists(vs - {x});
      var top: nat :| IsTop(vs - {x}, top);
      var best := if x > top then x else top;
      assert forall v :: v in vs ==> v == x || v in vs - {x};
      assert IsTop(vs, best);
    }
  }

  ghost function Create(g: Registry, w: Workflow, content: Policy): (g': Registry) {
    if w.tenant !in g.tenants then g
    else g.(rows := g.rows[g.next := Row(w, Top(g, w) + 1, Draft, content)], next := g.next + 1)
  }

  function UpdateRefusal(g: Registry, i: Id): (e: Option<RegistryError>) {
    if i !in g.rows then Some(PolicyNotFound) else if g.rows[i].status != Draft then Some(NotDraft) else None
  }

  function Update(g: Registry, i: Id, content: Policy): (g': Registry) {
    if UpdateRefusal(g, i).Some? then g else g.(rows := g.rows[i := g.rows[i].(content := content)])
  }

  function ActivateRefusal(g: Registry, i: Id): (e: Option<RegistryError>) {
    if i !in g.rows then Some(PolicyNotFound) else if g.rows[i].status == Retired then Some(RetiredForGood) else None
  }

  predicate Rival(rows: map<Id, Row>, i: Id, k: Id)
    requires i in rows && k in rows
  {
    k != i && rows[k].workflow == rows[i].workflow && rows[k].status == Active
  }

  /** Every other active policy of the workflow retires in the same transaction. */
  function Activate(g: Registry, i: Id): (g': Registry) {
    if ActivateRefusal(g, i).Some? then g
    else
      g.(rows := map k | k in g.rows ::
           if k == i then g.rows[k].(status := Active)
           else if Rival(g.rows, i, k) then g.rows[k].(status := Retired)
           else g.rows[k])
  }

  // ----- Runs -----

  datatype Call =
    | CreatePolicy(workflow: Workflow, content: Policy)
    | UpdatePolicy(policy: Id, content: Policy)
    | ActivatePolicy(policy: Id)

  ghost function Step(g: Registry, c: Call): (g': Registry) {
    match c
    case CreatePolicy(w, content) => Create(g, w, content)
    case UpdatePolicy(i, content) => Update(g, i, content)
    case ActivatePolicy(i) => Activate(g, i)
  }

  ghost function After(g: Registry, run: seq<Call>): (g': Registry) {
    if run == [] then g else Step(After(g, run[..|run| - 1]), run[|run| - 1])
  }

  predicate SameVersion(a: Row, b: Row) {
    a.workflow == b.workflow && a.version == b.version
  }

  predicate BothActive(a: Row, b: Row) {
    a.workflow == b.workflow && a.status == b.status == Active
  }

  /** Versions of a workflow run 1, 2, ... without gap or repetition, and at most one is active. */
  ghost predicate Inv(g: Registry) {
    && (forall i :: i in g.rows ==> i < g.next && g.rows[i].version >= 1)
    && (forall i, k :: i in g.rows && k in g.rows && SameVersion(g.rows[i], g.rows[k]) ==> i == k)
    && (forall i, k :: i in g.rows && k in g.rows && BothActive(g.rows[i], g.rows[k]) ==> i == k)
    && (forall w: Workflow, v: nat :: 1 <= v <= Top(g, w) ==> v in Versions(g, w))
  }

  /** A row is fixed once it left draft, and a retired row for ever. */
  predicate RowKept(a: Row, b: Row) {
    && b.workflow == a.workflow && b.version == a.version
    && (a.status != Draft ==> b.content == a.content && b.status != Draft)
    && (a.status == Retired ==> b.status == Retired)
  }

  ghost predicate Kept(a: Registry, b: Registry) {
    forall i :: i in a.rows ==> i in b.rows && RowKept(a.rows[i], b.rows[i])
  }

  /** Calls that move no version keep the numbering. */
  lemma SameVersions(a: Registry, b: Registry, w: Workflow)
    requires a.rows.Keys == b.rows.Keys && forall i :: i in a.rows ==> SameVersion(a.rows[i], b.rows[i])
    ensures Versions(a, w) == Versions(b, w) && Top(a, w) == Top(b, w)
  {
    forall v | v in Versions(a, w) ensures v in Versions(b, w) {
      var i :| i in a.rows && a.rows[i].workflow == w && a.rows[i].version == v;
      assert SameVersion(a.rows[i], b.rows[i]);
    }
    forall v | v in Versions(b, w) ensures v in Versions(a, w) {
      var i :| i in b.rows && b.rows[i].workflow == w && b.rows[i].version == v;
      assert SameVersion(a.rows[i], b.rows[i]);
    }
  }

  lemma CreateVersions(g: Registry, w: Workflow, content: Policy, u: Workflow)
    requires Inv(g) && w.tenant in g.tenants
    ensures var d := Create(g, w, content);
            Versions(d, u) == Versions(g, u) + (if u == w then {Top(g, w) + 1} else {}) && Top(d, u) == Top(g, u) + (if u == w then 1 else 0)
  {
    var d := Create(g, w, content);
    assert g.next !in g.rows;
    forall v | v in Versions(g, u) ensures v in Versions(d, u) {
      var i :| i in g.rows && g.rows[i].workflow == u && g.rows[i].version == v;
      assert d.rows[i] == g.rows[i];
    }
    assert u == w ==> d.rows[g.next].version in Versions(d, u);
    hide Inv;
    assert Versions(d, u) == Versions(g, u) + (if u == w then {Top(g, w) + 1} else {});
  }

  ghost predicate Numbered(g: Registry) {
    && (forall i :: i in g.rows ==> i < g.next && g.rows[i].version >= 1)
    && (forall i, k :: i in g.rows && k in g.rows && SameVersion(g.rows[i], g.rows[k]) ==> i == k)
  }

  ghost predicate OneActive(g: Registry) {
    forall i, k :: i in g.rows && k in g.rows && BothActive(g.rows[i], g.rows[k]) ==> i == k
  }

  ghost predicate NoGap(g: Registry) {
    forall w: Workflow, v: nat :: 1 <= v <= Top(g, w) ==> v in Versions(g, w)
  }

  lemma VersionsBounded(g: Registry, w: Workflow)
    ensures forall j :: j in g.rows && g.rows[j].workflow == w ==> g.rows[j].version <= Top(g, w)
  {
    assert forall j :: j in g.rows && g.rows[j].workflow == w ==> g.rows[j].version in Versions(g, w);
  }

  lemma CreateNoGap(g: Registry, w: Workflow, content: Policy)
    requires Inv(g) && w.tenant in g.tenants
    ensures NoGap(Create(g, w, content))
  {
    hide Create, Top, Versions;
    var d := Create(g, w, content);
    forall u: Workflow, v: nat | 1 <= v <= Top(d, u) ensures v in Versions(d, u) {
      CreateVersions(g, w, content, u);
    }
  }

  lemma CreateInv(g: Registry, w: Workflow, content: Policy)
    requires Inv(g)
    ensures Inv(Create(g, w, content)) && Kept(g, Create(g, w, content))
  {
    hide Top, Versions, NoGap, Inv;
    var d := Create(g, w, content);
    Parts(g);
    Parts(d);
    if w.tenant in g.tenants {
      assert g.next !in g.rows;
      CreateNoGap(g, w, content);
      VersionsBounded(g, w);
    }
  }

  lemma SameNumbers(a: Registry, b: Registry)
    requires Numbered(a) && NoGap(a) && b.next == a.next && a.rows.Keys == b.rows.Keys
    requires forall i :: i in a.rows ==> SameVersion(a.rows[i], b.rows[i])
    ensures Numbered(b) && NoGap(b)
  {
    forall w: Workflow, v: nat | 1 <= v <= Top(b, w) ensures v in Versions(b, w) {
      SameVersions(a, b, w);
    }
    hide Top, Versions;
    forall j, k | j in b.rows && k in b.rows && SameVersion(b.rows[j], b.rows[k]) ensures j == k {
      assert SameVersion(a.rows[j], a.rows[k]);
    }
  }

  lemma Parts(g: Registry)
    ensures Inv(g) <==> Numbered(g) && OneActive(g) && NoGap(g)
  {
  }

  lemma UpdateInv(g: Registry, i: Id, content: Policy)
    requires Inv(g)
    ensures Inv(Update(g, i, content)) && Kept(g, Update(g, i, content))
  {
    var d := Update(g, i, content);
    Parts(g);
    Parts(d);
    hide Inv, Numbered, NoGap;
    SameNumbers(g, d);
    forall j, k | j in d.rows && k in d.rows && BothActive(d.rows[j], d.rows[k]) ensures j == k {
      assert BothActive(g.rows[j], g.rows[k]);
    }
  }

  lemma ActivateInv(g: Registry, i: Id)
    requires Inv(g)
    ensures Inv(Activate(g, i)) && Kept(g, Activate(g, i))
  {
    var d := Activate(g, i);
    Parts(g);
    Parts(d);
    hide Inv, Numbered, NoGap;
    SameNumbers(g, d);
    forall j, k | j in d.rows && k in d.rows && BothActive(d.rows[j], d.rows[k]) ensures j == k {
      assert j != i && k != i ==> BothActive(g.rows[j], g.rows[k]);
    }
  }

  lemma StepInv(g: Registry, c: Call)
    requires Inv(g)
    ensures Inv(Step(g, c)) && Kept(g, Step(g, c))
  {
    hide Inv, Kept, Create, Update, Activate;
    match c
    case CreatePolicy(w, content) => CreateInv(g, w, content);
    case UpdatePolicy(i, content) => UpdateInv(g, i, content);
    case ActivatePolicy(i) => ActivateInv(g, i);
  }

  lemma {:induction false} RunInv(g: Registry, run: seq<Call>)
    requires g.rows == map[]
    ensures Inv(After(g, run))
  {
    if run == [] {
      assert forall w: Workflow :: Versions(g, w) == {} && Top(g, w) == 0;
    } else {
      RunInv(g, run[..|run| - 1]);
      StepInv(After(g, run[..|run| - 1]), run[|run| - 1]);
      hide Inv, Step;
    }
  }

  /** A version that was ever active says for ever what it said then, and a retired one stays retired. */
  lemma {:induction false} PublishedVersionsAreFixed(g: Registry, run: seq<Call>, k: nat, i: Id)
    requires g.rows == map[] && k <= |run| && i in After(g, run[..k]).rows
    ensures i in After(g, run).rows && RowKept(After(g, run[..k]).rows[i], After(g, run).rows[i])
  {
    if k == |run| {
      assert run[..k] == run;
    } else {
      var before := run[..|run| - 1];
      assert before[..k] == run[..k];
      PublishedVersionsAreFixed(g, before, k, i);
      RunInv(g, before);
      StepInv(After(g, before), run[|run| - 1]);
      hide Inv, Step;
    }
  }

  /** In every run: at most one active policy per workflow, and versions numbered without gap. */
  lemma VersionsWithoutGap(g: Registry, run: seq<Call>, w: Workflow, i: Id, k: Id)
    requires g.rows == map[]
    ensures var d := After(g, run);
            && (forall v: nat :: v in Versions(d, w) <==> 1 <= v <= Top(d, w))
            && (i in d.rows && k in d.rows && BothActive(d.rows[i], d.rows[k]) ==> i == k)
            && (i in d.rows && k in d.rows && SameVersion(d.rows[i], d.rows[k]) ==> i == k)
  {
    RunInv(g, run);
    hide After;
  }

  // ----- The service -----

  class PolicyManagementService {
    var registry: Registry

    constructor (tenants: set<string>)
      ensures registry == Registry(tenants, map[], 0)
    {
      registry := Registry(tenants, map[], 0);
    }

    /** `create_policy`. */
    method CreatePolicy(w: Workflow, content: Policy) returns (r: Result<Id, RegistryError>)
      modifies this`registry
      ensures registry == Create(old(registry), w, content)
      ensures r == (if w.tenant !in old(registry).tenants then Err(TenantNotFound) else Ok(old(registry).next))
    {
      if w.tenant !in registry.tenants {
        return Err(TenantNotFound);
      }
      var rows := registry.rows;
      var top, todo := 0, rows.Keys;
      while todo != {}
        invariant todo <= rows.Keys && top >= 0
        invariant forall k :: k in rows.Keys - todo && rows[k].workflow == w ==> rows[k].version <= top
        invariant top == 0 || exists k :: k in rows && rows[k].workflow == w && rows[k].version == top
        decreases |todo|
      {
        var k :| k in todo;
        if rows[k].workflow == w && rows[k].version > top {
          top := rows[k].version;
        }
        todo := todo - {k};
      }
      assert IsTop(Versions(registry, w), top);
      registry := registry.(rows := rows[registry.next := Row(w, top + 1, Draft, content)], next := registry.next + 1);
      r := Ok(registry.next - 1);
    }

    /** `update_policy`. */
    method UpdatePolicy(i: Id, content: Policy) returns (r: Result<Id, RegistryError>)
      modifies this`registry
      ensures registry == Update(old(registry), i, content)
      ensures r == (var e := UpdateRefusal(old(registry), i); if e.Some? then Err(e.value) else Ok(i))
    {
      if i !in registry.rows {
        return Err(PolicyNotFound);
      }
      if registry.rows[i].status != Draft {
        return Err(NotDraft);
      }
      registry := registry.(rows := registry.rows[i := registry.rows[i].(content := content)]);
      r := Ok(i);
    }

    /** `activate_policy`. */
    method ActivatePolicy(i: Id) returns (r: Result<Id, RegistryError>)
      modifies this`registry
      ensures registry == Activate(old(registry), i)
      ensures r == (var e := ActivateRefusal(old(registry), i); if e.Some? then Err(e.value) else Ok(i))
    {
      if i !in registry.rows {
        return Err(PolicyNotFound);
      }
      if registry.rows[i].status == Retired {
        return Err(RetiredForGood);
      }
      var start := registry.rows;
      var rivals := set k | k in start && Rival(start, i, k);
      var todo := rivals;
      var rows := start;
      while todo != {}
        invariant todo <= rivals && rows.Keys == start.Keys
        invariant forall k :: k in start ==> rows[k] == (if k in rivals - todo then start[k].(status := Retired) else start[k])
        decreases |todo|
      {
        var k :| k in todo;
        rows := rows[k := rows[k].(status := Retired)];
        todo := todo - {k};
      }
      rows := rows[i := rows[i].(status := Active)];
      assert rows == Activate(registry, i).rows;
      registry := registry.(rows := rows);
      r := Ok(i);
    }

    /** `get_active_policy`: the active version with the highest number. */
    method GetActivePolicy(w: Workflow) returns (r: Option<Id>)
      requires Inv(registry)
      ensures r.Some? ==> r.value in registry.rows && registry.rows[r.value].workflow == w && registry.rows[r.value].status == Active
      ensures forall k :: k in registry.rows && registry.rows[k].workflow == w && registry.rows[k].status == Active ==> r == Some(k)
    {
      var rows := registry.rows;
      r := None;
      var todo := rows.Keys;
      while todo != {}
        invariant todo <= rows.Keys
        invariant r.Some? ==> r.value in rows && rows[r.value].workflow == w && rows[r.value].status == Active
        invariant forall k :: k in rows.Keys - todo && rows[k].workflow == w && rows[k].status == Active ==> r.Some? && rows[k].version <= rows[r.value].version
        decreases |todo|
      {
        var k :| k in todo;
        if rows[k].workflow == w && rows[k].status == Active && (r.None? || rows[k].version > rows[r.value].version) {
          r := Some(k);
        }
        todo := todo - {k};
      }
      assert forall k :: k in rows && rows[k].workflow == w && rows[k].status == Active ==> r.Some? && BothActive(rows[k], rows[r.value]);
    }
  }
}
