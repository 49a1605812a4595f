/** `policy_engine.py`: conditions, the sort-and-scan evaluation, and what it decides. */
module PolicyEngine {
  import opened Hashing
  import opened Text
  import opened JsonValues

  datatype DecisionState = Allow | Deny | ApprovalRequired | NeedsEvidence | StructurallyNonExecutable

  datatype PolicyError = UnsupportedOperator | TypeMismatch

  datatype Condition = Condition(source: string, field: string, operator: string, value: Json)

  /** Requirement blocks of a rule; an absent or empty block is None. */
  datatype ApprovalBlock = ApprovalBlock(requiredCount: Option<int>, principals: seq<string>, roles: seq<string>,
                                         ttl: Option<int>, requesterSeparation: Option<bool>)

  datatype EvidenceBlock = EvidenceBlock(minimumCount: Option<int>, allowedTypes: seq<string>, ttl: Option<int>)

  datatype Rule = Rule(ruleId: string, priority: Option<int>, decision: DecisionState, conditions: seq<Condition>,
                       approval: Option<ApprovalBlock>, evidence: Option<EvidenceBlock>)

  datatype Policy = Policy(defaultDecision: DecisionState, actionClasses: seq<string>, rules: seq<Rule>)

  datatype ApprovalRequirement = ApprovalRequirement(requiredCount: nat, principals: seq<string>, roles: seq<string>,
                                                     ttl: Option<int>, requesterSeparation: bool)

  datatype EvidenceRequirement = EvidenceRequirement(minimumCount: nat, allowedTypes: seq<string>, ttl: Option<int>)

  datatype TraceEntry =
    | HardRule(reason: string)
    | PolicyLookup
    | PolicyScope
    | RuleTried(ruleId: string, priority: int, decision: DecisionState, matched: bool)
    | DefaultApplied(decision: DecisionState)

  datatype PolicyDecision = PolicyDecision(state: DecisionState, matchedRuleId: Option<string>, trace: seq<TraceEntry>,
                                           approval: Option<ApprovalRequirement>, evidence: Option<EvidenceRequirement>)

  datatype Sources = Sources(actionIntent: Json, context: Json, intake: Json)

  // ----- Conditions -----

  function Lookup(s: Sources, name: string): (j: Json) {
    if name == "action_intent" then s.actionIntent
    else if name == "context" then s.context
    else if name == "intake" then s.intake
    else Obj(map[])
  }

  /** The value at the end of a path of keys; null as soon as a step has no such key. */
  function AtPath(j: Json, path: seq<string>): (v: Json)
    decreases |path|
  {
    if path == [] then j
    else if j.Obj? && path[0] in j.fields then AtPath(j.fields[path[0]], path[1..])
    else Null
  }

  /** `_resolve_path`: the loop over the dotted segments. */
  method ResolvePath(source: Json, fieldPath: string) returns (current: Json)
    ensures current == AtPath(source, Split(fieldPath, '.'))
  {
    var segments := Split(fieldPath, '.');
    current := source;
    for i := 0 to |segments|
      invariant AtPath(current, segments[i..]) == AtPath(source, segments)
    {
      if !current.Obj? || segments[i] !in current.fields {
        return Null;
      }
      current := current.fields[segments[i]];
    }
  }

  function ApplyOperator(operator: string, actual: Json, expected: Json): (r: Result<bool, PolicyError>)
    ensures r == Err(UnsupportedOperator) <==>
              operator !in {"equals", "not_equals", "gte", "gt", "lte", "lt", "in", "contains", "exists"}
    ensures actual == Null && operator in {"gte", "gt", "lte", "lt"} ==> r == Ok(false)
  {
    match operator
    case "equals" => Ok(PyEq(actual, expected))
    case "not_equals" => Ok(!PyEq(actual, expected))
    case "gte" => Compared(actual, Ordered(false, expected, actual))
    case "gt" => Compared(actual, Ordered(true, expected, actual))
    case "lte" => Compared(actual, Ordered(false, actual, expected))
    case "lt" => Compared(actual, Ordered(true, actual, expected))
    case "in" => Ok(expected.Arr? && exists i :: 0 <= i < |expected.items| && PyEq(actual, expected.items[i]))
    case "contains" =>
      if actual.Arr? then Ok(exists i :: 0 <= i < |actual.items| && PyEq(expected, actual.items[i]))
      else Ok(actual.Str? && expected.Str? && Contains(actual.s, expected.s))
    case "exists" => Ok((actual != Null) == (expected == Null || Truthy(expected)))
    case _ => Err(UnsupportedOperator)
  }

  function Compared(actual: Json, r: Option<bool>): (b: Result<bool, PolicyError>) {
    if actual == Null then Ok(false) else if r.None? then Err(TypeMismatch) else Ok(r.value)
  }

  function EvaluateCondition(c: Condition, s: Sources): (r: Result<bool, PolicyError>) {
    ApplyOperator(c.operator, AtPath(Lookup(s, c.source), Split(c.field, '.')), c.value)
  }

  /** Every condition is evaluated, in order, before the rule is judged; the first error wins. */
  function EvaluateConditions(cs: seq<Condition>, s: Sources): (r: Result<bool, PolicyError>)
    ensures r.Ok? <==> forall c :: c in cs ==> EvaluateCondition(c, s).Ok?
    ensures r.Ok? ==> (r.value <==> forall c :: c in cs ==> EvaluateCondition(c, s) == Ok(true))
  {
    if cs == [] then Ok(true)
    else
      var first := EvaluateCondition(cs[0], s);
      if first.Err? then first
      else
        var rest := EvaluateConditions(cs[1..], s);
        if rest.Err? then rest else Ok(first.value && rest.value)
  }

  predicate Matches(rule: Rule, s: Sources) {
    EvaluateConditions(rule.conditions, s) == Ok(true)
  }

  predicate Fails(rule: Rule, s: Sources) {
    EvaluateConditions(rule.conditions, s).Err?
  }

  // ----- Order of rules -----

  function Priority(rule: Rule): (p: int) {
    if rule.priority.None? then 1000 else rule.priority.value
  }

  /** A rule with its position in the policy. */
  datatype Ranked = Ranked(position: nat, rule: Rule)

  predicate Before(a: Ranked, b: Ranked) {
    Priority(a.rule) < Priority(b.rule) || (Priority(a.rule) == Priority(b.rule) && a.position < b.position)
  }

  ghost predicate Sorted(rs: seq<Ranked>) {
    forall i, j :: 0 <= i < j < |rs| ==> Before(rs[i], rs[j])
  }

  function Insert(r: Ranked, rs: seq<Ranked>): (out: seq<Ranked>)
    ensures multiset(out) == multiset(rs) + multiset{r}
  {
    if rs == [] then [r]
    else if Before(r, rs[0]) then [r] + rs
    else
      assert rs == [rs[0]] + rs[1..];
      [rs[0]] + Insert(r, rs[1..])
  }

  /** The sort of `enumerate(policy.rules)` by (priority, position). */
  function Rank(rules: seq<Rule>): (rs: seq<Ranked>) {
    if rules == [] then []
    else Insert(Ranked(|rules| - 1, rules[|rules| - 1]), Rank(rules[..|rules| - 1]))
  }

  lemma {:induction false} InsertMembers(r: Ranked, rs: seq<Ranked>)
    ensures forall x :: x in Insert(r, rs) <==> x == r || x in rs
  {
    forall x ensures x in Insert(r, rs) <==> x == r || x in rs {
      assert x in Insert(r, rs) <==> multiset(Insert(r, rs))[x] > 0;
      assert x in rs <==> multiset(rs)[x] > 0;
    }
  }

  lemma {:induction false} InsertSorts(r: Ranked, rs: seq<Ranked>)
    requires Sorted(rs) && forall x :: x in rs ==> x.position != r.position
    ensures Sorted(Insert(r, rs))
  {
    if rs != [] && !Before(r, rs[0]) {
      InsertSorts(r, rs[1..]);
      InsertMembers(r, rs[1..]);
      var out := Insert(r, rs[1..]);
      forall j | 0 <= j < |out| ensures Before(rs[0], out[j]) {
        assert out[j] in out;
        assert out[j] == r || out[j] in rs[1..];
        assert rs[0] in rs;
      }
    }
  }

  /** The ranking holds every rule at its own position, and is sorted. */
  lemma {:induction false} RankSorts(rules: seq<Rule>)
    ensures Sorted(Rank(rules)) && |Rank(rules)| == |rules|
    ensures forall x :: x in Rank(rules) <==> x.position < |rules| && x.rule == rules[x.position]
  {
    if rules != [] {
      var t := |rules| - 1;
      var last := Ranked(t, rules[t]);
      RankSorts(rules[..t]);
      InsertSorts(last, Rank(rules[..t]));
      InsertMembers(last, Rank(rules[..t]));
      assert |multiset(Rank(rules))| == |multiset(Rank(rules[..t]))| + 1;
    }
  }

  // ----- Requirements -----

  function AtLeastOne(n: Option<int>): (m: nat)
    ensures m >= 1
  {
    if n.None? || n.value < 1 then 1 else n.value
  }

  function ApprovalFor(block: Option<ApprovalBlock>, decision: DecisionState): (r: Option<ApprovalRequirement>)
    ensures decision == ApprovalRequired ==> r.Some?
    ensures r.Some? ==> r.value.requiredCount >= 1
    ensures r.Some? <==> block.Some? || decision == ApprovalRequired
  {
    match block
    case Some(b) =>
      Some(ApprovalRequirement(AtLeastOne(b.requiredCount), b.principals, b.roles, b.ttl,
                               if b.requesterSeparation.None? then true else b.requesterSeparation.value))
    case None =>
      if decision == ApprovalRequired then Some(ApprovalRequirement(1, [], [], None, true)) else None
  }

  function EvidenceFor(block: Option<EvidenceBlock>, decision: DecisionState): (r: Option<EvidenceRequirement>)
    ensures decision == NeedsEvidence ==> r.Some?
    ensures r.Some? ==> r.value.minimumCount >= 1
    ensures r.Some? <==> block.Some? || decision == NeedsEvidence
  {
    match block
    case Some(b) => Some(EvidenceRequirement(AtLeastOne(b.minimumCount), b.allowedTypes, b.ttl))
    case None => if decision == NeedsEvidence then Some(EvidenceRequirement(1, [], None)) else None
  }

  // ----- Evaluation -----

  datatype Request = Request(sources: Sources, policy: Option<Policy>, supported: bool, valid: bool)

  function Refuse(state: DecisionState, entry: TraceEntry): (d: PolicyDecision) {
    PolicyDecision(state, None, [entry], None, None)
  }

  /** The checks that come before any rule is looked at. */
  function HardRules(q: Request): (d: Option<PolicyDecision>)
    ensures d.Some? ==> d.value.state in {Deny, StructurallyNonExecutable} && d.value.approval.None? && d.value.evidence.None?
    ensures d.None? ==> q.supported && q.valid && q.policy.Some?
  {
    var intent := q.sources.actionIntent;
    if !q.supported then Some(Refuse(StructurallyNonExecutable, HardRule("unsupported_contract")))
    else if !q.valid then Some(Refuse(StructurallyNonExecutable, HardRule("contract_validation_failed")))
    else if Truthy(Get(q.sources.intake, "workflow_mismatch")) || Truthy(Get(q.sources.intake, "routing_mismatch")) then
      Some(Refuse(StructurallyNonExecutable, HardRule("intake_payload_mismatch")))
    else if PyEq(Get(intent, "source_account_ref"), Get(intent, "destination_account_ref")) then
      Some(Refuse(StructurallyNonExecutable, HardRule("same_source_and_destination_account")))
    else if q.policy.None? then Some(Refuse(Deny, PolicyLookup))
    else
      var classes := q.policy.value.actionClasses;
      if classes != [] && forall i :: 0 <= i < |classes| ==> !PyEq(Get(intent, "action_type"), Str(classes[i])) then
        Some(Refuse(Deny, PolicyScope))
      else None
  }

  function Tried(rule: Rule, s: Sources): (e: TraceEntry) {
    RuleTried(rule.ruleId, Priority(rule), rule.decision, Matches(rule, s))
  }

  function TriedAll(rs: seq<Ranked>, s: Sources): (es: seq<TraceEntry>)
    ensures |es| == |rs| && forall i :: 0 <= i < |rs| ==> es[i] == Tried(rs[i].rule, s)
  {
    seq(|rs|, i requires 0 <= i < |rs| => Tried(rs[i].rule, s))
  }

  function RuleDecision(rule: Rule, trace: seq<TraceEntry>): (d: PolicyDecision) {
    PolicyDecision(rule.decision, Some(rule.ruleId), trace,
                   ApprovalFor(rule.approval, rule.decision), EvidenceFor(rule.evidence, rule.decision))
  }

  function DefaultDecision(p: Policy, trace: seq<TraceEntry>): (d: PolicyDecision) {
    PolicyDecision(p.defaultDecision, None, trace + [DefaultApplied(p.defaultDecision)],
                   ApprovalFor(None, p.defaultDecision), EvidenceFor(None, p.defaultDecision))
  }

  /** `PolicyEngine.evaluate`: sort, then scan until the first match. */
  method Evaluate(q: Request) returns (r: Result<PolicyDecision, PolicyError>)
    ensures r == Decide(q)
  {
    hide Rank, Scan, EvaluateConditions;
    var hard := HardRules(q);
    if hard.Some? {
      return Ok(hard.value);
    }
    var policy := q.policy.value;
    var ordered := Rank(policy.rules);
    var trace := [];
    for i := 0 to |ordered|
      invariant trace == TriedAll(ordered[..i], q.sources)
      invariant forall k :: 0 <= k < i ==> !Matches(ordered[k].rule, q.sources) && !Fails(ordered[k].rule, q.sources)
    {
      var rule := ordered[i].rule;
      var matched := EvaluateConditions(rule.conditions, q.sources);
      ScanAt(ordered, q.sources, i);
      if matched.Err? {
        return Err(matched.error);
      }
      trace := trace + [Tried(rule, q.sources)];
      assert ordered[..i + 1] == ordered[..i] + [ordered[i]];
      assert trace == TriedAll(ordered[..i + 1], q.sources);
      if matched.value {
        return Ok(RuleDecision(rule, trace));
      }
    }
    ScanEnd(ordered, q.sources);
    assert ordered[..|ordered|] == ordered;
    r := Ok(DefaultDecision(policy, trace));
  }

  /** The first rule in scan order that matches or fails to evaluate. */
  function Scan(rs: seq<Ranked>, s: Sources): (k: nat)
    ensures k <= |rs|
    ensures forall i :: 0 <= i < k ==> !Matches(rs[i].rule, s) && !Fails(rs[i].rule, s)
    ensures k < |rs| ==> Matches(rs[k].rule, s) || Fails(rs[k].rule, s)
  {
    hide Matches, Fails;
    if rs == [] || Matches(rs[0].rule, s) || Fails(rs[0].rule, s) then 0 else 1 + Scan(rs[1..], s)
  }

  lemma ScanAt(rs: seq<Ranked>, s: Sources, i: nat)
    requires i < |rs| && forall k :: 0 <= k < i ==> !Matches(rs[k].rule, s) && !Fails(rs[k].rule, s)
    ensures Matches(rs[i].rule, s) || Fails(rs[i].rule, s) ==> Scan(rs, s) == i
  {
  }

  lemma ScanEnd(rs: seq<Ranked>, s: Sources)
    requires forall k :: 0 <= k < |rs| ==> !Matches(rs[k].rule, s) && !Fails(rs[k].rule, s)
    ensures Scan(rs, s) == |rs|
  {
  }

  function Decide(q: Request): (r: Result<PolicyDecision, PolicyError>) {
    var hard := HardRules(q);
    if hard.Some? then Ok(hard.value)
    else
      var rs := Rank(q.policy.value.rules);
      var k := Scan(rs, q.sources);
      if k == |rs| then Ok(DefaultDecision(q.policy.value, TriedAll(rs, q.sources)))
      else if Fails(rs[k].rule, q.sources) then
        Err(EvaluateConditions(rs[k].rule.conditions, q.sources).error)
      else Ok(RuleDecision(rs[k].rule, TriedAll(rs[..k + 1], q.sources)))
  }

  // ----- What is decided, without sorting or scanning -----

  predicate Decisive(rule: Rule, s: Sources) {
    Matches(rule, s) || Fails(rule, s)
  }

  /** Position i holds the decisive rule of least (priority, position). */
  ghost predicate IsFirst(rules: seq<Rule>, s: Sources, i: nat) {
    && i < |rules|
    && Decisive(rules[i], s)
    && forall j :: 0 <= j < |rules| && j != i && Decisive(rules[j], s) ==> Before(Ranked(i, rules[i]), Ranked(j, rules[j]))
  }

  /**
    The evaluation refines a simple rule: once no hard or scope rule fires, the outcome is that
    of the decisive rule with least (priority, position), and the default when there is none.
  */
  lemma DecideIsFirst(q: Request, i: nat)
    requires HardRules(q).None? && IsFirst(q.policy.value.rules, q.sources, i)
    ensures var rule := q.policy.value.rules[i];
            if Fails(rule, q.sources) then Decide(q).Err?
            else
              && Decide(q).Ok?
              && Decide(q).value == RuleDecision(rule, Decide(q).value.trace)
  {
    hide Rank, Scan, Matches, EvaluateConditions;
    var rules, s := q.policy.value.rules, q.sources;
    RankSorts(rules);
    var rs := Rank(rules);
    var k := Scan(rs, s);
    var me := Ranked(i, rules[i]);
    assert me in rs;
    var p :| 0 <= p < |rs| && rs[p] == me;
    assert k <= p;
    assert rs[k] in rs;
    assert k < p ==> Before(rs[k], me) && !Before(me, rs[k]);
  }

  /** The least decisive rule exists as soon as there is any decisive rule. */
  lemma FirstExists(rules: seq<Rule>, s: Sources, j: nat) returns (i: nat)
    requires j < |rules| && Decisive(rules[j], s)
    ensures IsFirst(rules, s, i)
  {
    hide Rank, Scan, Matches, Fails, Before;
    RankSorts(rules);
    var rs := Rank(rules);
    var k := Scan(rs, s);
    var me := Ranked(j, rules[j]);
    assert me in rs;
    var p :| 0 <= p < |rs| && rs[p] == me;
    assert k <= p && rs[k] in rs;
    i := rs[k].position;
    forall m | 0 <= m < |rules| && m != i && Decisive(rules[m], s) ensures Before(Ranked(i, rules[i]), Ranked(m, rules[m])) {
      var it := Ranked(m, rules[m]);
      assert it in rs;
      var n :| 0 <= n < |rs| && rs[n] == it;
      assert k < n;
    }
  }

  lemma {:induction false} DecideDefault(q: Request)
    requires HardRules(q).None? && forall j :: 0 <= j < |q.policy.value.rules| ==> !Decisive(q.policy.value.rules[j], q.sources)
    ensures Decide(q) == Ok(DefaultDecision(q.policy.value, TriedAll(Rank(q.policy.value.rules), q.sources)))
  {
    var rs := Rank(q.policy.value.rules);
    RankSorts(q.policy.value.rules);
    assert forall k :: 0 <= k < |rs| ==> rs[k] in rs;
    ScanEnd(rs, q.sources);
  }

  /** The trace lists the rules tried, in strict scan order, and nothing after the match. */
  lemma {:induction false} TraceIsScan(q: Request)
    requires HardRules(q).None? && Decide(q).Ok? && Decide(q).value.matchedRuleId.Some?
    ensures var rs, k := Rank(q.policy.value.rules), Scan(Rank(q.policy.value.rules), q.sources);
            && Sorted(rs)
            && k < |rs| && Decide(q).value.trace == TriedAll(rs[..k + 1], q.sources)
            && Decide(q).value.trace[k].matched
            && forall i :: 0 <= i < k ==> !Decide(q).value.trace[i].matched
  {
    RankSorts(q.policy.value.rules);
    hide Rank, Scan, HardRules, EvaluateConditions, ApprovalFor, EvidenceFor, Sorted;
  }

  // ----- Permuting rules -----

  ghost predicate DistinctPriorities(rules: seq<Rule>) {
    forall i, j :: 0 <= i < j < |rules| ==> Priority(rules[i]) != Priority(rules[j])
  }

  function Rules(rs: seq<Ranked>): (out: seq<Rule>)
    ensures |out| == |rs| && forall i :: 0 <= i < |rs| ==> out[i] == rs[i].rule
  {
    seq(|rs|, i requires 0 <= i < |rs| => rs[i].rule)
  }

  ghost predicate Ascending(rules: seq<Rule>) {
    forall i, j :: 0 <= i < j < |rules| ==> Priority(rules[i]) < Priority(rules[j])
  }

  lemma {:induction false} AscendingUnique(a: seq<Rule>, b: seq<Rule>)
    requires Ascending(a) && Ascending(b) && forall r :: r in a <==> r in b
    ensures a == b
  {
    if a != [] || b != [] {
      assert a != [] ==> a[0] in b;
      assert b != [] ==> b[0] in a;
      assert a[0] in b && b != [] && b[0] in a;
      assert a[0] == b[0];
      forall r ensures r in a[1..] <==> r in b[1..] {
        assert r in a[1..] ==> r in a && Priority(r) != Priority(a[0]);
        assert r in b[1..] ==> r in b && Priority(r) != Priority(b[0]);
        assert a == [a[0]] + a[1..] && b == [b[0]] + b[1..];
      }
      AscendingUnique(a[1..], b[1..]);
    }
  }

  lemma RankAscends(rules: seq<Rule>)
    requires DistinctPriorities(rules)
    ensures Ascending(Rules(Rank(rules)))
    ensures forall r :: r in Rules(Rank(rules)) <==> r in rules
  {
    RankSorts(rules);
    var rs := Rank(rules);
    forall i, j | 0 <= i < j < |rs| ensures Priority(rs[i].rule) < Priority(rs[j].rule) {
      assert rs[i] in rs && rs[j] in rs && Before(rs[i], rs[j]);
    }
    forall r ensures r in Rules(rs) <==> r in rules {
      if r in rules {
        var i :| 0 <= i < |rules| && rules[i] == r;
        assert Ranked(i, r) in rs;
      }
      if r in Rules(rs) {
        var i :| 0 <= i < |rs| && rs[i].rule == r;
        assert rs[i] in rs;
      }
    }
  }

  lemma {:induction false} ScanOnRules(rs: seq<Ranked>, rs': seq<Ranked>, s: Sources)
    requires Rules(rs) == Rules(rs')
    ensures |rs| == |rs'| && Scan(rs, s) == Scan(rs', s)
  {
    assert |rs| == |Rules(rs)| == |rs'|;
    if rs != [] {
      assert rs[0].rule == Rules(rs)[0] == rs'[0].rule;
      assert Rules(rs[1..]) == Rules(rs)[1..] == Rules(rs'[1..]);
      ScanOnRules(rs[1..], rs'[1..], s);
    }
  }

  /** With distinct priorities the listing order of the rules is irrelevant, trace included. */
  lemma {:induction false} PermutationInvariant(q: Request, q': Request)
    requires q.policy.Some? && q'.policy.Some? && q' == q.(policy := q'.policy)
    requires q'.policy.value == q.policy.value.(rules := q'.policy.value.rules)
    requires multiset(q.policy.value.rules) == multiset(q'.policy.value.rules)
    requires DistinctPriorities(q.policy.value.rules) && DistinctPriorities(q'.policy.value.rules)
    ensures Decide(q) == Decide(q')
  {
    hide *;
    var a, b := q.policy.value.rules, q'.policy.value.rules;
    SameMembers(a, b);
    RankAscends(a);
    RankAscends(b);
    AscendingUnique(Rules(Rank(a)), Rules(Rank(b)));
    ScanOnRules(Rank(a), Rank(b), q.sources);
    DecideOnRules(q, q');
  }

  lemma SameMembers(a: seq<Rule>, b: seq<Rule>)
    requires multiset(a) == multiset(b)
    ensures forall r :: r in a <==> r in b
  {
    assert forall r :: r in a <==> multiset(a)[r] > 0;
    assert forall r :: r in b <==> multiset(b)[r] > 0;
  }

  lemma DecideOnRules(q: Request, q': Request)
    requires q.policy.Some? && q'.policy.Some? && q' == q.(policy := q'.policy)
    requires q'.policy.value == q.policy.value.(rules := q'.policy.value.rules)
    requires Rules(Rank(q.policy.value.rules)) == Rules(Rank(q'.policy.value.rules))
    requires Scan(Rank(q.policy.value.rules), q.sources) == Scan(Rank(q'.policy.value.rules), q.sources)
    ensures Decide(q) == Decide(q')
  {
    hide Rank, Scan, EvaluateConditions;
    var ra, rb := Rank(q.policy.value.rules), Rank(q'.policy.value.rules);
    assert |ra| == |Rules(ra)| == |rb|;
    assert forall i :: 0 <= i < |ra| ==> ra[i].rule == Rules(ra)[i] == rb[i].rule;
    assert TriedAll(ra, q.sources) == TriedAll(rb, q.sources);
    var k := Scan(ra, q.sources);
    assert k < |ra| ==> TriedAll(ra[..k + 1], q.sources) == TriedAll(rb[..k + 1], q.sources);
  }

  /**
    What later stages rely on: every decision that asks for approvals or evidence carries the
    requirement it asks for, and a refusal carries none.
  */
  lemma RequirementsPresent(q: Request)
    requires Decide(q).Ok?
    ensures var d := Decide(q).value;
            && (d.state == ApprovalRequired ==> d.approval.Some?)
            && (d.state == NeedsEvidence ==> d.evidence.Some?)
            && (d.approval.Some? ==> d.approval.value.requiredCount >= 1)
            && (d.evidence.Some? ==> d.evidence.value.minimumCount >= 1)
            && (!q.supported || !q.valid ==> d.state == StructurallyNonExecutable)
  {
    hide Rank, EvaluateConditions;
  }
}
