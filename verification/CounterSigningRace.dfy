/**
  Overlapping callers of `countersigning.py`.  A caller reads the active key (or that the registry is
  empty) with a plain SELECT, is approved, asks the provider for a key, and commits later: the UPDATE
  of the key it read names nothing but the primary key, and only a repeated key identifier or
  provider reference makes the INSERT fail.
*/
module CounterSigningRace {
  import opened Hashing
  import opened Text
  import opened CounterSigning

  /** A caller between its read and its commit; `prior` is the active key it read. */
  datatype Work = Work(op: Operation, prior: Option<string>)

  datatype Registry = Registry(keys: map<string, Key>, pending: map<nat, Work>)

  /** A caller that is denied, fails or crashes before its commit abandons. */
  datatype Action = Read(caller: nat, op: Operation) | Commit(caller: nat) | Abandon(caller: nat)

  const START: Registry := Registry(map[], map[])

  ghost function AsStore(keys: map<string, Key>): (k: Keystore) {
    Keystore(keys, [], [])
  }

  /** All that is decided before the rows are written: refusals, approvals and what the provider answers. */
  ghost predicate Admitted(keys: map<string, Key>, o: Operation, minimum: nat) {
    && Refusal(AsStore(keys), o).None? && Approved(o.auth, ActionOf(o), minimum) && o.ending == Commits
    && (match o
        case RevokeKey(_, _, _, disables, _, _) => disables
        case _ => (o.expiry.Some? ==> o.expiry.value > o.now) && o.provider.Described? && !o.provider.leaksPrivate)
  }

  ghost function Begun(keys: map<string, Key>, o: Operation): (w: Work) {
    Work(o, Prior(AsStore(keys), o))
  }

  /** What every caller between its read and its commit still knows: keys are never deleted. */
  predicate Grounded(keys: map<string, Key>, w: Work) {
    match w.op
    case ProvisionKey(_, _, _, provider, _, _) => provider.Described?
    case RotateKey(_, _, _, provider, _, _) => provider.Described? && w.prior.Some? && w.prior.value in keys
    case RevokeKey(id, _, _, _, _, _) => id in keys
  }

  /** The INSERT meets neither unique column. */
  ghost predicate Lands(keys: map<string, Key>, w: Work)
    requires Grounded(keys, w)
  {
    w.op.RevokeKey? || (w.op.keyId !in keys && !RefTaken(keys, w.op.provider.ref))
  }

  /** The rows after the commit; columns the caller did not change keep what others wrote. */
  function Written(keys: map<string, Key>, w: Work): (after: map<string, Key>)
    requires Grounded(keys, w)
  {
    match w.op
    case ProvisionKey(id, _, expiry, provider, _, now) => keys[id := NewKey(provider.ref, expiry, now)]
    case RotateKey(id, _, expiry, provider, _, now) =>
      keys[w.prior.value := RetireFor(keys[w.prior.value], id, now)][id := NewKey(provider.ref, expiry, now)]
    case RevokeKey(id, _, reason, _, _, now) => keys[id := keys[id].(status := Revoked, revokedAt := Some(now), reason := Some(reason))]
  }

  ghost predicate Effective(s: Registry, a: Action) {
    a.Commit? && a.caller in s.pending && Grounded(s.keys, s.pending[a.caller]) && Lands(s.keys, s.pending[a.caller])
  }

  ghost function Step(s: Registry, a: Action, minimum: nat): (s': Registry) {
    match a
    case Read(t, o) => if t !in s.pending && Admitted(s.keys, o, minimum) then s.(pending := s.pending[t := Begun(s.keys, o)]) else s
    case Abandon(t) => s.(pending := s.pending - {t})
    case Commit(t) =>
      var done := s.(pending := s.pending - {t});
      if Effective(s, a) then done.(keys := Written(s.keys, s.pending[t])) else done
  }

  ghost function After(run: seq<Action>, minimum: nat): (s: Registry) {
    if run == [] then START else Step(After(run[..|run| - 1], minimum), run[|run| - 1], minimum)
  }

  lemma AfterSnoc(run: seq<Action>, a: Action, minimum: nat)
    ensures After(run + [a], minimum) == Step(After(run, minimum), a, minimum)
  {
    assert (run + [a])[..|run|] == run;
  }

  // ----- What holds in every interleaving -----

  predicate Column(keys: map<string, Key>, k: Key) {
    && (k.replacedBy.Some? <==> k.retiredAt.Some?)
    && (k.status == Active ==> k.replacedBy.None? && k.revokedAt.None?)
    && (k.status == Retired ==> k.replacedBy.Some?)
    && (k.status == Revoked ==> k.revokedAt.Some?)
  }

  ghost predicate Tail(keys: map<string, Key>, id: string) {
    id in keys && keys[id].replacedBy.None?
  }

  ghost predicate Inv(s: Registry) {
    && (forall id :: id in s.keys ==> Column(s.keys, s.keys[id]))
    && (forall t :: t in s.pending ==> Grounded(s.keys, s.pending[t]))
    && (s.keys != map[] ==> exists id :: Tail(s.keys, id))
  }

  lemma WrittenKeeps(keys: map<string, Key>, w: Work)
    requires Grounded(keys, w) && Lands(keys, w)
    requires forall id :: id in keys ==> Column(keys, keys[id])
    requires keys != map[] ==> exists id :: Tail(keys, id)
    ensures var after := Written(keys, w);
            && keys.Keys <= after.Keys && w.op.keyId in after
            && (forall id :: id in after ==> Column(after, after[id]))
            && (exists id :: Tail(after, id))
  {
    hide RefTaken;
    var after := Written(keys, w);
    if w.op.RevokeKey? {
      assert keys != map[] by { assert w.op.keyId in keys; }
      var id :| Tail(keys, id);
      assert Tail(after, id);
    } else {
      assert Tail(after, w.op.keyId);
    }
  }

  lemma BegunGrounded(keys: map<string, Key>, o: Operation, minimum: nat)
    requires Admitted(keys, o, minimum)
    ensures Grounded(keys, Begun(keys, o))
  {
    hide Approved, ValidKeyId, Strip;
  }

  lemma GroundedStays(keys: map<string, Key>, after: map<string, Key>, w: Work)
    requires Grounded(keys, w) && keys.Keys <= after.Keys
    ensures Grounded(after, w)
  {
  }

  lemma StepInv(s: Registry, a: Action, minimum: nat)
    requires Inv(s)
    ensures Inv(Step(s, a, minimum))
  {
    hide Admitted, Grounded, Column, Tail, Lands, Written, Begun;
    match a
    case Read(t, o) =>
      if t !in s.pending && Admitted(s.keys, o, minimum) {
        BegunGrounded(s.keys, o, minimum);
      }
    case Abandon(_) =>
    case Commit(t) =>
      if Effective(s, a) {
        WrittenKeeps(s.keys, s.pending[t]);
        forall u | u in s.pending ensures Grounded(Written(s.keys, s.pending[t]), s.pending[u]) {
          GroundedStays(s.keys, Written(s.keys, s.pending[t]), s.pending[u]);
        }
      }
  }

  lemma {:induction false} AfterInv(run: seq<Action>, minimum: nat)
    ensures Inv(After(run, minimum))
  {
    if run != [] {
      AfterInv(run[..|run| - 1], minimum);
      StepInv(After(run[..|run| - 1], minimum), run[|run| - 1], minimum);
      hide Step, Inv;
    }
  }

  // ----- When the registry is one chain -----

  ghost predicate OneChain(keys: map<string, Key>) {
    exists c :: IsChain(keys, c)
  }

  /** A rotation that takes effect finds the key it read not yet replaced, a provision finds the registry still empty. */
  ghost predicate Timely(s: Registry, a: Action) {
    Effective(s, a) ==>
      match s.pending[a.caller].op
      case ProvisionKey(_, _, _, _, _, _) => s.keys == map[]
      case RotateKey(_, _, _, _, _, _) => s.keys[s.pending[a.caller].prior.value].replacedBy.None?
      case RevokeKey(_, _, _, _, _, _) => true
  }

  ghost predicate AllTimely(run: seq<Action>, minimum: nat) {
    forall k :: 0 <= k < |run| ==> Timely(After(run[..k], minimum), run[k])
  }

  lemma AllTimelySnoc(run: seq<Action>, minimum: nat)
    requires run != []
    ensures AllTimely(run, minimum) <==> AllTimely(run[..|run| - 1], minimum) && Timely(After(run[..|run| - 1], minimum), run[|run| - 1])
  {
    hide After, Timely;
    var n := |run| - 1;
    var before := run[..n];
    assert forall k: nat :: k < n ==> before[..k] == run[..k] && before[k] == run[k];
    assert forall k: nat :: k < n ==> (Timely(After(before[..k], minimum), before[k]) <==> Timely(After(run[..k], minimum), run[k]));
  }

  ghost predicate TwoTails(keys: map<string, Key>) {
    exists a, b :: a != b && Tail(keys, a) && Tail(keys, b)
  }

  lemma OneChainOneTail(keys: map<string, Key>)
    requires OneChain(keys)
    ensures !TwoTails(keys)
  {
    var c :| IsChain(keys, c);
    forall a | Tail(keys, a) ensures c != [] && a == c[|c| - 1] {
      assert a in c;
      var i :| 0 <= i < |c| && c[i] == a;
      Position(keys, c, i);
    }
  }

  lemma TailIsLast(keys: map<string, Key>, c: seq<string>, p: string)
    requires IsChain(keys, c) && Tail(keys, p)
    ensures c != [] && p == c[|c| - 1]
  {
    assert p in c;
    var i :| 0 <= i < |c| && c[i] == p;
    Position(keys, c, i);
  }

  /** A timely write extends the chain or leaves it as it is. */
  lemma TimelyKeepsChain(keys: map<string, Key>, w: Work)
    requires OneChain(keys) && Grounded(keys, w) && Lands(keys, w)
    requires w.op.ProvisionKey? ==> keys == map[]
    requires w.op.RotateKey? ==> keys[w.prior.value].replacedBy.None?
    ensures OneChain(Written(keys, w))
  {
    hide IsChain, RefTaken;
    var c :| IsChain(keys, c);
    match w.op
    case ProvisionKey(id, _, expiry, provider, _, now) =>
      ActiveIsLast(keys, c);
      ExtendChain(keys, c, id, NewKey(provider.ref, expiry, now), now);
    case RotateKey(id, _, expiry, provider, _, now) =>
      TailIsLast(keys, c, w.prior.value);
      ExtendChain(keys, c, id, NewKey(provider.ref, expiry, now), now);
    case RevokeKey(id, _, reason, _, _, now) =>
      RevokeInChain(keys, c, id, keys[id].(status := Revoked, revokedAt := Some(now), reason := Some(reason)));
  }

  /** No write joins two tails, and an untimely one makes a second. */
  lemma TailsStay(keys: map<string, Key>, w: Work)
    requires Grounded(keys, w) && Lands(keys, w)
    ensures TwoTails(keys) ==> TwoTails(Written(keys, w))
    ensures w.op.ProvisionKey? && (exists id :: Tail(keys, id)) ==> TwoTails(Written(keys, w))
    ensures w.op.RotateKey? && keys[w.prior.value].replacedBy.Some? && (exists id :: Tail(keys, id)) ==> TwoTails(Written(keys, w))
  {
    hide RefTaken;
    var after, id := Written(keys, w), w.op.keyId;
    if w.op.RevokeKey? {
      assert forall x :: Tail(keys, x) ==> Tail(after, x);
    } else {
      assert Tail(after, id) && !Tail(keys, id);
      assert forall x :: Tail(keys, x) && (w.op.RotateKey? ==> x != w.prior.value) ==> Tail(after, x) && x != id;
    }
  }

  lemma EmptyIsChain()
    ensures OneChain(map[])
  {
    assert IsChain(map[], []);
  }

  lemma StepChain(s: Registry, a: Action, minimum: nat)
    requires Inv(s)
    ensures OneChain(s.keys) && Timely(s, a) ==> OneChain(Step(s, a, minimum).keys)
    ensures TwoTails(s.keys) ==> TwoTails(Step(s, a, minimum).keys)
    ensures !Timely(s, a) ==> TwoTails(Step(s, a, minimum).keys)
  {
    hide OneChain, TwoTails, Lands, Written, Admitted, Begun, Column, Tail;
    if Effective(s, a) {
      TailsStay(s.keys, s.pending[a.caller]);
      if OneChain(s.keys) && Timely(s, a) {
        TimelyKeepsChain(s.keys, s.pending[a.caller]);
      }
    }
  }

  lemma {:induction false} ChainOfRun(run: seq<Action>, minimum: nat)
    ensures AllTimely(run, minimum) ==> OneChain(After(run, minimum).keys)
    ensures !AllTimely(run, minimum) ==> TwoTails(After(run, minimum).keys)
  {
    if run == [] {
      EmptyIsChain();
    } else {
      AfterInv(run[..|run| - 1], minimum);
      ChainOfRun(run[..|run| - 1], minimum);
      AllTimelySnoc(run, minimum);
      StepChain(After(run[..|run| - 1], minimum), run[|run| - 1], minimum);
      hide Step, Inv, AllTimely, Timely, OneChain, TwoTails;
    }
  }

  /**
    For every interleaving: the registry is one rotation chain if and only if every rotation that took
    effect found the key it read not yet replaced and every provision found the registry still empty.
    A chain has at most one active key; once lost it does not come back.
  */
  lemma {:induction false} OneChainExactlyWhenTimely(run: seq<Action>, minimum: nat)
    ensures OneChain(After(run, minimum).keys) <==> AllTimely(run, minimum)
    ensures OneChain(After(run, minimum).keys) ==> |Actives(After(run, minimum).keys)| <= 1
  {
    ChainOfRun(run, minimum);
    hide After, AllTimely, TwoTails;
    var keys := After(run, minimum).keys;
    if OneChain(keys) {
      OneChainOneTail(keys);
      var c :| IsChain(keys, c);
      ActiveIsLast(keys, c);
      hide IsChain, Actives;
    }
  }

  // ----- When it is one chain and no revocation is lost, all the way -----

  /** One chain, at most one active key, and a key shows as revoked exactly when a revocation of it was committed. */
  ghost predicate Sound(keys: map<string, Key>) {
    OneChain(keys) && |Actives(keys)| <= 1 && forall id :: id in keys ==> (keys[id].revokedAt.Some? <==> keys[id].status == Revoked)
  }

  /** A rotation that takes effect finds the key it read still active, a provision finds the registry still empty. */
  ghost predicate Fresh(s: Registry, a: Action) {
    Effective(s, a) ==>
      match s.pending[a.caller].op
      case ProvisionKey(_, _, _, _, _, _) => s.keys == map[]
      case RotateKey(_, _, _, _, _, _) => s.keys[s.pending[a.caller].prior.value].status == Active
      case RevokeKey(_, _, _, _, _, _) => true
  }

  lemma StepSound(s: Registry, a: Action, minimum: nat)
    requires Inv(s) && Sound(s.keys)
    ensures Sound(Step(s, a, minimum).keys) <==> Fresh(s, a)
  {
    var keys := Step(s, a, minimum).keys;
    StepChain(s, a, minimum);
    if Effective(s, a) {
      MarksAfter(s.keys, s.pending[a.caller]);
    }
    assert Inv(s) && Fresh(s, a) ==> Timely(s, a) by { hide OneChain, Lands, Admitted, Begun; }
    if Fresh(s, a) || OneChain(keys) {
      AtMostOneActive(keys);
    }
    if OneChain(keys) {
      OneChainOneTail(keys);
    }
    hide OneChain, TwoTails, Lands, Written, Admitted, Begun, Tail, Actives;
  }

  lemma AtMostOneActive(keys: map<string, Key>)
    requires OneChain(keys)
    ensures |Actives(keys)| <= 1
  {
    var c :| IsChain(keys, c);
    ActiveIsLast(keys, c);
    hide IsChain, Actives;
  }

  /** Of all writes only the rotation of a key revoked meanwhile puts status and date of a revocation at odds. */
  lemma MarksAfter(keys: map<string, Key>, w: Work)
    requires Grounded(keys, w) && Lands(keys, w)
    requires forall id :: id in keys ==> (keys[id].revokedAt.Some? <==> keys[id].status == Revoked)
    ensures (forall id :: id in Written(keys, w) ==> (Written(keys, w)[id].revokedAt.Some? <==> Written(keys, w)[id].status == Revoked)) <==>
            !(w.op.RotateKey? && keys[w.prior.value].status == Revoked)
  {
    hide RefTaken;
    var after := Written(keys, w);
    if w.op.RotateKey? && keys[w.prior.value].status == Revoked {
      var p := w.prior.value;
      assert p in after && after[p].status == Retired && after[p].revokedAt.Some?;
    }
  }

  ghost predicate AlwaysSound(run: seq<Action>, minimum: nat) {
    forall k :: 0 <= k <= |run| ==> Sound(After(run[..k], minimum).keys)
  }

  ghost predicate AllFresh(run: seq<Action>, minimum: nat) {
    forall k :: 0 <= k < |run| ==> Fresh(After(run[..k], minimum), run[k])
  }

  lemma AlwaysSoundSnoc(run: seq<Action>, minimum: nat)
    requires run != []
    ensures AlwaysSound(run, minimum) <==> AlwaysSound(run[..|run| - 1], minimum) && Sound(After(run, minimum).keys)
  {
    hide After, Sound;
    var n := |run| - 1;
    var before := run[..n];
    assert run[..n + 1] == run;
    if AlwaysSound(run, minimum) {
      forall k | 0 <= k <= n ensures Sound(After(before[..k], minimum).keys) {
        assert before[..k] == run[..k];
      }
      assert Sound(After(run[..n + 1], minimum).keys);
    }
    if AlwaysSound(before, minimum) && Sound(After(run, minimum).keys) {
      forall k | 0 <= k <= n + 1 ensures Sound(After(run[..k], minimum).keys) {
        if k <= n {
          assert before[..k] == run[..k];
        } else {
          assert run[..k] == run;
        }
      }
    }
  }

  lemma AllFreshSnoc(run: seq<Action>, minimum: nat)
    requires run != []
    ensures AllFresh(run, minimum) <==> AllFresh(run[..|run| - 1], minimum) && Fresh(After(run[..|run| - 1], minimum), run[|run| - 1])
  {
    hide After, Fresh;
    var n := |run| - 1;
    var before := run[..n];
    assert forall k: nat :: k < n ==> before[..k] == run[..k] && before[k] == run[k];
    assert forall k: nat :: k < n ==> (Fresh(After(before[..k], minimum), before[k]) <==> Fresh(After(run[..k], minimum), run[k]));
  }

  /**
    For every interleaving: all along the run the registry is one chain with at most one active key and
    every committed revocation shows, if and only if every commit finds the active key it read still
    active and, for a provision, the registry still empty.
  */
  lemma {:induction false} SoundExactlyWhenFresh(run: seq<Action>, minimum: nat)
    ensures AlwaysSound(run, minimum) <==> AllFresh(run, minimum)
  {
    if run == [] {
      EmptyIsChain();
      assert Actives(map[]) == {};
    } else {
      var before := run[..|run| - 1];
      SoundExactlyWhenFresh(before, minimum);
      AlwaysSoundSnoc(run, minimum);
      AllFreshSnoc(run, minimum);
      AfterInv(before, minimum);
      if AlwaysSound(before, minimum) {
        assert before[..|before|] == before && Sound(After(before[..|before|], minimum).keys);
        StepSound(After(before, minimum), run[|run| - 1], minimum);
      }
      hide Step, Inv, Sound, Fresh, AlwaysSound, AllFresh;
    }
  }

  lemma SameRefusal(k: Keystore, o: Operation)
    ensures Refusal(AsStore(k.keys), o) == Refusal(k, o)
  {
    hide ValidKeyId, Strip;
  }

  lemma AdmittedIsSerial(k: Keystore, o: Operation, minimum: nat)
    requires Refusal(k, o).None?
    ensures StatusOf(k, o, minimum) == Completed <==> Admitted(k.keys, o, minimum) && (o.RevokeKey? || !RefTaken(k.keys, o.provider.ref))
  {
    SameRefusal(k, o);
    hide Refusal, Approved, RefTaken;
  }

  lemma BegunLands(keys: map<string, Key>, o: Operation, minimum: nat)
    requires Admitted(keys, o, minimum)
    ensures Grounded(keys, Begun(keys, o))
    ensures Lands(keys, Begun(keys, o)) <==> o.RevokeKey? || !RefTaken(keys, o.provider.ref)
  {
    BegunGrounded(keys, o, minimum);
    hide Approved, ValidKeyId, Strip, RefTaken;
  }

  lemma WrittenIsNew(k: Keystore, o: Operation, minimum: nat)
    requires Refusal(k, o).None? && Succeeds(k, o) && Grounded(k.keys, Begun(k.keys, o))
    ensures Written(k.keys, Begun(k.keys, o)) == NewKeys(k, o)
  {
    SameRefusal(k, o);
    hide Refusal, RefTaken, Actives;
    if o.RotateKey? {
      assert Actives(AsStore(k.keys).keys) == Actives(k.keys);
    }
  }

  /** A read followed at once by the commit is the serial operation. */
  lemma UninterruptedIsSerial(s: Registry, t: nat, k: Keystore, o: Operation, minimum: nat)
    requires t !in s.pending && k.keys == s.keys
    ensures Step(Step(s, Read(t, o), minimum), Commit(t), minimum) == s.(keys := CounterSigning.Step(k, o, minimum).keys)
  {
    hide Refusal, Admitted, Begun, Grounded, Lands, Written, RecordFor, NewKeys, KeySet, Succeeds, Approved;
    SameRefusal(k, o);
    StepUnfold(k, o, minimum);
    assert s.pending - {t} == s.pending;
    var mid := Step(s, Read(t, o), minimum);
    if Refusal(k, o).None? {
      AdmittedIsSerial(k, o, minimum);
    } else {
      assert !Admitted(s.keys, o, minimum) by { NotAdmitted(k, o, minimum); }
    }
    if Admitted(s.keys, o, minimum) {
      BegunLands(s.keys, o, minimum);
      assert mid.pending - {t} == s.pending;
      if StatusOf(k, o, minimum) == Completed {
        CompletedSucceeds(k, o, minimum);
        WrittenIsNew(k, o, minimum);
      }
    }
  }

  lemma NotAdmitted(k: Keystore, o: Operation, minimum: nat)
    requires Refusal(k, o).Some?
    ensures !Admitted(k.keys, o, minimum)
  {
    SameRefusal(k, o);
    hide Refusal, Approved;
  }

  lemma CompletedSucceeds(k: Keystore, o: Operation, minimum: nat)
    requires StatusOf(k, o, minimum) == Completed
    ensures Succeeds(k, o)
  {
    hide Succeeds, Approved;
  }

  // ----- Failing runs -----

  /**
    Two rotations that both read the active key before either commits: two active keys, no chain,
    and the error of several active keys for whoever reads next.
  */
  lemma OverlappingRotations(s: Registry, t: nat, u: nat, o: Operation, p: Operation, minimum: nat)
    requires t != u && t !in s.pending && u !in s.pending && o.RotateKey? && p.RotateKey?
    requires Inv(s) && Admitted(s.keys, o, minimum) && Admitted(s.keys, p, minimum)
    requires !RefTaken(s.keys, o.provider.ref) && !RefTaken(s.keys, p.provider.ref)
    requires o.keyId != p.keyId && o.provider.ref != p.provider.ref
    ensures var d := Step(Step(Step(Step(s, Read(t, o), minimum), Read(u, p), minimum), Commit(t), minimum), Commit(u), minimum);
            && {o.keyId, p.keyId} <= Actives(d.keys) && !OneChain(d.keys)
            && forall k: Keystore, q: Operation :: k.keys == d.keys && q.RotateKey? && ValidKeyId(q.keyId) ==> Refusal(k, q) == Some(ManyActiveKeys)
  {
    var s1 := Step(s, Read(t, o), minimum);
    var s2 := Step(s1, Read(u, p), minimum);
    var s3 := Step(s2, Commit(t), minimum);
    var s4 := Step(s3, Commit(u), minimum);
    BegunLands(s.keys, o, minimum);
    BegunLands(s.keys, p, minimum);
    SamePrior(s.keys, o, p, minimum);
    var w, v := Begun(s.keys, o), Begun(s.keys, p);
    assert s2.keys == s.keys && s2.pending[t] == w && s2.pending[u] == v;
    BothWritten(s.keys, w, v);
    assert s3.keys == Written(s.keys, w) && s3.pending[u] == v;
    assert s4.keys == Written(s3.keys, v);
    TwoActives(s4.keys, o.keyId, p.keyId);
    hide *;
  }

  lemma SamePrior(keys: map<string, Key>, o: Operation, p: Operation, minimum: nat)
    requires o.RotateKey? && p.RotateKey? && Admitted(keys, o, minimum) && Admitted(keys, p, minimum)
    ensures Begun(keys, o).prior == Begun(keys, p).prior && Begun(keys, o).prior.Some? && Begun(keys, o).prior.value in Actives(keys)
    ensures o.keyId !in keys && p.keyId !in keys && Begun(keys, o).op == o && Begun(keys, p).op == p
  {
    hide Approved, ValidKeyId;
    var a, b := Prior(AsStore(keys), o), Prior(AsStore(keys), p);
    assert {a.value} == Actives(keys) == {b.value};
    assert a.value in {b.value};
  }

  lemma BothWritten(keys: map<string, Key>, w: Work, v: Work)
    requires w.op.RotateKey? && v.op.RotateKey? && Grounded(keys, w) && Grounded(keys, v) && Lands(keys, w) && Lands(keys, v)
    requires w.prior == v.prior && w.prior.value in keys && w.op.keyId != v.op.keyId && w.op.provider.ref != v.op.provider.ref
    requires keys[w.prior.value].replacedBy.None?
    ensures var one := Written(keys, w);
            && Grounded(one, v) && Lands(one, v)
            && var two := Written(one, v);
               && two.Keys == keys.Keys + {w.op.keyId, v.op.keyId}
               && two[w.op.keyId] == NewKey(w.op.provider.ref, w.op.expiry, w.op.now) && two[v.op.keyId] == NewKey(v.op.provider.ref, v.op.expiry, v.op.now)
  {
  }

  lemma TwoActives(keys: map<string, Key>, a: string, b: string)
    requires a in keys && b in keys && a != b && keys[a].status == Active && keys[b].status == Active
    requires keys[a].replacedBy.None? && keys[b].replacedBy.None?
    ensures {a, b} <= Actives(keys) && !OneChain(keys)
    ensures forall k: Keystore, q: Operation :: k.keys == keys && q.RotateKey? && ValidKeyId(q.keyId) ==> Refusal(k, q) == Some(ManyActiveKeys)
  {
    hide ValidKeyId, Strip, IsChain;
    assert Tail(keys, a) && Tail(keys, b);
    assert TwoTails(keys);
    if OneChain(keys) {
      OneChainOneTail(keys);
      assert false;
    }
    Subset({a, b}, Actives(keys));
    assert |{a, b}| == 2;
  }

  /**
    A rotation that commits after the active key it read was revoked: the revoked key turns into a
    retired one, and a registry without an active key has one again.
  */
  lemma OverlappingRevocation(s: Registry, t: nat, u: nat, o: Operation, q: Operation, minimum: nat)
    requires t != u && t !in s.pending && u !in s.pending && o.RotateKey? && q.RevokeKey?
    requires Admitted(s.keys, o, minimum) && Admitted(s.keys, q, minimum) && !RefTaken(s.keys, o.provider.ref)
    requires Prior(AsStore(s.keys), o) == Some(q.keyId)
    ensures var mid := Step(Step(Step(s, Read(t, o), minimum), Read(u, q), minimum), Commit(u), minimum);
            var d := Step(mid, Commit(t), minimum);
            && Actives(mid.keys) == {} && q.keyId in mid.keys && mid.keys[q.keyId].status == Revoked
            && o.keyId in Actives(d.keys)
            && q.keyId in d.keys && d.keys[q.keyId].status == Retired && d.keys[q.keyId].revokedAt == Some(q.now) && !Sound(d.keys)
  {
    var s1 := Step(s, Read(t, o), minimum);
    var s2 := Step(s1, Read(u, q), minimum);
    var s3 := Step(s2, Commit(u), minimum);
    BegunLands(s.keys, o, minimum);
    BegunLands(s.keys, q, minimum);
    RotatesOnly(s.keys, o, minimum);
    var w, v := Begun(s.keys, o), Begun(s.keys, q);
    assert s2.keys == s.keys && s2.pending[t] == w && s2.pending[u] == v;
    RevokedThenRotated(s.keys, w, v);
    assert s3.keys == Written(s.keys, v) && s3.pending[t] == w;
    hide *;
  }

  lemma RotatesOnly(keys: map<string, Key>, o: Operation, minimum: nat)
    requires o.RotateKey? && Admitted(keys, o, minimum)
    ensures Begun(keys, o) == Work(o, Prior(AsStore(keys), o)) && Actives(keys) == {Prior(AsStore(keys), o).value}
  {
    hide Approved, ValidKeyId;
  }

  lemma RevokedThenRotated(keys: map<string, Key>, w: Work, v: Work)
    requires w.op.RotateKey? && v.op.RevokeKey? && Grounded(keys, w) && Grounded(keys, v) && Lands(keys, w)
    requires Actives(keys) == {v.op.keyId} && w.prior == Some(v.op.keyId)
    ensures var one := Written(keys, v);
            && Actives(one) == {} && one[v.op.keyId].status == Revoked && Grounded(one, w) && Lands(one, w)
            && var two := Written(one, w);
               && w.op.keyId in Actives(two) && v.op.keyId in two && two[v.op.keyId].status == Retired && two[v.op.keyId].revokedAt == Some(v.op.now)
               && !Sound(two)
  {
    hide OneChain;
    var one := Written(keys, v);
    forall id | id in one ensures one[id].status != Active {
      assert id in Actives(keys) || keys[id].status != Active;
    }
    assert forall id :: id in one ==> (id in keys && one[id].ref == keys[id].ref);
  }

  function FirstKey(auth: Authorization): (o: Operation) {
    ProvisionKey("k0", auth, None, Described("ref0", false), Commits, 0)
  }

  function SecondKey(auth: Authorization): (o: Operation) {
    RotateKey("k1", auth, None, Described("ref1", false), Commits, 1)
  }

  function ThirdKey(auth: Authorization): (o: Operation) {
    RotateKey("k2", auth, None, Described("ref2", false), Commits, 2)
  }

  /** From the empty registry it takes one provision and two overlapping rotations, each with its approvals. */
  lemma OverlapHappens(auth: Authorization, minimum: nat) returns (run: seq<Action>)
    requires Approved(auth, Provision, minimum) && Approved(auth, Rotate, minimum)
    ensures |run| == 6 && !AllTimely(run, minimum) && !OneChain(After(run, minimum).keys)
    ensures {"k1", "k2"} <= Actives(After(run, minimum).keys)
    ensures forall k: Keystore, q: Operation :: k.keys == After(run, minimum).keys && q.RotateKey? && ValidKeyId(q.keyId) ==> Refusal(k, q) == Some(ManyActiveKeys)
  {
    hide *;
    var a, b, c := FirstKey(auth), SecondKey(auth), ThirdKey(auth);
    var first := [Read(0, a), Commit(0)];
    AfterFirst(a, minimum);
    FirstInstalled(auth, minimum);
    var s := After(first, minimum);
    AfterInv(first, minimum);
    Rivals(auth);
    OverlappingRotations(s, 1, 2, b, c, minimum);
    run := first + [Read(1, b)] + [Read(2, c)] + [Commit(1)] + [Commit(2)];
    AfterSnoc(first, Read(1, b), minimum);
    AfterSnoc(first + [Read(1, b)], Read(2, c), minimum);
    AfterSnoc(first + [Read(1, b)] + [Read(2, c)], Commit(1), minimum);
    AfterSnoc(first + [Read(1, b)] + [Read(2, c)] + [Commit(1)], Commit(2), minimum);
    OneChainExactlyWhenTimely(run, minimum);
  }

  lemma AfterFirst(a: Operation, minimum: nat)
    ensures After([Read(0, a), Commit(0)], minimum) == Step(Step(START, Read(0, a), minimum), Commit(0), minimum)
  {
    hide Step;
    AfterSnoc([], Read(0, a), minimum);
    AfterSnoc([Read(0, a)], Commit(0), minimum);
    assert [] + [Read(0, a)] == [Read(0, a)] && [Read(0, a)] + [Commit(0)] == [Read(0, a), Commit(0)];
  }

  lemma Rivals(auth: Authorization)
    ensures var b, c := SecondKey(auth), ThirdKey(auth);
            && b.RotateKey? && c.RotateKey? && b.keyId == "k1" && c.keyId == "k2" && b.keyId != c.keyId
            && b.provider == Described("ref1", false) && c.provider == Described("ref2", false) && b.provider.ref != c.provider.ref
  {
  }

  lemma FirstInstalled(auth: Authorization, minimum: nat)
    requires Approved(auth, Provision, minimum) && Approved(auth, Rotate, minimum)
    ensures var s := Step(Step(START, Read(0, FirstKey(auth)), minimum), Commit(0), minimum);
            && s == Registry(map["k0" := NewKey("ref0", None, 0)], map[])
            && Admitted(s.keys, SecondKey(auth), minimum) && Admitted(s.keys, ThirdKey(auth), minimum)
            && !RefTaken(s.keys, "ref1") && !RefTaken(s.keys, "ref2")
  {
    hide Approved;
    var s := Step(Step(START, Read(0, FirstKey(auth)), minimum), Commit(0), minimum);
    assert ValidKeyId("k0") && ValidKeyId("k1") && ValidKeyId("k2");
    hide ValidKeyId;
    assert s.keys == map["k0" := NewKey("ref0", None, 0)];
    assert Actives(s.keys) == {"k0"};
  }
}
