/**
  `countersigning.py`: the life of managed signing keys.  Provider and publisher results are inputs;
  a failure anywhere up to the commit rolls the keys back and leaves one failed record.
*/
module CounterSigning {
  import opened Hashing
  import opened Text

  datatype KeyStatus = Active | Retired | Revoked

  datatype Key = Key(ref: string, status: KeyStatus, notBefore: int, expiresAt: Option<int>,
                     retiredAt: Option<int>, revokedAt: Option<int>, replacedBy: Option<string>, reason: Option<string>)

  datatype Actor = Actor(kind: string, id: string, permissions: set<string>)

  datatype Authorization = Authorization(requester: Actor, approvers: seq<Actor>)

  datatype LifecycleAction = Provision | Rotate | Revoke

  datatype LifecycleStatus = Completed | Denied | Failed

  datatype Record = Record(action: LifecycleAction, status: LifecycleStatus, target: string, prior: Option<string>, auth: Authorization)

  /** One entry of the public key-set document. */
  datatype Descriptor = Descriptor(keyId: string, active: bool, notBefore: int, expiresAt: Option<int>,
                                   revokedAt: Option<int>, replacedBy: Option<string>, reason: Option<string>)

  datatype Keystore = Keystore(keys: map<string, Key>, records: seq<Record>, published: seq<Descriptor>)

  datatype KeyError =
    | BadKeyId | RegistryNotEmpty | NoActiveKey | ManyActiveKeys | KeyExists
    | ReasonMissing | KeyMissing | AlreadyRevoked | Unapproved | OperationFailed

  /** What the provider answers to a request for a new key. */
  datatype Provisioning = ProviderDown | Described(ref: string, leaksPrivate: bool)

  const EMPTY: Keystore := Keystore(map[], [], [])

  const KEY_APPROVAL: string := "counter_signature.keys.approve"

  function PermissionFor(a: LifecycleAction): (p: string) {
    match a
    case Provision => "counter_signature.keys.provision"
    case Rotate => "counter_signature.keys.rotate"
    case Revoke => "counter_signature.keys.revoke"
  }

  predicate Alphanumeric(c: char) {
    'A' <= c <= 'Z' || 'a' <= c <= 'z' || '0' <= c <= '9'
  }

  predicate ValidKeyId(id: string) {
    && 1 <= |id| <= 256 && Alphanumeric(id[0])
    && forall i :: 1 <= i < |id| ==> Alphanumeric(id[i]) || id[i] in "._:-"
  }

  // ----- Dual approval -----

  /** `{a.principal_id: a for a in approvers}`: of approvers with one identifier the last counts. */
  function ById(approvers: seq<Actor>): (m: map<string, Actor>)
    ensures forall id :: id in m ==> m[id] in approvers && m[id].id == id
    ensures forall a :: a in approvers ==> a.id in m
  {
    if approvers == [] then map[]
    else
      var a := approvers[|approvers| - 1];
      assert approvers == approvers[..|approvers| - 1] + [a];
      ById(approvers[..|approvers| - 1])[a.id := a]
  }

  predicate IsApprover(a: Actor) {
    a.kind == "user" && KEY_APPROVAL in a.permissions
  }

  /** `_authorize_lifecycle`. */
  predicate Approved(auth: Authorization, action: LifecycleAction, minimum: nat) {
    var m := ById(auth.approvers);
    && auth.requester.kind == "user" && PermissionFor(action) in auth.requester.permissions
    && auth.requester.id !in m
    && |m| >= minimum
    && forall id :: id in m ==> IsApprover(m[id])
  }

  /** The people who approved. */
  ghost function Endorsers(auth: Authorization): (ids: set<string>) {
    set a | a in auth.approvers && IsApprover(a) :: a.id
  }

  /** An approved operation has the required number of different human approvers, none of them the requester. */
  lemma ApprovedIsDual(auth: Authorization, action: LifecycleAction, minimum: nat)
    requires Approved(auth, action, minimum)
    ensures |Endorsers(auth)| >= minimum && auth.requester.id !in Endorsers(auth)
    ensures auth.requester.kind == "user" && PermissionFor(action) in auth.requester.permissions
  {
    var m := ById(auth.approvers);
    assert m.Keys <= Endorsers(auth) by {
      forall id | id in m.Keys ensures id in Endorsers(auth) {
        assert m[id] in auth.approvers && m[id].id == id;
      }
    }
    assert Endorsers(auth) <= m.Keys;
    assert m.Keys == Endorsers(auth);
  }

  // ----- The key-set document -----

  /** ORDER BY not_before, key_id. */
  predicate Precedes(keys: map<string, Key>, a: string, b: string)
    requires a in keys && b in keys
  {
    keys[a].notBefore < keys[b].notBefore || (keys[a].notBefore == keys[b].notBefore && (a == b || Less(a, b)))
  }

  ghost predicate IsLeast(keys: map<string, Key>, ids: set<string>, m: string)
    requires ids <= keys.Keys
  {
    m in ids && forall j :: j in ids ==> Precedes(keys, m, j)
  }

  lemma PrecedesTransitive(keys: map<string, Key>, a: string, b: string, c: string)
    requires a in keys && b in keys && c in keys && Precedes(keys, a, b) && Precedes(keys, b, c)
    ensures Precedes(keys, a, c)
  {
    if Less(a, b) && Less(b, c) {
      LessTransitive(a, b, c);
    }
  }

  lemma PrecedesTotal(keys: map<string, Key>, a: string, b: string)
    requires a in keys && b in keys
    ensures Precedes(keys, a, b) || Precedes(keys, b, a)
    ensures Precedes(keys, a, b) && Precedes(keys, b, a) ==> a == b
  {
    LessTotal(a, b);
  }

  lemma {:induction false} LeastExists(keys: map<string, Key>, ids: set<string>) returns (m: string)
    requires ids <= keys.Keys && ids != {}
    ensures IsLeast(keys, ids, m)
    decreases |ids|
  {
    var x :| x in ids;
    PrecedesTotal(keys, x, x);
    if ids == {x} {
      return x;
    }
    var rest := ids - {x};
    assert rest != {} by { assert ids != {x}; }
    m := LeastExists(keys, rest);
    PrecedesTotal(keys, x, m);
    if Precedes(keys, x, m) {
      forall j | j in ids ensures Precedes(keys, x, j) {
        if j != x { PrecedesTransitive(keys, x, m, j); }
      }
      m := x;
    }
  }

  /** The identifiers in the order in which the document lists them. */
  ghost function Listing(keys: map<string, Key>, ids: set<string>): (s: seq<string>)
    requires ids <= keys.Keys
    ensures forall x :: x in s <==> x in ids
    ensures |s| == |ids|
    decreases |ids|
  {
    if ids == {} then []
    else
      var m := LeastOf(keys, ids);
      [m] + Listing(keys, ids - {m})
  }

  ghost function LeastOf(keys: map<string, Key>, ids: set<string>): (m: string)
    requires ids <= keys.Keys && ids != {}
    ensures IsLeast(keys, ids, m)
  {
    assert exists m :: IsLeast(keys, ids, m) by {
      var m := LeastExists(keys, ids);
    }
    var m :| IsLeast(keys, ids, m);
    m
  }

  lemma ListingStep(keys: map<string, Key>, ids: set<string>, m: string)
    requires ids <= keys.Keys && IsLeast(keys, ids, m)
    ensures Listing(keys, ids) == [m] + Listing(keys, ids - {m})
  {
    PrecedesTotal(keys, m, LeastOf(keys, ids));
  }

  function Describe(id: string, k: Key): (d: Descriptor) {
    Descriptor(id, k.status == Active, k.notBefore, k.expiresAt, k.revokedAt, k.replacedBy, k.reason)
  }

  ghost function KeySet(keys: map<string, Key>): (doc: seq<Descriptor>)
    ensures |doc| == |keys|
  {
    var ids := Listing(keys, keys.Keys);
    seq(|ids|, i requires 0 <= i < |ids| => Describe(ids[i], keys[ids[i]]))
  }

  lemma {:induction false} ListingOnce(keys: map<string, Key>, ids: set<string>, i: nat, j: nat)
    requires ids <= keys.Keys && i < j < |ids|
    ensures Listing(keys, ids)[i] != Listing(keys, ids)[j] && Precedes(keys, Listing(keys, ids)[i], Listing(keys, ids)[j])
    decreases |ids|
  {
    hide Listing, Precedes;
    ListingUnfold(keys, ids);
    var m := LeastOf(keys, ids);
    var rest := Listing(keys, ids - {m});
    assert rest[j - 1] in rest;
    if i > 0 {
      ListingOnce(keys, ids - {m}, i - 1, j - 1);
    }
  }

  lemma ListingNone(keys: map<string, Key>)
    ensures Listing(keys, {}) == []
  {
  }

  lemma LeastMember(keys: map<string, Key>, ids: set<string>, m: string)
    requires ids <= keys.Keys && IsLeast(keys, ids, m)
    ensures m in ids
  {
  }

  lemma ListingUnfold(keys: map<string, Key>, ids: set<string>)
    requires ids <= keys.Keys && ids != {}
    ensures Listing(keys, ids) == [LeastOf(keys, ids)] + Listing(keys, ids - {LeastOf(keys, ids)})
  {
  }

  lemma KeySetAt(keys: map<string, Key>, i: nat)
    requires i < |keys|
    ensures Listing(keys, keys.Keys)[i] in keys
    ensures KeySet(keys)[i] == Describe(Listing(keys, keys.Keys)[i], keys[Listing(keys, keys.Keys)[i]])
  {
    assert Listing(keys, keys.Keys)[i] in Listing(keys, keys.Keys);
    hide Listing;
  }

  /** The document lists every key exactly once, in order, and is active for no key but an active one. */
  lemma KeySetExact(keys: map<string, Key>, id: string)
    ensures id in keys ==> exists i :: 0 <= i < |KeySet(keys)| && KeySet(keys)[i] == Describe(id, keys[id])
    ensures forall i :: 0 <= i < |KeySet(keys)| ==> KeySet(keys)[i].keyId in keys && KeySet(keys)[i] == Describe(KeySet(keys)[i].keyId, keys[KeySet(keys)[i].keyId])
    ensures forall i, j :: 0 <= i < j < |KeySet(keys)| ==> KeySet(keys)[i].keyId != KeySet(keys)[j].keyId
  {
    var ids := Listing(keys, keys.Keys);
    if id in keys {
      var i :| 0 <= i < |ids| && ids[i] == id;
      assert KeySet(keys)[i] == Describe(id, keys[id]);
    }
    assert forall i :: 0 <= i < |ids| ==> ids[i] in keys;
    forall i, j | 0 <= i < j < |KeySet(keys)| ensures KeySet(keys)[i].keyId != KeySet(keys)[j].keyId {
      ListingOnce(keys, keys.Keys, i, j);
    }
  }

  // ----- Operations -----

  ghost function Actives(keys: map<string, Key>): (ids: set<string>) {
    set id | id in keys && keys[id].status == Active
  }

  /** The key-set document is published before the transaction commits, so the last two steps can fail apart. */
  datatype Ending = PublishFails | CommitFails | Commits

  datatype Operation =
    | ProvisionKey(keyId: string, auth: Authorization, expiry: Option<int>, provider: Provisioning, ending: Ending, now: int)
    | RotateKey(keyId: string, auth: Authorization, expiry: Option<int>, provider: Provisioning, ending: Ending, now: int)
    | RevokeKey(keyId: string, auth: Authorization, reason: string, disables: bool, ending: Ending, now: int)

  function ActionOf(o: Operation): (a: LifecycleAction) {
    match o
    case ProvisionKey(_, _, _, _, _, _) => Provision
    case RotateKey(_, _, _, _, _, _) => Rotate
    case RevokeKey(_, _, _, _, _, _) => Revoke
  }

  /** Refusals that come before any record is written. */
  ghost function Refusal(k: Keystore, o: Operation): (e: Option<KeyError>) {
    match o
    case ProvisionKey(id, _, _, _, _, _) =>
      if !ValidKeyId(id) then Some(BadKeyId) else if k.keys != map[] then Some(RegistryNotEmpty) else None
    case RotateKey(id, _, _, _, _, _) =>
      if !ValidKeyId(id) then Some(BadKeyId)
      else if |Actives(k.keys)| > 1 then Some(ManyActiveKeys)
      else if Actives(k.keys) == {} then Some(NoActiveKey)
      else if id in k.keys then Some(KeyExists)
      else None
    case RevokeKey(id, _, reason, _, _, _) =>
      if Strip(reason) == "" then Some(ReasonMissing)
      else if id !in k.keys then Some(KeyMissing)
      else if k.keys[id].status == Revoked then Some(AlreadyRevoked)
      else None
  }

  /** The key a rotation retires. */
  ghost function Prior(k: Keystore, o: Operation): (p: Option<string>)
    ensures p.Some? ==> p.value in Actives(k.keys)
    ensures o.RotateKey? && Refusal(k, o).None? ==> p.Some? && Actives(k.keys) == {p.value}
    ensures !o.RotateKey? ==> p.None?
  {
    if o.RotateKey? && Actives(k.keys) != {} then
      var p :| p in Actives(k.keys);
      OneElement(Actives(k.keys), p);
      Some(p)
    else None
  }

  lemma OneElement<T>(s: set<T>, x: T)
    requires x in s
    ensures |s| <= 1 ==> s == {x}
  {
    if s != {x} {
      var y :| y in s && y != x;
      assert {x, y} <= s;
      Subset({x, y}, s);
    }
  }

  lemma {:induction false} Subset<T>(a: set<T>, b: set<T>)
    requires a <= b
    ensures |a| <= |b|
  {
    if a != {} {
      var x :| x in a;
      Subset(a - {x}, b - {x});
    }
  }

  ghost predicate RefTaken(keys: map<string, Key>, ref: string) {
    exists id :: id in keys && keys[id].ref == ref
  }

  /** Everything after the approvals goes well up to the publication of the document. */
  ghost predicate Publishes(k: Keystore, o: Operation) {
    match o
    case RevokeKey(_, _, _, disables, ending, _) => disables && ending != PublishFails
    case _ =>
      && (o.expiry.Some? ==> o.expiry.value > o.now)
      && o.provider.Described? && !o.provider.leaksPrivate && !RefTaken(k.keys, o.provider.ref) && o.ending != PublishFails
  }

  ghost predicate Succeeds(k: Keystore, o: Operation) {
    Publishes(k, o) && o.ending == Commits
  }

  function NewKey(ref: string, expiry: Option<int>, now: int): (k: Key) {
    Key(ref, Active, now, expiry, None, None, None, None)
  }

  function RetireFor(k: Key, successor: string, now: int): (r: Key) {
    k.(status := Retired, retiredAt := Some(now), replacedBy := Some(successor))
  }

  ghost function NewKeys(k: Keystore, o: Operation): (keys: map<string, Key>)
    requires Refusal(k, o).None? && Publishes(k, o)
  {
    match o
    case ProvisionKey(id, _, expiry, provider, _, now) => k.keys[id := NewKey(provider.ref, expiry, now)]
    case RotateKey(id, _, expiry, provider, _, now) =>
      var p := Prior(k, o).value;
      k.keys[p := RetireFor(k.keys[p], id, now)][id := NewKey(provider.ref, expiry, now)]
    case RevokeKey(id, _, reason, _, _, now) => k.keys[id := k.keys[id].(status := Revoked, revokedAt := Some(now), reason := Some(reason))]
  }

  ghost function StatusOf(k: Keystore, o: Operation, minimum: nat): (s: LifecycleStatus) {
    if !Approved(o.auth, ActionOf(o), minimum) then Denied else if !Succeeds(k, o) then Failed else Completed
  }

  ghost function RecordFor(k: Keystore, o: Operation, minimum: nat): (r: Record) {
    Record(ActionOf(o), StatusOf(k, o, minimum), o.keyId, Prior(k, o), o.auth)
  }

  /** The operation gets as far as publishing. */
  ghost predicate Sends(k: Keystore, o: Operation, minimum: nat) {
    Refusal(k, o).None? && Approved(o.auth, ActionOf(o), minimum) && Publishes(k, o)
  }

  /** The whole effect of an operation; a rollback does not take the published document back. */
  ghost function Step(k: Keystore, o: Operation, minimum: nat): (k': Keystore) {
    if Refusal(k, o).Some? then k
    else
      var logged := k.(records := k.records + [RecordFor(k, o, minimum)]);
      if !Sends(k, o, minimum) then logged
      else
        var sent := logged.(published := KeySet(NewKeys(k, o)));
        if o.ending == Commits then sent.(keys := NewKeys(k, o)) else sent
  }

  ghost function Answer(k: Keystore, o: Operation, minimum: nat): (r: Result<Key, KeyError>) {
    if Refusal(k, o).Some? then Err(Refusal(k, o).value)
    else
      match StatusOf(k, o, minimum)
      case Denied => Err(Unapproved)
      case Failed => Err(OperationFailed)
      case Completed => Ok(NewKeys(k, o)[o.keyId])
  }

  /** An operation that does not complete leaves the keys alone; once recorded, it adds exactly one record saying so. */
  lemma FailureKeepsKeys(k: Keystore, o: Operation, minimum: nat)
    requires Answer(k, o, minimum).Err?
    ensures var k' := Step(k, o, minimum);
            && k'.keys == k.keys
            && (Refusal(k, o).Some? <==> k'.records == k.records)
            && (Refusal(k, o).None? ==>
                  && |k'.records| == |k.records| + 1 && k'.records[..|k.records|] == k.records
                  && k'.records[|k.records|].status in {Denied, Failed}
                  && (k'.records[|k.records|].status == Denied <==> !Approved(o.auth, ActionOf(o), minimum)))
  {
    hide Approved, Publishes, NewKeys, Refusal;
  }

  // ----- One chain -----

  /** The targets of completed provisions and rotations, in order. */
  function Installed(records: seq<Record>): (c: seq<string>) {
    if records == [] then []
    else
      var r := records[|records| - 1];
      Installed(records[..|records| - 1]) + (if r.status == Completed && r.action != Revoke then [r.target] else [])
  }

  lemma InstalledSnoc(records: seq<Record>, r: Record)
    ensures Installed(records + [r]) == Installed(records) + (if r.status == Completed && r.action != Revoke then [r.target] else [])
  {
    assert (records + [r])[..|records|] == records;
  }

  ghost predicate Unrepeated(c: seq<string>) {
    forall i, j :: 0 <= i < j < |c| ==> c[i] != c[j]
  }

  /** Each key but the last was retired in favour of the next; only the last can be active. */
  ghost predicate IsChain(keys: map<string, Key>, c: seq<string>) {
    && Unrepeated(c)
    && (forall id :: id in c <==> id in keys)
    && (forall i :: 0 <= i < |c| - 1 ==> keys[c[i]].replacedBy == Some(c[i + 1]) && keys[c[i]].status != Active && keys[c[i]].retiredAt.Some?)
    && (c != [] ==> keys[c[|c| - 1]].replacedBy == None && keys[c[|c| - 1]].status != Retired && keys[c[|c| - 1]].retiredAt == None)
  }

  ghost predicate Inv(k: Keystore) {
    && IsChain(k.keys, Installed(k.records))
    && (forall a, b :: a in k.keys && b in k.keys && k.keys[a].ref == k.keys[b].ref ==> a == b)
    && (forall id :: id in k.keys ==> (k.keys[id].status == Revoked <==> k.keys[id].revokedAt.Some?))
  }

  /** At most the last key of a chain is active. */
  lemma ActiveIsLast(keys: map<string, Key>, c: seq<string>)
    requires IsChain(keys, c)
    ensures Actives(keys) == (if c != [] && keys[c[|c| - 1]].status == Active then {c[|c| - 1]} else {})
    ensures keys == map[] <==> c == []
  {
    forall id | id in Actives(keys) ensures c != [] && id == c[|c| - 1] {
      var i :| 0 <= i < |c| && c[i] == id;
    }
    if c == [] {
      assert keys.Keys == {};
    } else {
      assert c[0] in keys;
    }
  }

  /** A set of keys has at most one chain. */
  lemma {:induction false} ChainUnique(keys: map<string, Key>, c: seq<string>, d: seq<string>)
    requires IsChain(keys, c) && IsChain(keys, d)
    ensures c == d
  {
    SameLength(c, d);
    var n := |c|;
    var j := 0;
    while j < n
      invariant 0 <= j <= n && forall i :: n - j <= i < n ==> c[i] == d[i]
    {
      var x := c[n - 1 - j];
      assert x in c && x in keys && x in d;
      var i :| 0 <= i < n && d[i] == x;
      Position(keys, c, n - 1 - j);
      Position(keys, d, i);
      if j > 0 && i + 1 < n {
        assert d[i + 1] == c[n - j] == d[n - j];
      }
      j := j + 1;
    }
  }

  lemma Position(keys: map<string, Key>, c: seq<string>, i: nat)
    requires IsChain(keys, c) && i < |c|
    ensures c[i] in keys && keys[c[i]].replacedBy == (if i + 1 < |c| then Some(c[i + 1]) else None)
  {
    assert c[i] in c;
  }

  lemma SameLength(c: seq<string>, d: seq<string>)
    requires Unrepeated(c) && Unrepeated(d) && forall x :: x in c <==> x in d
    ensures |c| == |d|
  {
    CountDistinct(c);
    CountDistinct(d);
    assert (set x | x in c) == (set x | x in d);
  }

  lemma {:induction false} CountDistinct(c: seq<string>)
    requires Unrepeated(c)
    ensures |set x | x in c| == |c|
  {
    if c != [] {
      CountDistinct(c[1..]);
      assert c == [c[0]] + c[1..];
      assert (set x | x in c) == {c[0]} + (set x | x in c[1..]);
    }
  }

  lemma ExtendChain(keys: map<string, Key>, c: seq<string>, id: string, x: Key, now: int)
    requires IsChain(keys, c) && id !in keys && x.status == Active && x.replacedBy == None && x.retiredAt == None
    ensures c == [] ==> IsChain(keys[id := x], [id])
    ensures c != [] ==> var last := c[|c| - 1]; IsChain(keys[last := RetireFor(keys[last], id, now)][id := x], c + [id])
  {
    if c != [] {
      var last := c[|c| - 1];
      var after, d := keys[last := RetireFor(keys[last], id, now)][id := x], c + [id];
      assert id !in c;
      assert forall y :: y in d <==> y in c || y == id;
      forall i | 0 <= i < |d| - 1 ensures after[d[i]].replacedBy == Some(d[i + 1]) && after[d[i]].status != Active && after[d[i]].retiredAt.Some? {
        assert d[i] in keys;
      }
    } else {
      assert forall y :: y !in keys;
    }
  }

  lemma RevokeInChain(keys: map<string, Key>, c: seq<string>, id: string, x: Key)
    requires IsChain(keys, c) && id in keys
    requires x == keys[id].(status := Revoked, revokedAt := x.revokedAt, reason := x.reason)
    ensures IsChain(keys[id := x], c)
  {
    assert forall i :: 0 <= i < |c| ==> c[i] in keys;
  }

  lemma ProvisionChain(k: Keystore, o: Operation)
    requires Inv(k) && o.ProvisionKey? && Refusal(k, o).None? && Succeeds(k, o)
    ensures IsChain(NewKeys(k, o), Installed(k.records) + [o.keyId])
  {
    hide ValidKeyId;
    var c := Installed(k.records);
    ActiveIsLast(k.keys, c);
    ExtendChain(k.keys, c, o.keyId, NewKey(o.provider.ref, o.expiry, o.now), o.now);
    hide IsChain, Installed, KeySet, RefTaken;
    assert c + [o.keyId] == [o.keyId];
  }

  lemma RotateChain(k: Keystore, o: Operation)
    requires Inv(k) && o.RotateKey? && Refusal(k, o).None? && Succeeds(k, o)
    ensures IsChain(NewKeys(k, o), Installed(k.records) + [o.keyId])
  {
    hide ValidKeyId;
    var c := Installed(k.records);
    ActiveIsLast(k.keys, c);
    ExtendChain(k.keys, c, o.keyId, NewKey(o.provider.ref, o.expiry, o.now), o.now);
    hide IsChain, Installed, KeySet, RefTaken;
    assert Prior(k, o).value == c[|c| - 1];
  }

  lemma RevokeChain(k: Keystore, o: Operation)
    requires Inv(k) && o.RevokeKey? && Refusal(k, o).None? && Succeeds(k, o)
    ensures IsChain(NewKeys(k, o), Installed(k.records))
  {
    hide Strip, KeySet, Installed;
    RevokeInChain(k.keys, Installed(k.records), o.keyId, k.keys[o.keyId].(status := Revoked, revokedAt := Some(o.now), reason := Some(o.reason)));
  }

  lemma NewKeysChain(k: Keystore, o: Operation)
    requires Inv(k) && Refusal(k, o).None? && Succeeds(k, o)
    ensures IsChain(NewKeys(k, o), Installed(k.records) + (if o.RevokeKey? then [] else [o.keyId]))
  {
    hide *;
    match o
    case RevokeKey(_, _, _, _, _, _) =>
      RevokeChain(k, o);
      assert Installed(k.records) + [] == Installed(k.records);
    case ProvisionKey(_, _, _, _, _, _) => ProvisionChain(k, o);
    case RotateKey(_, _, _, _, _, _) => RotateChain(k, o);
  }

  lemma NewKeysFields(k: Keystore, o: Operation)
    requires Inv(k) && Refusal(k, o).None? && Succeeds(k, o)
    ensures var keys := NewKeys(k, o);
            && keys != map[]
            && (forall a, b :: a in keys && b in keys && keys[a].ref == keys[b].ref ==> a == b)
            && (forall id :: id in keys ==> (keys[id].status == Revoked <==> keys[id].revokedAt.Some?))
  {
    hide IsChain, KeySet, Strip, ValidKeyId;
    assert o.keyId in NewKeys(k, o);
  }

  lemma StepUnfold(k: Keystore, o: Operation, minimum: nat)
    ensures Refusal(k, o).Some? ==> Step(k, o, minimum) == k
    ensures Refusal(k, o).None? ==>
              var k' := Step(k, o, minimum);
              var done := Succeeds(k, o) && Approved(o.auth, ActionOf(o), minimum);
              && k'.records == k.records + [RecordFor(k, o, minimum)]
              && (RecordFor(k, o, minimum).status == Completed <==> done)
              && RecordFor(k, o, minimum).target == o.keyId && (RecordFor(k, o, minimum).action == Revoke <==> o.RevokeKey?)
              && k'.keys == (if done then NewKeys(k, o) else k.keys)
              && (done ==> k'.published == KeySet(NewKeys(k, o)))
  {
    hide Refusal, Publishes, Approved, NewKeys, KeySet, Prior;
  }

  lemma InvAgain(k: Keystore, k': Keystore)
    requires Inv(k) && k'.keys == k.keys && Installed(k'.records) == Installed(k.records)
    ensures Inv(k')
  {
    hide IsChain, KeySet, Installed;
  }

  lemma InvNew(k': Keystore)
    requires IsChain(k'.keys, Installed(k'.records))
    requires forall a, b :: a in k'.keys && b in k'.keys && k'.keys[a].ref == k'.keys[b].ref ==> a == b
    requires forall id :: id in k'.keys ==> (k'.keys[id].status == Revoked <==> k'.keys[id].revokedAt.Some?)
    ensures Inv(k')
  {
  }

  lemma StepInv(k: Keystore, o: Operation, minimum: nat)
    requires Inv(k)
    ensures Inv(Step(k, o, minimum))
  {
    hide *;
    StepUnfold(k, o, minimum);
    if Refusal(k, o).None? {
      InstalledSnoc(k.records, RecordFor(k, o, minimum));
      if Succeeds(k, o) && Approved(o.auth, ActionOf(o), minimum) {
        NewKeysChain(k, o);
        NewKeysFields(k, o);
        InvNew(Step(k, o, minimum));
      } else {
        InvAgain(k, Step(k, o, minimum));
      }
    }
  }

  ghost function After(run: seq<Operation>, minimum: nat): (k: Keystore) {
    if run == [] then EMPTY else Step(After(run[..|run| - 1], minimum), run[|run| - 1], minimum)
  }

  lemma {:induction false} AfterInv(run: seq<Operation>, minimum: nat)
    ensures Inv(After(run, minimum))
  {
    if run != [] {
      AfterInv(run[..|run| - 1], minimum);
      StepInv(After(run[..|run| - 1], minimum), run[|run| - 1], minimum);
      hide Step, Inv;
    }
  }

  /**
    While calls come one at a time, every reachable registry is one rotation chain, readable from the
    completed records, and the "multiple active keys" error is unreachable.
  */
  lemma {:induction false} ReachableIsOneChain(run: seq<Operation>, minimum: nat)
    ensures var k := After(run, minimum);
            && IsChain(k.keys, Installed(k.records))
            && |Actives(k.keys)| <= 1
    ensures forall o :: Refusal(After(run, minimum), o) != Some(ManyActiveKeys)
  {
    AfterInv(run, minimum);
    hide After, Installed;
    var k := After(run, minimum);
    ActiveIsLast(k.keys, Installed(k.records));
  }

  // ----- When the published document is the registry's -----

  /** The last operation that got as far as publishing also committed. */
  ghost predicate LastSentCommitted(run: seq<Operation>, minimum: nat) {
    if run == [] then true
    else
      var before, o := run[..|run| - 1], run[|run| - 1];
      if Sends(After(before, minimum), o, minimum) then o.ending == Commits else LastSentCommitted(before, minimum)
  }

  /** A rolled-back operation has published a document that is not the one of the keys. */
  lemma NewKeySetDiffers(k: Keystore, o: Operation)
    requires Inv(k) && Refusal(k, o).None? && Publishes(k, o)
    ensures KeySet(NewKeys(k, o)) != KeySet(k.keys)
  {
    var after := NewKeys(k, o);
    if o.RevokeKey? {
      RevokedDiffers(k, o);
      KeySetExact(after, o.keyId);
      KeySetExact(k.keys, o.keyId);
      var i :| 0 <= i < |KeySet(after)| && KeySet(after)[i] == Describe(o.keyId, after[o.keyId]);
      hide KeySet;
    } else {
      OneKeyMore(k, o);
      hide KeySet;
    }
  }

  lemma RevokedDiffers(k: Keystore, o: Operation)
    requires Inv(k) && o.RevokeKey? && Refusal(k, o).None? && Publishes(k, o)
    ensures o.keyId in k.keys && o.keyId in NewKeys(k, o) && NewKeys(k, o)[o.keyId].revokedAt != k.keys[o.keyId].revokedAt
  {
    hide IsChain, Strip;
  }

  lemma OneKeyMore(k: Keystore, o: Operation)
    requires !o.RevokeKey? && Refusal(k, o).None? && Publishes(k, o)
    ensures |NewKeys(k, o)| == |k.keys| + 1
  {
    hide ValidKeyId;
    assert o.keyId !in k.keys;
    var after := NewKeys(k, o);
    assert after.Keys == k.keys.Keys + {o.keyId};
  }

  lemma StepPublished(k: Keystore, o: Operation, minimum: nat)
    requires Inv(k)
    ensures var k' := Step(k, o, minimum);
            && (Sends(k, o, minimum) ==> (k'.published == KeySet(k'.keys) <==> o.ending == Commits))
            && (!Sends(k, o, minimum) ==> k'.published == k.published && k'.keys == k.keys)
  {
    if Sends(k, o, minimum) {
      NewKeySetDiffers(k, o);
    }
    hide Refusal, Publishes, NewKeys, KeySet, Approved, Inv, RecordFor;
  }

  /**
    In every run the published document is that of the present keys if and only if the last operation
    that published one also committed; the next one that commits puts it right.
  */
  lemma {:induction false} PublishedExactlyWhenCommitted(run: seq<Operation>, minimum: nat)
    ensures After(run, minimum).published == KeySet(After(run, minimum).keys) <==> LastSentCommitted(run, minimum)
  {
    if run == [] {
      assert |KeySet(map[])| == 0;
    } else {
      var before, o := run[..|run| - 1], run[|run| - 1];
      PublishedExactlyWhenCommitted(before, minimum);
      AfterInv(before, minimum);
      StepPublished(After(before, minimum), o, minimum);
      hide Step, Sends, KeySet, Inv;
    }
  }

  /** Whatever was completed, in any run, had its dual approval; so had the installation of every key. */
  lemma {:induction false} CompletedWasDual(run: seq<Operation>, minimum: nat, i: nat)
    requires i < |After(run, minimum).records| && After(run, minimum).records[i].status == Completed
    ensures var r := After(run, minimum).records[i];
            && |Endorsers(r.auth)| >= minimum && r.auth.requester.id !in Endorsers(r.auth)
            && r.auth.requester.kind == "user" && PermissionFor(r.action) in r.auth.requester.permissions
  {
    assert run != [];
    var before, o := After(run[..|run| - 1], minimum), run[|run| - 1];
    if i < |before.records| {
      RecordsGrow(before, o, minimum);
      CompletedWasDual(run[..|run| - 1], minimum, i);
    } else {
      CompletedIsApproved(before, o, minimum);
      ApprovedIsDual(o.auth, ActionOf(o), minimum);
    }
    hide Step, Endorsers;
  }

  lemma RecordsGrow(k: Keystore, o: Operation, minimum: nat)
    ensures k.records <= Step(k, o, minimum).records && |Step(k, o, minimum).records| <= |k.records| + 1
  {
    hide Refusal, StatusOf, RecordFor, NewKeys;
  }

  lemma CompletedIsApproved(k: Keystore, o: Operation, minimum: nat)
    requires |Step(k, o, minimum).records| > |k.records| && Step(k, o, minimum).records[|k.records|].status == Completed
    ensures Approved(o.auth, ActionOf(o), minimum)
    ensures |Step(k, o, minimum).records| == |k.records| + 1
    ensures Step(k, o, minimum).records[|k.records|].auth == o.auth && Step(k, o, minimum).records[|k.records|].action == ActionOf(o)
  {
    hide Refusal, Succeeds, NewKeys, Approved, Prior;
  }

  // ----- Where the life cycle ends -----

  /** A registry that can never have an active key again. */
  ghost predicate DeadEnd(k: Keystore) {
    k.keys != map[] && Actives(k.keys) == {}
  }

  lemma DeadEndStep(k: Keystore, o: Operation, minimum: nat)
    requires DeadEnd(k)
    ensures DeadEnd(Step(k, o, minimum)) && Step(k, o, minimum).keys.Keys == k.keys.Keys
  {
    hide KeySet, Approved, Strip, ValidKeyId;
    var k' := Step(k, o, minimum);
    if k'.keys != k.keys {
      assert o.RevokeKey?;
      assert k'.keys.Keys == k.keys.Keys;
      assert forall id :: id in k'.keys ==> k'.keys[id].status != Active by {
        assert forall id :: id in k.keys ==> id !in Actives(k.keys);
      }
    }
  }

  ghost function From(k: Keystore, run: seq<Operation>, minimum: nat): (k': Keystore) {
    if run == [] then k else Step(From(k, run[..|run| - 1], minimum), run[|run| - 1], minimum)
  }

  /** Revoking the active key is final: no later operation of any kind brings an active key back. */
  lemma {:induction false} DeadEndStays(k: Keystore, run: seq<Operation>, minimum: nat)
    requires DeadEnd(k)
    ensures DeadEnd(From(k, run, minimum)) && From(k, run, minimum).keys.Keys == k.keys.Keys
  {
    if run != [] {
      DeadEndStays(k, run[..|run| - 1], minimum);
      DeadEndStep(From(k, run[..|run| - 1], minimum), run[|run| - 1], minimum);
      hide Step, DeadEnd;
    }
  }

  /** A reachable registry reaches the dead end by exactly one kind of step: completing the revocation of its active key. */
  lemma {:induction false} DeadEndEntered(k: Keystore, o: Operation, minimum: nat)
    requires Inv(k) && !DeadEnd(k)
    ensures DeadEnd(Step(k, o, minimum)) <==> o.RevokeKey? && Answer(k, o, minimum).Ok? && Actives(k.keys) == {o.keyId}
  {
    hide *;
    StepUnfold(k, o, minimum);
    AnswerOk(k, o, minimum);
    if Refusal(k, o).None? && Succeeds(k, o) && Approved(o.auth, ActionOf(o), minimum) {
      ActivesAfter(k, o);
    } else if Refusal(k, o).None? {
      SameDeadEnd(k, Step(k, o, minimum));
    }
    DeadEndMeans(k);
    DeadEndMeans(Step(k, o, minimum));
  }

  lemma DeadEndMeans(k: Keystore)
    ensures DeadEnd(k) <==> k.keys != map[] && Actives(k.keys) == {}
  {
  }

  lemma SameDeadEnd(k: Keystore, k': Keystore)
    requires k'.keys == k.keys
    ensures DeadEnd(k') <==> DeadEnd(k)
  {
  }

  lemma AnswerOk(k: Keystore, o: Operation, minimum: nat)
    ensures Answer(k, o, minimum).Ok? <==> Refusal(k, o).None? && Succeeds(k, o) && Approved(o.auth, ActionOf(o), minimum)
  {
    hide Refusal, Succeeds, Approved, NewKeys;
    if Refusal(k, o).None? && Succeeds(k, o) {
      NewKeysHas(k, o);
    }
  }

  lemma NewKeysHas(k: Keystore, o: Operation)
    requires Refusal(k, o).None? && Succeeds(k, o)
    ensures o.keyId in NewKeys(k, o)
  {
  }

  lemma ActivesAfter(k: Keystore, o: Operation)
    requires Inv(k) && Refusal(k, o).None? && Succeeds(k, o)
    ensures NewKeys(k, o) != map[]
    ensures !o.RevokeKey? ==> o.keyId in Actives(NewKeys(k, o))
    ensures o.RevokeKey? ==> Actives(NewKeys(k, o)) == Actives(k.keys) - {o.keyId}
    ensures Actives(k.keys) == {} || exists x :: Actives(k.keys) == {x}
    ensures k.keys == map[] ==> !o.RevokeKey?
  {
    ActiveIsLast(k.keys, Installed(k.records));
    NewKeysHas(k, o);
    if o.RevokeKey? {
      ActivesRevoke(k, o);
    } else {
      ActivesInstall(k, o);
    }
    hide *;
    assert NewKeys(k, o) != map[];
  }

  lemma ActivesRevoke(k: Keystore, o: Operation)
    requires o.RevokeKey? && Refusal(k, o).None? && Succeeds(k, o)
    ensures Actives(NewKeys(k, o)) == Actives(k.keys) - {o.keyId} && k.keys != map[]
  {
    hide Strip;
    assert o.keyId in k.keys;
  }

  lemma ActivesInstall(k: Keystore, o: Operation)
    requires !o.RevokeKey? && Refusal(k, o).None? && Succeeds(k, o)
    ensures o.keyId in Actives(NewKeys(k, o))
  {
    hide ValidKeyId, Prior, RetireFor;
  }

  // ----- The service -----

  /** `store` is the committed state; a local copy is the transaction that a failure throws away. */
  class CounterSigningService {
    var store: Keystore
    const minimum: nat

    constructor (minimum: nat)
      requires minimum >= 2
      ensures store == EMPTY && this.minimum == minimum
    {
      store, this.minimum := EMPTY, minimum;
    }

    /** `_active_key`. */
    method ActiveKey() returns (r: Result<Option<string>, KeyError>)
      ensures r == Err(ManyActiveKeys) <==> |Actives(store.keys)| > 1
      ensures r.Ok? ==> Actives(store.keys) == (if r.value.Some? then {r.value.value} else {})
      ensures r.Err? ==> r.error == ManyActiveKeys
    {
      var keys := store.keys;
      var found := set id | id in keys && keys[id].status == Active;
      assert found == Actives(keys);
      if |found| > 1 {
        return Err(ManyActiveKeys);
      }
      if found == {} {
        return Ok(None);
      }
      var id :| id in found;
      OneElement(found, id);
      r := Ok(Some(id));
    }

    /** `_authorize_lifecycle`. */
    method Authorize(auth: Authorization, action: LifecycleAction) returns (ok: bool)
      ensures ok <==> Approved(auth, action, minimum)
    {
      if auth.requester.kind != "user" || PermissionFor(action) !in auth.requester.permissions {
        return false;
      }
      var unique: map<string, Actor> := map[];
      for i := 0 to |auth.approvers|
        invariant unique == ById(auth.approvers[..i])
      {
        var a := auth.approvers[i];
        assert auth.approvers[..i + 1][..i] == auth.approvers[..i];
        unique := unique[a.id := a];
      }
      assert auth.approvers[..|auth.approvers|] == auth.approvers;
      if auth.requester.id in unique || |unique| < minimum {
        return false;
      }
      var todo := unique.Keys;
      while todo != {}
        invariant todo <= unique.Keys
        invariant forall id :: id in unique.Keys - todo ==> IsApprover(unique[id])
        decreases |todo|
      {
        var id :| id in todo;
        if !IsApprover(unique[id]) {
          return false;
        }
        todo := todo - {id};
      }
      ok := true;
    }

    static method LeastKey(keys: map<string, Key>, ids: set<string>) returns (m: string)
      requires ids <= keys.Keys && ids != {}
      ensures IsLeast(keys, ids, m)
    {
      m :| m in ids;
      PrecedesTotal(keys, m, m);
      var todo := ids - {m};
      while todo != {}
        invariant todo <= ids && m in ids - todo
        invariant forall j :: j in ids - todo ==> Precedes(keys, m, j)
        decreases |todo|
      {
        var x :| x in todo;
        PrecedesTotal(keys, x, m);
        PrecedesTotal(keys, x, x);
        if !Precedes(keys, m, x) {
          forall j | j in ids - todo ensures Precedes(keys, x, j) {
            PrecedesTransitive(keys, x, m, j);
          }
          m := x;
        }
        todo := todo - {x};
      }
    }

    /** `_all_keys`. */
    static method AllKeys(keys: map<string, Key>) returns (ids: seq<string>)
      ensures ids == Listing(keys, keys.Keys)
    {
      hide *;
      ids := [];
      var todo := keys.Keys;
      while todo != {}
        invariant todo <= keys.Keys
        invariant Listing(keys, keys.Keys) == ids + Listing(keys, todo)
        decreases |todo|
      {
        var m := LeastKey(keys, todo);
        ListingStep(keys, todo, m);
        assert ids + ([m] + Listing(keys, todo - {m})) == ids + [m] + Listing(keys, todo - {m});
        LeastMember(keys, todo, m);
        ids := ids + [m];
        todo := todo - {m};
      }
      ListingNone(keys);
    }

    /** `_build_public_key_set`. */
    static method BuildPublicKeySet(keys: map<string, Key>) returns (doc: seq<Descriptor>)
      ensures doc == KeySet(keys)
    {
      hide KeySet, Listing;
      var ids := AllKeys(keys);
      assert |ids| == |keys|;
      doc := [];
      for i := 0 to |ids|
        invariant |doc| == i && forall k :: 0 <= k < i ==> doc[k] == KeySet(keys)[k]
      {
        KeySetAt(keys, i);
        doc := doc + [Describe(ids[i], keys[ids[i]])];
      }
    }

    static method HasRef(keys: map<string, Key>, ref: string) returns (taken: bool)
      ensures taken <==> RefTaken(keys, ref)
    {
      var todo := keys.Keys;
      while todo != {}
        invariant todo <= keys.Keys
        invariant forall id :: id in keys.Keys - todo ==> keys[id].ref != ref
        decreases |todo|
      {
        var id :| id in todo;
        if keys[id].ref == ref {
          return true;
        }
        todo := todo - {id};
      }
      taken := false;
    }

    /** `_provision_and_publish`. */
    method ProvisionAndPublish(o: Operation, prior: Option<string>) returns (r: Result<Key, KeyError>)
      requires !o.RevokeKey? && Refusal(store, o).None? && prior == Prior(store, o)
      modifies this`store
      ensures store == Step(old(store), o, minimum)
      ensures r == Answer(old(store), o, minimum)
    {
      hide Approved, KeySet, ValidKeyId, Refusal;
      var base := store;
      var entry := Record(ActionOf(o), Completed, o.keyId, prior, o.auth);
      var approved := Authorize(o.auth, ActionOf(o));
      if !approved {
        store := base.(records := base.records + [entry.(status := Denied)]);
        return Err(Unapproved);
      }
      if (o.expiry.None? || o.expiry.value > o.now) && o.provider.Described? && !o.provider.leaksPrivate {
        var work := base.keys;
        var taken := HasRef(work, o.provider.ref);
        if prior.Some? {
          work := work[prior.value := RetireFor(work[prior.value], o.keyId, o.now)];
        }
        work := work[o.keyId := NewKey(o.provider.ref, o.expiry, o.now)];
        if !taken && o.ending != PublishFails {
          var doc := BuildPublicKeySet(work);
          assert work == NewKeys(base, o);
          base := base.(published := doc);
          if o.ending == Commits {
            store := Keystore(work, base.records + [entry], doc);
            return Ok(work[o.keyId]);
          }
        }
      }
      store := base.(records := base.records + [entry.(status := Failed)]);
      r := Err(OperationFailed);
    }

    /** `provision_initial_key`. */
    method ProvisionInitialKey(o: Operation) returns (r: Result<Key, KeyError>)
      requires o.ProvisionKey?
      modifies this`store
      ensures store == Step(old(store), o, minimum)
      ensures r == Answer(old(store), o, minimum)
    {
      hide ValidKeyId, StatusOf, RecordFor, NewKeys, KeySet;
      if !ValidKeyId(o.keyId) {
        return Err(BadKeyId);
      }
      if store.keys != map[] {
        return Err(RegistryNotEmpty);
      }
      r := ProvisionAndPublish(o, None);
    }

    /** `rotate_key`. */
    method Rotate(o: Operation) returns (r: Result<Key, KeyError>)
      requires o.RotateKey?
      modifies this`store
      ensures store == Step(old(store), o, minimum)
      ensures r == Answer(old(store), o, minimum)
    {
      hide ValidKeyId, StatusOf, RecordFor, NewKeys, KeySet;
      if !ValidKeyId(o.keyId) {
        return Err(BadKeyId);
      }
      var active := ActiveKey();
      if active.Err? {
        return Err(ManyActiveKeys);
      }
      if active.value.None? {
        return Err(NoActiveKey);
      }
      if o.keyId in store.keys {
        return Err(KeyExists);
      }
      assert |{active.value.value}| == 1;
      assert Prior(store, o) == active.value;
      r := ProvisionAndPublish(o, active.value);
    }

    /** `revoke_key`. */
    method Revocation(o: Operation) returns (r: Result<Key, KeyError>)
      requires o.RevokeKey?
      modifies this`store
      ensures store == Step(old(store), o, minimum)
      ensures r == Answer(old(store), o, minimum)
    {
      hide Approved, KeySet, Strip;
      if Strip(o.reason) == "" {
        return Err(ReasonMissing);
      }
      if o.keyId !in store.keys {
        return Err(KeyMissing);
      }
      if store.keys[o.keyId].status == Revoked {
        return Err(AlreadyRevoked);
      }
      var base := store;
      var entry := Record(Revoke, Completed, o.keyId, None, o.auth);
      var approved := Authorize(o.auth, Revoke);
      if !approved {
        store := base.(records := base.records + [entry.(status := Denied)]);
        return Err(Unapproved);
      }
      if o.disables {
        var work := base.keys[o.keyId := base.keys[o.keyId].(status := Revoked, revokedAt := Some(o.now), reason := Some(o.reason))];
        if o.ending != PublishFails {
          var doc := BuildPublicKeySet(work);
          base := base.(published := doc);
          if o.ending == Commits {
            store := Keystore(work, base.records + [entry], doc);
            return Ok(work[o.keyId]);
          }
        }
      }
      store := base.(records := base.records + [entry.(status := Failed)]);
      r := Err(OperationFailed);
    }
  }
}
