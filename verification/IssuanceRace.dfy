/**
  Overlapping transactions of `issue_proof`.  Each reads the committed table, inserts its row under
  the partial unique index over requested and issued rows, signs, and commits.  An insert that
  meets another caller's uncommitted row waits for that caller to end.
*/
module IssuanceRace {
  import opened Hashing
  import opened ControlPlane
  import Issuance

  /** `stale` is an issued row found past its expiry, to be marked expired by this transaction's first flush. */
  datatype Txn =
    | Looking(key: ProofKey, stale: Option<Id>)
    | Holding(stale: Option<Id>, id: Id, row: Proof)

  datatype State = State(committed: map<Id, Proof>, next: Id, open: map<nat, Txn>)

  datatype Action =
    | Begin(caller: nat, key: ProofKey, now: int)
    | Insert(caller: nat, scope: seq<string>, eligible: bool, expiresAt: int, now: int)
    | Finish(caller: nat, signing: Issuance.SigningResult)
    | Abort(caller: nat)
    | ReadProof(id: Id, now: int)

  datatype Reply = Silent | Waiting | Replayed(id: Id) | Created(id: Id) | Unreplayable

  const START: State := State(map[], 0, map[])

  ghost function Issued(rows: map<Id, Proof>, key: ProofKey): (ids: set<Id>) {
    set i | i in rows && rows[i].status == ProofIssued && rows[i].key == key
  }

  /** `_find_existing_proof`: the issued row of the key, if any. */
  ghost function Found(rows: map<Id, Proof>, key: ProofKey): (r: Option<Id>)
    ensures r.Some? ==> r.value in Issued(rows, key)
    ensures r.None? ==> Issued(rows, key) == {}
  {
    if Issued(rows, key) == {} then None
    else
      var i :| i in Issued(rows, key);
      Some(i)
  }

  function Lapse(rows: map<Id, Proof>, stale: Option<Id>): (out: map<Id, Proof>) {
    if stale.Some? && stale.value in rows then rows[stale.value := rows[stale.value].(status := ProofExpired)] else rows
  }

  /** Another open transaction has inserted a requested row of this key. */
  ghost predicate Occupied(s: State, t: nat, key: ProofKey) {
    exists u :: u in s.open && u != t && s.open[u].Holding? && s.open[u].row.key == key
  }

  /** What the caller is told; `Waiting` means the database has not answered yet. */
  ghost function ReplyTo(s: State, a: Action): (r: Reply) {
    match a
    case Begin(t, key, now) =>
      var found := Found(s.committed, key);
      if t !in s.open && found.Some? && s.committed[found.value].expiresAt > now then Replayed(found.value) else Silent
    case Insert(t, scope, eligible, expiresAt, now) =>
      if t !in s.open || !s.open[t].Looking? then Silent
      else
        var key := s.open[t].key;
        if !eligible then Created(s.next)
        else if Occupied(s, t, key) then Waiting
        else if Issued(Lapse(s.committed, s.open[t].stale), key) != {} then
          var found := Found(s.committed, key);
          if found.Some? && s.committed[found.value].expiresAt > now then Replayed(found.value) else Unreplayable
        else Silent
    case Finish(t, signing) => if t in s.open && s.open[t].Holding? then Created(s.open[t].id) else Silent
    case _ => Silent
  }

  ghost function Step(s: State, a: Action): (s': State) {
    match a
    case Begin(t, key, now) =>
      var found := Found(s.committed, key);
      if t in s.open || ReplyTo(s, a).Replayed? then s
      else s.(open := s.open[t := Looking(key, found)])
    case Insert(t, scope, eligible, expiresAt, now) =>
      if t !in s.open || !s.open[t].Looking? then s
      else
        var key := s.open[t].key;
        var row := Proof(key, scope, if eligible then ProofRequested else ProofRejected, expiresAt);
        if !eligible then
          State(Lapse(s.committed, s.open[t].stale)[s.next := row], s.next + 1, s.open - {t})
        else if Occupied(s, t, key) then s
        else if Issued(Lapse(s.committed, s.open[t].stale), key) != {} then s.(open := s.open - {t})
        else State(s.committed, s.next + 1, s.open[t := Holding(s.open[t].stale, s.next, row)])
    case Finish(t, signing) =>
      if t !in s.open || !s.open[t].Holding? then s
      else
        var h := s.open[t];
        State(Lapse(s.committed, h.stale)[h.id := h.row.(status := Issuance.StatusFor(true, signing))], s.next, s.open - {t})
    case Abort(t) => s.(open := s.open - {t})
    case ReadProof(i, now) =>
      if i in s.committed then s.(committed := s.committed[i := Issuance.RefreshedProof(s.committed[i], now)]) else s
  }

  ghost function After(run: seq<Action>): (s: State) {
    if run == [] then START else Step(After(run[..|run| - 1]), run[|run| - 1])
  }

  // ----- The invariant -----

  ghost predicate OneIssued(rows: map<Id, Proof>) {
    forall i, j :: i in rows && j in rows && Issuance.SameIssue(rows[i], rows[j]) ==> i == j
  }

  ghost predicate RowsInv(rows: map<Id, Proof>, next: Id) {
    && (forall i :: i in rows ==> i < next && rows[i].status != ProofRequested)
    && OneIssued(rows)
  }

  /** While a requested row is held, no other row of its key is issued once the stale one lapses. */
  ghost predicate HoldInv(s: State, t: nat)
    requires t in s.open
  {
    var x := s.open[t];
    x.Holding? ==>
      && x.row.status == ProofRequested && x.id < s.next && x.id !in s.committed
      && (forall i :: i in Issued(s.committed, x.row.key) ==> Some(i) == x.stale)
  }

  ghost predicate Inv(s: State) {
    && RowsInv(s.committed, s.next)
    && (forall t :: t in s.open ==> HoldInv(s, t))
    && (forall t, u :: t in s.open && u in s.open && Clash(s.open[t], s.open[u]) ==> t == u)
  }

  predicate Clash(x: Txn, y: Txn) {
    x.Holding? && y.Holding? && (x.row.key == y.row.key || x.id == y.id)
  }

  lemma LapseInv(rows: map<Id, Proof>, next: Id, stale: Option<Id>)
    requires RowsInv(rows, next)
    ensures RowsInv(Lapse(rows, stale), next) && Lapse(rows, stale).Keys == rows.Keys
  {
    var out := Lapse(rows, stale);
    forall i, j | i in out && j in out && Issuance.SameIssue(out[i], out[j]) ensures i == j {
      assert Issuance.SameIssue(rows[i], rows[j]);
    }
  }

  /** Lapsing takes the stale row, and only it, out of the issued rows. */
  lemma LapseIssued(rows: map<Id, Proof>, stale: Option<Id>, key: ProofKey)
    ensures Issued(Lapse(rows, stale), key) == Issued(rows, key) - (if stale.Some? then {stale.value} else {})
  {
  }

  lemma InsertRow(rows: map<Id, Proof>, next: Id, id: Id, row: Proof)
    requires RowsInv(rows, next) && id < next && id !in rows && row.status != ProofRequested
    requires row.status == ProofIssued ==> Issued(rows, row.key) == {}
    ensures RowsInv(rows[id := row], next)
    ensures forall key :: Issued(rows[id := row], key) == Issued(rows, key) + (if row.status == ProofIssued && row.key == key then {id} else {})
  {
    var out := rows[id := row];
    forall i, j | i in out && j in out && Issuance.SameIssue(out[i], out[j]) ensures i == j {
      assert i != id && j != id ==> Issuance.SameIssue(rows[i], rows[j]);
      assert i != id && j == id ==> i in Issued(rows, row.key);
      assert i == id && j != id ==> j in Issued(rows, row.key);
    }
  }

  /** Holders keep their guarantee when the issued rows of their keys only shrink and no held id is stored. */
  lemma HoldersKeep(s: State, s': State, t: nat)
    requires t in s.open && t in s'.open && s'.open[t] == s.open[t] && HoldInv(s, t) && s.next <= s'.next
    requires s.open[t].Holding? ==> s.open[t].id !in s'.committed && Issued(s'.committed, s.open[t].row.key) <= Issued(s.committed, s.open[t].row.key)
    ensures HoldInv(s', t)
  {
  }

  lemma BeginInv(s: State, a: Action)
    requires Inv(s) && a.Begin?
    ensures Inv(Step(s, a))
  {
    hide RowsInv, Found;
    var s' := Step(s, a);
    forall t | t in s'.open ensures HoldInv(s', t) {
      if t in s.open {
        HoldersKeep(s, s', t);
      }
    }
  }

  lemma RejectInv(s: State, a: Action)
    requires Inv(s) && a.Insert? && a.caller in s.open && s.open[a.caller].Looking? && !a.eligible
    ensures Inv(Step(s, a))
  {
    var s', stale := Step(s, a), s.open[a.caller].stale;
    var rows, row := Lapse(s.committed, stale), Proof(s.open[a.caller].key, a.scope, ProofRejected, a.expiresAt);
    LapseInv(s.committed, s.next, stale);
    assert RowsInv(rows, s.next + 1);
    InsertRow(rows, s.next + 1, s.next, row);
    hide RowsInv, Lapse;
    forall t | t in s'.open ensures HoldInv(s', t) {
      assert HoldInv(s, t);
      if s.open[t].Holding? {
        LapseIssued(s.committed, stale, s.open[t].row.key);
      }
      HoldersKeep(s, s', t);
    }
  }

  lemma AcceptInv(s: State, a: Action)
    requires Inv(s) && a.Insert? && a.caller in s.open && s.open[a.caller].Looking? && a.eligible
    ensures Inv(Step(s, a))
  {
    var s' := Step(s, a);
    var x := s.open[a.caller];
    LapseIssued(s.committed, x.stale, x.key);
    assert RowsInv(s.committed, s.next + 1) && s.next !in s.committed;
    hide RowsInv, Lapse, Found;
    forall t | t in s'.open ensures HoldInv(s', t) {
      if t != a.caller {
        HoldersKeep(s, s', t);
      } else if s'.open[t].Holding? {
        assert Issued(Lapse(s.committed, x.stale), x.key) == {};
        forall i | i in Issued(s.committed, x.key) ensures Some(i) == x.stale {
          assert i !in Issued(Lapse(s.committed, x.stale), x.key);
        }
      }
    }
  }

  lemma FinishInv(s: State, a: Action)
    requires Inv(s) && a.Finish? && a.caller in s.open && s.open[a.caller].Holding?
    ensures Inv(Step(s, a))
    ensures Issued(Lapse(s.committed, s.open[a.caller].stale), s.open[a.caller].row.key) == {}
  {
    var s', h := Step(s, a), s.open[a.caller];
    assert HoldInv(s, a.caller);
    LapseIssued(s.committed, h.stale, h.row.key);
    var rows, row := Lapse(s.committed, h.stale), h.row.(status := Issuance.StatusFor(true, a.signing));
    LapseInv(s.committed, s.next, h.stale);
    InsertRow(rows, s.next, h.id, row);
    hide RowsInv, Lapse;
    forall t | t in s'.open ensures HoldInv(s', t) {
      assert HoldInv(s, t);
      if s.open[t].Holding? {
        LapseIssued(s.committed, h.stale, s.open[t].row.key);
        assert !Clash(s.open[t], h);
      }
      HoldersKeep(s, s', t);
    }
  }

  lemma ReadInv(s: State, a: Action)
    requires Inv(s) && a.ReadProof?
    ensures Inv(Step(s, a))
  {
    var s' := Step(s, a);
    if a.id in s.committed {
      var rows := s'.committed;
      forall i, j | i in rows && j in rows && Issuance.SameIssue(rows[i], rows[j]) ensures i == j {
        assert Issuance.SameIssue(s.committed[i], s.committed[j]);
      }
      forall t | t in s'.open ensures HoldInv(s', t) {
        HoldersKeep(s, s', t);
      }
    }
  }

  lemma StepInv(s: State, a: Action)
    requires Inv(s)
    ensures Inv(Step(s, a))
  {
    hide Inv, Step;
    match a
    case Begin(_, _, _) => BeginInv(s, a);
    case Insert(t, _, eligible, _, _) =>
      if t in s.open && s.open[t].Looking? {
        if eligible { AcceptInv(s, a); } else { RejectInv(s, a); }
      } else {
        IdleInv(s, a);
      }
    case Finish(t, _) => if t in s.open && s.open[t].Holding? { FinishInv(s, a); } else { IdleInv(s, a); }
    case Abort(t) => AbortInv(s, a);
    case ReadProof(_, _) => ReadInv(s, a);
  }

  lemma IdleInv(s: State, a: Action)
    requires Inv(s)
    requires (a.Insert? && !(a.caller in s.open && s.open[a.caller].Looking?)) || (a.Finish? && !(a.caller in s.open && s.open[a.caller].Holding?))
    ensures Step(s, a) == s
  {
  }

  lemma AbortInv(s: State, a: Action)
    requires Inv(s) && a.Abort?
    ensures Inv(Step(s, a))
  {
    var s' := Step(s, a);
    forall t | t in s'.open ensures HoldInv(s', t) {
      HoldersKeep(s, s', t);
    }
  }

  lemma {:induction false} AfterInv(run: seq<Action>)
    ensures Inv(After(run))
  {
    if run != [] {
      AfterInv(run[..|run| - 1]);
      StepInv(After(run[..|run| - 1]), run[|run| - 1]);
      hide Step, Inv;
    }
  }

  // ----- Results -----

  /** In every interleaving: nothing requested is ever committed, and a key has at most one issued proof. */
  lemma CommittedIsIdempotent(run: seq<Action>, i: Id, j: Id)
    requires i in After(run).committed && j in After(run).committed
    ensures After(run).committed[i].status != ProofRequested
    ensures var p, q := After(run).committed[i], After(run).committed[j];
            p.status == q.status == ProofIssued && p.key == q.key ==> i == j
  {
    AfterInv(run);
    hide Step, After;
    assert Issuance.SameIssue(After(run).committed[i], After(run).committed[j]) ==> i == j;
  }

  function KeyOfCaller(s: State, a: Action): (key: ProofKey)
    requires a.Begin? || (a.Insert? && a.caller in s.open && s.open[a.caller].Looking?)
  {
    if a.Begin? then a.key else s.open[a.caller].key
  }

  /** A replay, wherever it happens, answers with the one issued proof of the caller's key, unexpired at that moment. */
  lemma ReplayIsTheIssuedProof(run: seq<Action>, a: Action)
    requires ReplyTo(After(run), a).Replayed?
    ensures a.Begin? || (a.Insert? && a.caller in After(run).open && After(run).open[a.caller].Looking?)
    ensures var s, id := After(run), ReplyTo(After(run), a).id;
            && id in s.committed && s.committed[id].status == ProofIssued && s.committed[id].expiresAt > a.now
            && Issued(s.committed, KeyOfCaller(s, a)) == {id}
  {
    AfterInv(run);
    hide After, Step;
    var s, id := After(run), ReplyTo(After(run), a).id;
    assert forall i :: i in Issued(s.committed, KeyOfCaller(s, a)) ==> Issuance.SameIssue(s.committed[i], s.committed[id]) && i == id;
  }

  /** The index is never violated by the final commit: the second conflict handler of the source is unreachable. */
  lemma FinishNeverConflicts(run: seq<Action>, t: nat)
    requires t in After(run).open && After(run).open[t].Holding?
    ensures var h := After(run).open[t];
            && Issued(Lapse(After(run).committed, h.stale), h.row.key) == {} && h.id !in After(run).committed
            && forall u :: u in After(run).open && u != t && After(run).open[u].Holding? ==> After(run).open[u].row.key != h.row.key
  {
    AfterInv(run);
    FinishInv(After(run), Finish(t, Issuance.Signed));
    var s := After(run);
    hide Step, After, RowsInv;
    assert HoldInv(s, t);
    assert forall u :: u in s.open && u != t ==> !Clash(s.open[u], s.open[t]);
  }

  /** One caller alone does to the proofs exactly what the serial `issue_proof` does. */
  lemma {:induction false} UninterruptedIsSerial(db: Db, key: ProofKey, scope: seq<string>, eligible: bool,
          signing: Issuance.SigningResult, expiresAt: int, now: int, t: nat)
    requires Issuance.ProofsInv(db) && forall i :: i in Issuance.IssuedWith(db, key) ==> db.proofs[i].expiresAt <= now
    ensures var s1 := Step(State(db.proofs, db.next, map[]), Begin(t, key, now));
            var s2 := Step(s1, Insert(t, scope, eligible, expiresAt, now));
            var s3 := Step(s2, Finish(t, signing));
            var d := Issuance.Inserted(db, Proof(key, scope, Issuance.StatusFor(eligible, signing), expiresAt));
            s3 == State(d.proofs, d.next, map[])
  {
    var s0 := State(db.proofs, db.next, map[]);
    var stale := Found(db.proofs, key);
    LapseIsExpiry(db, key, stale);
    OneStale(db, key, stale);
    LapseIssued(db.proofs, stale, key);
    AloneBegin(s0, t, key, now);
    var s1 := State(db.proofs, db.next, map[t := Looking(key, stale)]);
    AloneInsert(s1, t, key, stale, Insert(t, scope, eligible, expiresAt, now));
    var s2 := Step(s1, Insert(t, scope, eligible, expiresAt, now));
    AloneFinish(s2, t, signing);
    InsertedIs(db, Proof(key, scope, Issuance.StatusFor(eligible, signing), expiresAt));
    assert Issuance.StatusFor(false, signing) == ProofRejected;
    hide *;
  }

  lemma OneStale(db: Db, key: ProofKey, stale: Option<Id>)
    requires Issuance.ProofsInv(db) && stale == Found(db.proofs, key)
    ensures Issued(db.proofs, key) == Issuance.IssuedWith(db, key) == (if stale.Some? then {stale.value} else {})
  {
    assert forall i :: i in Issued(db.proofs, key) ==> Issuance.SameIssue(db.proofs[i], db.proofs[stale.value]) && i == stale.value;
  }

  lemma InsertedIs(db: Db, row: Proof)
    ensures Issuance.Inserted(db, row).proofs == Issuance.WithoutLapsed(db.proofs, row.key)[db.next := row]
    ensures Issuance.Inserted(db, row).next == db.next + 1
  {
  }

  lemma AloneBegin(s: State, t: nat, key: ProofKey, now: int)
    requires s.open == map[] && (Found(s.committed, key).Some? ==> s.committed[Found(s.committed, key).value].expiresAt <= now)
    ensures Step(s, Begin(t, key, now)) == State(s.committed, s.next, map[t := Looking(key, Found(s.committed, key))])
  {
  }

  lemma AloneInsert(s: State, t: nat, key: ProofKey, stale: Option<Id>, a: Action)
    requires s.open == map[t := Looking(key, stale)] && a.Insert? && a.caller == t && Issued(Lapse(s.committed, stale), key) == {}
    ensures Step(s, a) ==
              if a.eligible then State(s.committed, s.next + 1, map[t := Holding(stale, s.next, Proof(key, a.scope, ProofRequested, a.expiresAt))])
              else State(Lapse(s.committed, stale)[s.next := Proof(key, a.scope, ProofRejected, a.expiresAt)], s.next + 1, map[])
  {
    hide Lapse, Issued;
    assert s.open - {t} == map[];
  }

  lemma AloneFinish(s: State, t: nat, signing: Issuance.SigningResult)
    ensures t !in s.open ==> Step(s, Finish(t, signing)) == s
    ensures t in s.open && s.open == map[t := s.open[t]] && s.open[t].Holding? ==>
              var h := s.open[t];
              Step(s, Finish(t, signing)) == State(Lapse(s.committed, h.stale)[h.id := h.row.(status := Issuance.StatusFor(true, signing))], s.next, map[])
  {
    hide Lapse;
    if t in s.open && s.open == map[t := s.open[t]] {
      assert s.open - {t} == map[];
    }
  }

  lemma LapseIsExpiry(db: Db, key: ProofKey, stale: Option<Id>)
    requires Issuance.ProofsInv(db) && stale == Found(db.proofs, key)
    ensures Lapse(db.proofs, stale) == Issuance.WithoutLapsed(db.proofs, key)
  {
    forall i | i in db.proofs ensures Lapse(db.proofs, stale)[i] == Issuance.WithoutLapsed(db.proofs, key)[i] {
      if db.proofs[i].status == ProofIssued && db.proofs[i].key == key {
        assert i in Issued(db.proofs, key);
        assert Issuance.SameIssue(db.proofs[i], db.proofs[stale.value]);
      }
    }
  }
}
