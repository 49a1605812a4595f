/**
  The operated log (`transparency_log.py`): stored rows, the integrity audit that recomputes
  them, checkpoint publication, and the proofs served to relying parties.

  `artifactDigest` stands for SHA-256 over the canonical JSON of a checkpoint artifact.
*/
module TransparencyLog {
  import opened Hashing
  import opened MerkleTree
  import opened MerkleVerifier
  import opened AppendChain

  datatype LeafRow = LeafRow(index: nat, digest: Digest, leafHash: Digest, chainHash: Digest)

  datatype Artifact = Artifact(treeSize: nat, root: Digest, issuedAt: int, keyId: string, signature: string)

  datatype CheckpointStatus = Completed | Failed

  datatype CheckpointRow = CheckpointRow(treeSize: nat, root: Digest, status: CheckpointStatus,
                                         prior: Option<Digest>, artifact: Option<Artifact>, digest: Option<Digest>)

  datatype LogState = LogState(nextLeafIndex: nat, chainHead: Option<Digest>,
                               latestSize: Option<nat>, latestDigest: Option<Digest>)

  /** Leaf rows in index order, checkpoint rows in tree-size order, as the queries return them. */
  datatype Tables = Tables(leaves: seq<LeafRow>, checkpoints: seq<CheckpointRow>, state: Option<LogState>)

  datatype IntegrityError =
    | LeafIndexGap | LeafHashMismatch | AppendChainMismatch
    | LogStateMissing | TreeSizeStateMismatch | AppendChainHeadMismatch
    | CheckpointNonMonotonic | CheckpointAheadOfLog | CheckpointRootMismatch | CheckpointChainMismatch
    | CheckpointArtifactMissing | CheckpointDigestMismatch
    | LatestCheckpointSizeMismatch | LatestCheckpointDigestMismatch

  datatype LogError = EmptyLog | IntegrityFailure | SigningFailed | LogFull | NotIncluded | CheckpointNotFound

  type ArtifactDigestFn = Artifact -> Digest

  function Digests(rows: seq<LeafRow>): (ds: seq<Digest>)
    ensures |ds| == |rows| && forall i :: 0 <= i < |rows| ==> ds[i] == rows[i].digest
  {
    seq(|rows|, i requires 0 <= i < |rows| => rows[i].digest)
  }

  function Hashes(rows: seq<LeafRow>): (hs: seq<Digest>)
    ensures |hs| == |rows| && forall i :: 0 <= i < |rows| ==> hs[i] == rows[i].leafHash
  {
    seq(|rows|, i requires 0 <= i < |rows| => rows[i].leafHash)
  }

  function CompletedRows(rows: seq<CheckpointRow>): (cs: seq<CheckpointRow>)
    ensures forall c :: c in cs <==> c in rows && c.status == Completed
  {
    if rows == [] then []
    else
      var t := |rows| - 1;
      CompletedRows(rows[..t]) + (if rows[t].status == Completed then [rows[t]] else [])
  }

  ghost predicate Increasing(rows: seq<CheckpointRow>) {
    forall i, j :: 0 <= i < j < |rows| ==> rows[i].treeSize < rows[j].treeSize
  }

  /** Column widths and the order of the two queries. */
  ghost predicate Stored(t: Tables) {
    && |t.leaves| <= INDEX_LIMIT
    && (forall i :: 0 <= i < |t.leaves| ==> t.leaves[i].index < INDEX_LIMIT)
    && Increasing(t.checkpoints)
  }

  // ----- What the audit checks -----

  ghost predicate LeafIntact(h: HashFn, rows: seq<LeafRow>, i: nat)
    requires i < |rows| <= INDEX_LIMIT
  {
    && rows[i].index == i
    && rows[i].leafHash == Leaf(h, rows[i].digest)
    && Some(rows[i].chainHash) == ChainHead(h, Digests(rows)[..i + 1])
  }

  ghost predicate CheckpointIntact(h: HashFn, ad: ArtifactDigestFn, rows: seq<LeafRow>, cs: seq<CheckpointRow>, j: nat)
    requires j < |cs|
  {
    && cs[j].treeSize <= |rows|
    && cs[j].root == Root(h, Hashes(rows)[..cs[j].treeSize])
    && cs[j].prior == (if j == 0 then None else cs[j - 1].digest)
    && cs[j].artifact.Some?
    && cs[j].digest == Some(ad(cs[j].artifact.value))
  }

  ghost predicate StateIntact(h: HashFn, t: Tables)
    requires |t.leaves| <= INDEX_LIMIT
  {
    var cs := CompletedRows(t.checkpoints);
    match t.state
    case None => t.leaves == [] && cs == []
    case Some(s) =>
      && s.nextLeafIndex == |t.leaves|
      && s.chainHead == ChainHead(h, Digests(t.leaves))
      && s.latestSize == (if cs == [] then None else Some(cs[|cs| - 1].treeSize))
      && s.latestDigest == (if cs == [] then None else cs[|cs| - 1].digest)
  }

  ghost predicate Intact(h: HashFn, ad: ArtifactDigestFn, t: Tables)
    requires |t.leaves| <= INDEX_LIMIT
  {
    var cs := CompletedRows(t.checkpoints);
    && (forall i :: 0 <= i < |t.leaves| ==> LeafIntact(h, t.leaves, i))
    && (forall j :: 0 <= j < |cs| ==> CheckpointIntact(h, ad, t.leaves, cs, j))
    && StateIntact(h, t)
  }

  lemma {:induction false} CompletedIncrease(rows: seq<CheckpointRow>)
    requires Increasing(rows)
    ensures Increasing(CompletedRows(rows))
  {
    if rows != [] {
      var t := |rows| - 1;
      CompletedIncrease(rows[..t]);
      var cs, init := CompletedRows(rows), CompletedRows(rows[..t]);
      forall i, j | 0 <= i < j < |cs| ensures cs[i].treeSize < cs[j].treeSize {
        assert cs[i] == init[i] && init[i] in rows[..t];
        var k :| 0 <= k < t && rows[k] == cs[i];
        assert if j < |init| then cs[j] == init[j] else cs[j] == rows[t];
      }
    }
  }

  lemma ChainStep(h: HashFn, rows: seq<LeafRow>, i: nat)
    requires i < |rows| <= INDEX_LIMIT
    ensures ChainHead(h, Digests(rows)[..i + 1])
         == Some(h(Preimage(ChainHead(h, Digests(rows)[..i]), i, rows[i].digest, Leaf(h, rows[i].digest))))
  {
    ChainUnfold(h, Digests(rows)[..i + 1]);
    assert Digests(rows)[..i + 1][..i] == Digests(rows)[..i];
  }

  method AuditLeaf(h: HashFn, head: Option<Digest>, i: nat, row: LeafRow)
    returns (errors: seq<IntegrityError>, next: Digest)
    requires i < INDEX_LIMIT && row.index < INDEX_LIMIT
    ensures errors == [] <==> row.index == i && row.leafHash == Leaf(h, row.digest) && row.chainHash == next
    ensures row.index == i ==> next == h(Preimage(head, i, row.digest, Leaf(h, row.digest)))
  {
    errors := [];
    var expectedLeaf := Leaf(h, row.digest);
    if row.index != i {
      errors := errors + [LeafIndexGap];
    }
    if row.leafHash != expectedLeaf {
      errors := errors + [LeafHashMismatch];
    }
    next := AppendChainHash(h, head, row.index, row.digest, expectedLeaf).value;
    if row.chainHash != next {
      errors := errors + [AppendChainMismatch];
    }
  }

  method AuditLeaves(h: HashFn, rows: seq<LeafRow>) returns (errors: seq<IntegrityError>, head: Option<Digest>)
    requires |rows| <= INDEX_LIMIT && forall i :: 0 <= i < |rows| ==> rows[i].index < INDEX_LIMIT
    ensures errors == [] <==> forall i :: 0 <= i < |rows| ==> LeafIntact(h, rows, i)
    ensures errors == [] ==> head == ChainHead(h, Digests(rows))
  {
    hide Preimage, Leaf, ChainHead, Digests;
    errors, head := [], None;
    for i := 0 to |rows|
      invariant errors == [] <==> forall k :: 0 <= k < i ==> LeafIntact(h, rows, k)
      invariant errors == [] ==> head == ChainHead(h, Digests(rows)[..i])
    {
      var more, next := AuditLeaf(h, head, i, rows[i]);
      ChainStep(h, rows, i);
      assert errors == [] ==> (more == [] <==> LeafIntact(h, rows, i));
      errors, head := errors + more, Some(next);
    }
    assert Digests(rows)[..|rows|] == Digests(rows);
  }

  method AuditCheckpoint(h: HashFn, ad: ArtifactDigestFn, rows: seq<LeafRow>, c: CheckpointRow, priorSize: int,
          priorDigest: Option<Digest>)
    returns (errors: seq<IntegrityError>)
    ensures errors == [] <==>
            && priorSize < c.treeSize <= |rows|
            && c.root == Root(h, Hashes(rows)[..c.treeSize])
            && c.prior == priorDigest
            && c.artifact.Some?
            && c.digest == Some(ad(c.artifact.value))
  {
    errors := if c.treeSize <= priorSize then [CheckpointNonMonotonic] else [];
    if c.treeSize > |rows| {
      errors := errors + [CheckpointAheadOfLog];
      return;
    }
    if c.root != Root(h, Hashes(rows)[..c.treeSize]) {
      errors := errors + [CheckpointRootMismatch];
    }
    if c.prior != priorDigest {
      errors := errors + [CheckpointChainMismatch];
    }
    if c.artifact.None? {
      errors := errors + [CheckpointArtifactMissing];
    } else if c.digest != Some(ad(c.artifact.value)) {
      errors := errors + [CheckpointDigestMismatch];
    }
  }

  method AuditCheckpoints(h: HashFn, ad: ArtifactDigestFn, rows: seq<LeafRow>, cs: seq<CheckpointRow>)
    returns (errors: seq<IntegrityError>)
    requires Increasing(cs)
    ensures errors == [] <==> forall j :: 0 <= j < |cs| ==> CheckpointIntact(h, ad, rows, cs, j)
  {
    hide Root;
    errors := [];
    var priorDigest: Option<Digest>, priorSize: int := None, -1;
    for j := 0 to |cs|
      invariant errors == [] <==> forall k :: 0 <= k < j ==> CheckpointIntact(h, ad, rows, cs, k)
      invariant errors == [] ==> priorDigest == if j == 0 then None else cs[j - 1].digest
      invariant priorSize == -1 || exists k :: 0 <= k < j && priorSize == cs[k].treeSize
    {
      var more := AuditCheckpoint(h, ad, rows, cs[j], priorSize, priorDigest);
      assert errors == [] ==> (more == [] <==> CheckpointIntact(h, ad, rows, cs, j));
      errors := errors + more;
      if cs[j].treeSize <= |rows| {
        priorDigest, priorSize := cs[j].digest, cs[j].treeSize;
      }
    }
  }

  /** `audit_integrity`: passes exactly when every stored row is what the others recompute to. */
  method AuditIntegrity(h: HashFn, ad: ArtifactDigestFn, t: Tables) returns (errors: seq<IntegrityError>)
    requires Stored(t)
    ensures errors == [] <==> Intact(h, ad, t)
  {
    hide LeafIntact, CheckpointIntact, ChainHead, CompletedRows;
    var cs := CompletedRows(t.checkpoints);
    CompletedIncrease(t.checkpoints);
    var head;
    errors, head := AuditLeaves(h, t.leaves);
    match t.state {
      case None =>
        if t.leaves != [] || cs != [] {
          errors := errors + [LogStateMissing];
        }
      case Some(s) =>
        if s.nextLeafIndex != |t.leaves| {
          errors := errors + [TreeSizeStateMismatch];
        }
        if s.chainHead != head {
          errors := errors + [AppendChainHeadMismatch];
        }
    }
    var more := AuditCheckpoints(h, ad, t.leaves, cs);
    errors := errors + more;
    if t.state.Some? {
      var s, last := t.state.value, if cs == [] then None else Some(cs[|cs| - 1]);
      if s.latestSize != (if last.None? then None else Some(last.value.treeSize)) {
        errors := errors + [LatestCheckpointSizeMismatch];
      }
      if s.latestDigest != (if last.None? then None else last.value.digest) {
        errors := errors + [LatestCheckpointDigestMismatch];
      }
    }
  }

  // ----- Appending and publishing keep the tables intact -----

  lemma PrefixOfRows(rows: seq<LeafRow>, more: seq<LeafRow>, n: nat)
    requires n <= |rows| <= |more| && more[..|rows|] == rows
    ensures Digests(more)[..n] == Digests(rows)[..n]
    ensures Hashes(more)[..n] == Hashes(rows)[..n]
  {
    assert forall i :: 0 <= i < n ==> more[i] == more[..|rows|][i];
  }

  /** Growing the leaf table disturbs no row and no checkpoint already stored. */
  lemma GrowthKeeps(h: HashFn, ad: ArtifactDigestFn, rows: seq<LeafRow>, more: seq<LeafRow>, cs: seq<CheckpointRow>)
    requires |rows| <= |more| <= INDEX_LIMIT && more[..|rows|] == rows
    requires forall i :: 0 <= i < |rows| ==> LeafIntact(h, rows, i)
    requires forall j :: 0 <= j < |cs| ==> CheckpointIntact(h, ad, rows, cs, j)
    ensures forall i :: 0 <= i < |rows| ==> LeafIntact(h, more, i)
    ensures forall j :: 0 <= j < |cs| ==> CheckpointIntact(h, ad, more, cs, j)
  {
    hide Root, Leaf, ChainHead;
    forall i | 0 <= i < |rows| ensures LeafIntact(h, more, i) {
      PrefixOfRows(rows, more, i + 1);
      assert LeafIntact(h, rows, i) && more[i] == more[..|rows|][i];
    }
    forall j | 0 <= j < |cs| ensures CheckpointIntact(h, ad, more, cs, j) {
      assert CheckpointIntact(h, ad, rows, cs, j);
      PrefixOfRows(rows, more, cs[j].treeSize);
    }
  }

  /** In an intact table the stored leaf hashes are the leaf hashes of the stored digests. */
  lemma HashesOfDigests(h: HashFn, rows: seq<LeafRow>)
    requires |rows| <= INDEX_LIMIT && forall i :: 0 <= i < |rows| ==> LeafIntact(h, rows, i)
    ensures Hashes(rows) == Leaves(h, Digests(rows))
  {
    forall i | 0 <= i < |rows| ensures Hashes(rows)[i] == Leaves(h, Digests(rows))[i] {
      assert LeafIntact(h, rows, i);
    }
  }

  ghost predicate Distinct(ds: seq<Digest>) {
    forall i, j :: 0 <= i < j < |ds| ==> ds[i] != ds[j]
  }

  /** The tables a run of the service can reach. */
  ghost predicate Reachable(h: HashFn, ad: ArtifactDigestFn, t: Tables) {
    && Stored(t)
    && Intact(h, ad, t)
    && Distinct(Digests(t.leaves))
    && (forall c :: c in t.checkpoints ==> 0 < c.treeSize <= |t.leaves|)
    && (forall c :: c in t.checkpoints && c.status == Completed && c.artifact.Some?
          ==> c.artifact.value.treeSize == c.treeSize && c.artifact.value.root == c.root)
  }

  function AppendSpec(h: HashFn, t: Tables, digest: Digest): (t': Tables)
    requires |t.leaves| < INDEX_LIMIT
  {
    var s := if t.state.None? then LogState(0, None, None, None) else t.state.value;
    var chain := h(Preimage(s.chainHead, |t.leaves|, digest, Leaf(h, digest)));
    t.(leaves := t.leaves + [LeafRow(|t.leaves|, digest, Leaf(h, digest), chain)],
       state := Some(s.(nextLeafIndex := |t.leaves| + 1, chainHead := Some(chain))))
  }

  lemma AppendKeepsReachable(h: HashFn, ad: ArtifactDigestFn, t: Tables, digest: Digest)
    requires Reachable(h, ad, t) && |t.leaves| < INDEX_LIMIT && digest !in Digests(t.leaves)
    ensures Reachable(h, ad, AppendSpec(h, t, digest))
    ensures Digests(AppendSpec(h, t, digest).leaves) == Digests(t.leaves) + [digest]
  {
    hide Root, Leaf, ChainHead, CompletedRows, Preimage;
    var t' := AppendSpec(h, t, digest);
    var n, cs := |t.leaves|, CompletedRows(t.checkpoints);
    assert t'.leaves[..n] == t.leaves;
    GrowthKeeps(h, ad, t.leaves, t'.leaves, cs);
    PrefixOfRows(t.leaves, t'.leaves, n);
    assert Digests(t'.leaves)[..n] == Digests(t.leaves) && Digests(t'.leaves)[..n + 1] == Digests(t'.leaves);
    ChainStep(h, t'.leaves, n);
    EmptyChain(h);
    assert LeafIntact(h, t'.leaves, n);
    assert forall i :: 0 <= i < n ==> t'.leaves[i] == t.leaves[i];
  }

  lemma EmptyChain(h: HashFn)
    ensures ChainHead(h, []) == None
  {
  }

  /** How many rows are for smaller sizes. */
  function Place(rows: seq<CheckpointRow>, n: nat): (k: nat)
    ensures k <= |rows|
    ensures forall i :: 0 <= i < k ==> rows[i].treeSize < n
    ensures k < |rows| ==> rows[k].treeSize >= n
  {
    if rows == [] || rows[0].treeSize >= n then 0 else 1 + Place(rows[1..], n)
  }

  /** The table of checkpoints has one row per size. */
  predicate HasRow(rows: seq<CheckpointRow>, n: nat) {
    Place(rows, n) < |rows| && rows[Place(rows, n)].treeSize == n
  }

  function WithRow(rows: seq<CheckpointRow>, row: CheckpointRow): (r: seq<CheckpointRow>) {
    var k := Place(rows, row.treeSize);
    rows[..k] + [row] + (if HasRow(rows, row.treeSize) then rows[k + 1..] else rows[k..])
  }

  lemma CompletedSnoc(rows: seq<CheckpointRow>, c: CheckpointRow)
    ensures CompletedRows(rows + [c]) == CompletedRows(rows) + (if c.status == Completed then [c] else [])
  {
    assert (rows + [c])[..|rows|] == rows;
  }

  lemma {:induction false} CompletedConcat(a: seq<CheckpointRow>, b: seq<CheckpointRow>)
    ensures CompletedRows(a + b) == CompletedRows(a) + CompletedRows(b)
  {
    hide CompletedRows;
    if b == [] {
      CompletedEmpty();
      assert a + b == a;
    } else {
      var t := |b| - 1;
      CompletedConcat(a, b[..t]);
      assert a + b == (a + b[..t]) + [b[t]];
      CompletedSnoc(a + b[..t], b[t]);
      assert b == b[..t] + [b[t]];
      CompletedSnoc(b[..t], b[t]);
    }
  }

  lemma CompletedEmpty()
    ensures CompletedRows([]) == []
  {
  }

  lemma NoneCompleted(rows: seq<CheckpointRow>)
    requires forall c :: c in rows ==> c.status != Completed
    ensures CompletedRows(rows) == []
  {
    if CompletedRows(rows) != [] {
      assert CompletedRows(rows)[0] in CompletedRows(rows);
    }
  }

  lemma SpliceIncreases(rows: seq<CheckpointRow>, k: nat, j: nat, row: CheckpointRow)
    requires k <= j <= |rows| && Increasing(rows)
    requires forall i :: 0 <= i < k ==> rows[i].treeSize < row.treeSize
    requires forall i :: j <= i < |rows| ==> rows[i].treeSize > row.treeSize
    ensures Increasing(rows[..k] + [row] + rows[j..])
  {
    var r := rows[..k] + [row] + rows[j..];
    assert forall i :: 0 <= i < k ==> r[i] == rows[i];
    assert forall i :: k < i < |r| ==> r[i] == rows[i - k - 1 + j];
  }

  lemma SpliceCompleted(rows: seq<CheckpointRow>, k: nat, j: nat, row: CheckpointRow)
    requires k <= j <= |rows| && forall i :: k <= i < |rows| ==> rows[i].status != Completed
    ensures CompletedRows(rows[..k] + [row] + rows[j..]) == CompletedRows(rows) + (if row.status == Completed then [row] else [])
  {
    hide CompletedRows;
    var below, above := rows[..k], rows[j..];
    CompletedConcat(below + [row], above);
    CompletedSnoc(below, row);
    assert rows == below + rows[k..];
    CompletedConcat(below, rows[k..]);
    NoneCompleted(above);
    NoneCompleted(rows[k..]);
  }

  /** Writing the row of a size above every completed one keeps the order and the completed rows. */
  lemma WithRowKeeps(rows: seq<CheckpointRow>, row: CheckpointRow)
    requires Increasing(rows) && forall c :: c in rows && c.status == Completed ==> c.treeSize < row.treeSize
    ensures var r := WithRow(rows, row);
            && Increasing(r)
            && (forall c :: c in r ==> c in rows || c == row)
            && (forall c :: c in rows && c.status == Completed ==> c in r)
            && CompletedRows(r) == CompletedRows(rows) + (if row.status == Completed then [row] else [])
  {
    hide CompletedRows;
    var k := Place(rows, row.treeSize);
    var j := if HasRow(rows, row.treeSize) then k + 1 else k;
    hide Place;
    assert forall i :: k <= i < |rows| ==> rows[k].treeSize <= rows[i].treeSize && rows[i] in rows;
    SpliceIncreases(rows, k, j, row);
    SpliceCompleted(rows, k, j, row);
    assert WithRow(rows, row) == rows[..k] + [row] + rows[j..];
    assert forall c :: c in rows && c.status == Completed ==> c in rows[..k];
  }

  /** The row of the current size, in progress: an unfinished row is taken over, otherwise one is created. */
  function Attempted(t: Tables, root: Digest): (c: CheckpointRow)
    requires t.state.Some?
    ensures c.treeSize == |t.leaves| && c.root == root && c.status == Failed && c.prior == t.state.value.latestDigest
  {
    var blank := if HasRow(t.checkpoints, |t.leaves|) then t.checkpoints[Place(t.checkpoints, |t.leaves|)]
                 else CheckpointRow(|t.leaves|, root, Failed, None, None, None);
    blank.(root := root, status := Failed, prior := t.state.value.latestDigest)
  }

  function PublishSpec(ad: ArtifactDigestFn, t: Tables, root: Digest, signed: Option<Artifact>): (t': Tables)
    requires t.state.Some?
  {
    match signed
    case None => t.(checkpoints := WithRow(t.checkpoints, Attempted(t, root)))
    case Some(a) =>
      var row := Attempted(t, root).(status := Completed, artifact := signed, digest := Some(ad(a)));
      t.(checkpoints := WithRow(t.checkpoints, row),
         state := Some(t.state.value.(latestSize := Some(|t.leaves|), latestDigest := Some(ad(a)))))
  }

  ghost predicate HasCompleted(t: Tables, size: nat) {
    exists c :: c in t.checkpoints && c.status == Completed && c.treeSize == size
  }

  lemma CompletedWithin(h: HashFn, ad: ArtifactDigestFn, t: Tables, c: CheckpointRow)
    requires |t.leaves| <= INDEX_LIMIT && Intact(h, ad, t) && c in t.checkpoints && c.status == Completed
    ensures c.treeSize <= |t.leaves| && c.root == Root(h, Hashes(t.leaves)[..c.treeSize]) && c.artifact.Some? && c.digest.Some?
  {
    hide Root, LeafIntact, CompletedRows;
    var cs := CompletedRows(t.checkpoints);
    assert c in cs;
    var j :| 0 <= j < |cs| && cs[j] == c;
    assert CheckpointIntact(h, ad, t.leaves, cs, j);
  }

  /** The row a publication writes. */
  function NewRow(ad: ArtifactDigestFn, t: Tables, root: Digest, signed: Option<Artifact>): (c: CheckpointRow)
    requires t.state.Some?
    ensures PublishSpec(ad, t, root, signed).checkpoints == WithRow(t.checkpoints, c)
    ensures c.treeSize == |t.leaves| && (c.status == Completed <==> signed.Some?)
    ensures signed.Some? ==> c.artifact == signed && c.root == root && c.digest == Some(ad(signed.value)) && c.prior == t.state.value.latestDigest
  {
    if signed.None? then Attempted(t, root)
    else Attempted(t, root).(status := Completed, artifact := signed, digest := Some(ad(signed.value)))
  }

  /** Publishing over intact tables, whatever wrote them, leaves intact tables and drops no completed row. */
  lemma PublishKeepsIntact(h: HashFn, ad: ArtifactDigestFn, t: Tables, root: Digest, signed: Option<Artifact>)
    requires Stored(t) && Intact(h, ad, t) && t.state.Some? && t.leaves != []
    requires root == Root(h, Hashes(t.leaves)) && !HasCompleted(t, |t.leaves|)
    ensures Stored(PublishSpec(ad, t, root, signed)) && Intact(h, ad, PublishSpec(ad, t, root, signed))
    ensures forall c :: c in t.checkpoints && c.status == Completed ==> c in PublishSpec(ad, t, root, signed).checkpoints
    ensures forall c :: c in PublishSpec(ad, t, root, signed).checkpoints ==> c in t.checkpoints || c == NewRow(ad, t, root, signed)
  {
    hide Root, Leaf, ChainHead, CompletedRows, LeafIntact, Increasing, WithRow, Attempted, NewRow, CheckpointIntact;
    var t', row := PublishSpec(ad, t, root, signed), NewRow(ad, t, root, signed);
    forall c | c in t.checkpoints && c.status == Completed ensures c.treeSize < |t.leaves| {
      CompletedWithin(h, ad, t, c);
    }
    WithRowKeeps(t.checkpoints, row);
    var cs, cs' := CompletedRows(t.checkpoints), CompletedRows(t'.checkpoints);
    assert signed.None? ==> cs' == cs;
    if signed.Some? {
      AddedIntact(h, ad, t.leaves, cs, row, if cs == [] then None else cs[|cs| - 1].digest);
    }
  }

  lemma AddedIntact(h: HashFn, ad: ArtifactDigestFn, leaves: seq<LeafRow>, cs: seq<CheckpointRow>, row: CheckpointRow,
          latest: Option<Digest>)
    requires forall j :: 0 <= j < |cs| ==> CheckpointIntact(h, ad, leaves, cs, j)
    requires row.treeSize == |leaves| && row.root == Root(h, Hashes(leaves)) && row.artifact.Some?
    requires row.digest == Some(ad(row.artifact.value)) && row.prior == latest
    requires latest == (if cs == [] then None else cs[|cs| - 1].digest)
    ensures forall j :: 0 <= j < |cs + [row]| ==> CheckpointIntact(h, ad, leaves, cs + [row], j)
  {
    hide Root;
    assert Hashes(leaves)[..|leaves|] == Hashes(leaves);
    forall j | 0 <= j < |cs + [row]| ensures CheckpointIntact(h, ad, leaves, cs + [row], j) {
      assert j < |cs| ==> CheckpointIntact(h, ad, leaves, cs, j);
    }
  }

  lemma PublishKeepsReachable(h: HashFn, ad: ArtifactDigestFn, t: Tables, root: Digest, signed: Option<Artifact>)
    requires Reachable(h, ad, t) && t.state.Some? && t.leaves != []
    requires root == Root(h, Hashes(t.leaves)) && !HasCompleted(t, |t.leaves|)
    requires signed.Some? ==> signed.value.treeSize == |t.leaves| && signed.value.root == root
    ensures Reachable(h, ad, PublishSpec(ad, t, root, signed))
    ensures forall c :: c in t.checkpoints && c.status == Completed ==> c in PublishSpec(ad, t, root, signed).checkpoints
  {
    hide Root, Intact, Stored, WithRow, Attempted;
    PublishKeepsIntact(h, ad, t, root, signed);
  }

  // ----- The service as a whole -----

  datatype Signature = Signature(keyId: string, value: string)

  datatype Operation =
    | AppendDigest(digest: Digest)
    | PublishCheckpoint(issuedAt: int, signed: Option<Signature>)

  function CurrentArtifact(h: HashFn, t: Tables, issuedAt: int, signed: Option<Signature>): (a: Option<Artifact>) {
    if signed.None? then None
    else Some(Artifact(|t.leaves|, Root(h, Hashes(t.leaves)), issuedAt, signed.value.keyId, signed.value.value))
  }

  /** What one call leaves behind: repeated digests, repeated sizes and an empty log change nothing. */
  ghost function Step(h: HashFn, ad: ArtifactDigestFn, t: Tables, op: Operation): (t': Tables) {
    match op
    case AppendDigest(d) =>
      if d in Digests(t.leaves) || |t.leaves| >= INDEX_LIMIT then t else AppendSpec(h, t, d)
    case PublishCheckpoint(issuedAt, signed) =>
      if t.state.None? || t.leaves == [] || HasCompleted(t, |t.leaves|) then t
      else PublishSpec(ad, t, Root(h, Hashes(t.leaves)), CurrentArtifact(h, t, issuedAt, signed))
  }

  ghost function Run(h: HashFn, ad: ArtifactDigestFn, t: Tables, ops: seq<Operation>): (t': Tables)
    decreases |ops|
  {
    if ops == [] then t else Run(h, ad, Step(h, ad, t, ops[0]), ops[1..])
  }

  /** The log only grows and no completed checkpoint is ever changed or dropped. */
  ghost predicate Extends(t: Tables, t': Tables) {
    && Digests(t.leaves) <= Digests(t'.leaves)
    && (forall c :: c in t.checkpoints && c.status == Completed ==> c in t'.checkpoints)
  }

  lemma {:induction false} StepExtends(h: HashFn, ad: ArtifactDigestFn, t: Tables, op: Operation)
    requires Reachable(h, ad, t)
    ensures Reachable(h, ad, Step(h, ad, t, op)) && Extends(t, Step(h, ad, t, op))
  {
    hide Reachable, Root, ChainHead;
    match op
    case AppendDigest(d) =>
      if d !in Digests(t.leaves) && |t.leaves| < INDEX_LIMIT {
        AppendKeepsReachable(h, ad, t, d);
      }
    case PublishCheckpoint(issuedAt, signed) =>
      if t.state.Some? && t.leaves != [] && !HasCompleted(t, |t.leaves|) {
        PublishKeepsReachable(h, ad, t, Root(h, Hashes(t.leaves)), CurrentArtifact(h, t, issuedAt, signed));
      }
  }

  lemma {:induction false} RunExtends(h: HashFn, ad: ArtifactDigestFn, t: Tables, ops: seq<Operation>)
    requires Reachable(h, ad, t)
    ensures Reachable(h, ad, Run(h, ad, t, ops)) && Extends(t, Run(h, ad, t, ops))
    decreases |ops|
  {
    hide Reachable, Step;
    if ops != [] {
      StepExtends(h, ad, t, ops[0]);
      RunExtends(h, ad, Step(h, ad, t, ops[0]), ops[1..]);
    }
  }

  const EMPTY: Tables := Tables([], [], None)

  /** Every run of the service from an empty database passes its own integrity audit. */
  lemma EveryRunPassesAudit(h: HashFn, ad: ArtifactDigestFn, ops: seq<Operation>)
    ensures Stored(Run(h, ad, EMPTY, ops)) && Intact(h, ad, Run(h, ad, EMPTY, ops))
  {
    RunExtends(h, ad, EMPTY, ops);
  }

  /**
    Over any run, a checkpoint completed early and a checkpoint completed late are linked by the
    consistency path served from the later tables, and the verifier accepts it.
  */
  lemma {:induction false} CheckpointsStayConsistent(h: HashFn, ad: ArtifactDigestFn, t: Tables,
          ops: seq<Operation>, c: CheckpointRow, d: CheckpointRow)
    requires Reachable(h, ad, t) && c in t.checkpoints && c.status == Completed
    requires d in Run(h, ad, t, ops).checkpoints && d.status == Completed && c.treeSize <= d.treeSize
    ensures d.treeSize <= |Run(h, ad, t, ops).leaves|
    ensures var p := ConsistencyPath(h, Hashes(Run(h, ad, t, ops).leaves)[..d.treeSize], c.treeSize, d.treeSize);
            p.Ok? && ConsistencyAccepted(h, c.treeSize, d.treeSize, p.value, c.root, d.root)
  {
    hide Run, Root, ConsistencyPath, ConsistencyAccepted, ChainHead;
    RunExtends(h, ad, t, ops);
    ServedConsistency(h, ad, Run(h, ad, t, ops), c, d);
  }

  lemma CompletedRoot(h: HashFn, ad: ArtifactDigestFn, t: Tables, c: CheckpointRow)
    requires Reachable(h, ad, t) && c in t.checkpoints && c.status == Completed
    ensures 0 < c.treeSize <= |t.leaves| && c.root == Root(h, Hashes(t.leaves)[..c.treeSize])
  {
    hide Root, LeafIntact, CompletedRows;
    var cs := CompletedRows(t.checkpoints);
    assert c in cs;
    var j :| 0 <= j < |cs| && cs[j] == c;
    assert CheckpointIntact(h, ad, t.leaves, cs, j);
  }

  lemma ServedConsistency(h: HashFn, ad: ArtifactDigestFn, t: Tables, c: CheckpointRow, d: CheckpointRow)
    requires Reachable(h, ad, t) && c in t.checkpoints && d in t.checkpoints
    requires c.status == d.status == Completed && c.treeSize <= d.treeSize
    ensures d.treeSize <= |t.leaves|
    ensures var p := ConsistencyPath(h, Hashes(t.leaves)[..d.treeSize], c.treeSize, d.treeSize);
            p.Ok? && ConsistencyAccepted(h, c.treeSize, d.treeSize, p.value, c.root, d.root)
  {
    hide Root, Reachable, ConsistencyAccepted;
    CompletedRoot(h, ad, t, c);
    CompletedRoot(h, ad, t, d);
    var ls := Hashes(t.leaves)[..d.treeSize];
    ConsistencyComplete(h, ls, c.treeSize, d.treeSize);
    assert ls[..d.treeSize] == ls && ls[..c.treeSize] == Hashes(t.leaves)[..c.treeSize];
  }

  lemma {:induction false} ServedInclusion(h: HashFn, ad: ArtifactDigestFn, t: Tables, c: CheckpointRow, i: nat)
    requires Reachable(h, ad, t) && c in t.checkpoints && c.status == Completed && i < c.treeSize
    ensures c.treeSize <= |t.leaves|
    ensures var p := InclusionPath(h, Hashes(t.leaves)[..c.treeSize], i);
            p.Ok? && InclusionAccepted(h, Leaf(h, t.leaves[i].digest), i, c.treeSize, p.value, c.root)
  {
    hide Root, InclusionAccepted, ChainHead;
    CompletedRoot(h, ad, t, c);
    InclusionComplete(h, Hashes(t.leaves)[..c.treeSize], i);
    assert LeafIntact(h, t.leaves, i);
  }

  /**
    Two tables that both pass the audit and share a chain head hold the same digests, or a
    collision is computed: rows cannot be rewritten under the same head.
  */
  method CompareAudited(h: HashFn, ad: ArtifactDigestFn, t: Tables, t': Tables) returns (c: Option<Collision>)
    requires Stored(t) && Stored(t') && Intact(h, ad, t) && Intact(h, ad, t')
    requires t.state.Some? && t'.state.Some? && t.state.value.chainHead == t'.state.value.chainHead
    ensures c.None? ==> Digests(t.leaves) == Digests(t'.leaves)
    ensures c.Some? ==> IsCollision(h, c.value)
  {
    hide ChainHead, Root, LeafIntact, CheckpointIntact;
    c := CompareChains(h, Digests(t.leaves), Digests(t'.leaves));
  }

  /**
    The documented limit of the internal audit: rolling the whole database back to an earlier
    state of the same run passes it.
  */
  lemma RollbackPassesAudit(h: HashFn, ad: ArtifactDigestFn, ops: seq<Operation>, kept: nat)
    requires kept <= |ops|
    ensures Stored(Run(h, ad, EMPTY, ops[..kept])) && Intact(h, ad, Run(h, ad, EMPTY, ops[..kept]))
    ensures Reachable(h, ad, Run(h, ad, EMPTY, ops[..kept])) && Reachable(h, ad, Run(h, ad, EMPTY, ops))
    ensures Extends(Run(h, ad, EMPTY, ops[..kept]), Run(h, ad, EMPTY, ops))
  {
    hide Reachable, Root, Step, Extends;
    EveryRunPassesAudit(h, ad, ops[..kept]);
    RunSplits(h, ad, EMPTY, ops, kept);
    EmptyReachable(h, ad);
    RunExtends(h, ad, EMPTY, ops);
    RunExtends(h, ad, EMPTY, ops[..kept]);
    RunExtends(h, ad, Run(h, ad, EMPTY, ops[..kept]), ops[kept..]);
  }

  /**
    Who notices it: a relying party that kept a completed checkpoint of the run can be shown no
    accepted path to the rolled-back tree if and only if the checkpoint is larger than that tree.
  */
  lemma {:induction false} RollbackNoticedExactlyWhenNewer(h: HashFn, ad: ArtifactDigestFn, ops: seq<Operation>, kept: nat,
          c: CheckpointRow)
    requires kept <= |ops| && c in Run(h, ad, EMPTY, ops).checkpoints && c.status == Completed
    ensures var t := Run(h, ad, EMPTY, ops[..kept]);
            (exists path :: ConsistencyAccepted(h, c.treeSize, |t.leaves|, path, c.root, Root(h, Hashes(t.leaves))))
            <==> c.treeSize <= |t.leaves|
  {
    hide Reachable, Root, Step, Run, ConsistencyAccepted, ConsistencyPath, ChainHead, Leaf;
    RollbackPassesAudit(h, ad, ops, kept);
    var full, t := Run(h, ad, EMPTY, ops), Run(h, ad, EMPTY, ops[..kept]);
    var m, n := c.treeSize, |t.leaves|;
    CompletedRoot(h, ad, full, c);
    if m <= n {
      SamePrefix(h, ad, t, full);
      assert Hashes(full.leaves)[..m] == Hashes(t.leaves)[..m];
      ConsistencyComplete(h, Hashes(t.leaves), m, n);
      assert Hashes(t.leaves)[..n] == Hashes(t.leaves);
      var path := ConsistencyPath(h, Hashes(t.leaves), m, n).value;
      assert ConsistencyAccepted(h, m, n, path, c.root, Root(h, Hashes(t.leaves)));
    } else {
      forall path ensures !ConsistencyAccepted(h, m, n, path, c.root, Root(h, Hashes(t.leaves))) {
        NoneToSmaller(h, m, n, path, c.root, Root(h, Hashes(t.leaves)));
      }
    }
  }

  lemma SamePrefix(h: HashFn, ad: ArtifactDigestFn, t: Tables, full: Tables)
    requires Reachable(h, ad, t) && Reachable(h, ad, full) && Extends(t, full)
    ensures |t.leaves| <= |full.leaves| && Hashes(t.leaves) == Hashes(full.leaves)[..|t.leaves|]
  {
    hide Root, ChainHead, Leaf, Reachable;
    ReachableHashes(h, ad, t);
    ReachableHashes(h, ad, full);
    LeavesOfSlices(h, Digests(full.leaves), |t.leaves|);
  }

  lemma NoneToSmaller(h: HashFn, m: nat, n: nat, path: seq<Digest>, root1: Digest, root2: Digest)
    requires m > n
    ensures !ConsistencyAccepted(h, m, n, path, root1, root2)
  {
  }

  /**
    What a kept checkpoint of any size does guard: tables that pass the audit and to whose root it
    accepts a path hold, in its range, the very digests it was made of, or a collision is computed.
  */
  method KeptCheckpointBinds(h: HashFn, ad: ArtifactDigestFn, known: seq<Digest>, t: Tables, path: seq<Digest>)
    returns (c: Option<Collision>)
    requires Stored(t) && Intact(h, ad, t)
    requires ConsistencyAccepted(h, |known|, |t.leaves|, path, Root(h, Leaves(h, known)), Root(h, Hashes(t.leaves)))
    ensures c.None? ==> |known| <= |t.leaves| && known == Digests(t.leaves)[..|known|]
    ensures c.Some? ==> IsCollision(h, c.value)
  {
    hide Root, ChainHead, Leaf, ConsistencyAccepted;
    HashesOfDigests(h, t.leaves);
    c := ConsistencySound(h, known, Digests(t.leaves), path);
  }

  lemma EmptyReachable(h: HashFn, ad: ArtifactDigestFn)
    ensures Reachable(h, ad, EMPTY)
  {
  }

  lemma {:induction false} RunSplits(h: HashFn, ad: ArtifactDigestFn, t: Tables, ops: seq<Operation>, kept: nat)
    requires kept <= |ops|
    ensures Run(h, ad, t, ops) == Run(h, ad, Run(h, ad, t, ops[..kept]), ops[kept..])
    decreases kept
  {
    hide Step;
    if kept == 0 {
      assert ops[..0] == [] && ops[0..] == ops;
    } else {
      RunSplits(h, ad, Step(h, ad, t, ops[0]), ops[1..], kept - 1);
      assert ops[..kept][1..] == ops[1..][..kept - 1] && ops[kept..] == ops[1..][kept - 1..];
    }
  }

  class Log {
    const h: HashFn
    const ad: ArtifactDigestFn
    var leaves: seq<LeafRow>
    var checkpoints: seq<CheckpointRow>
    var state: Option<LogState>
    var integrityEvents: nat

    ghost function Current(): (t: Tables)
      reads this
    {
      Tables(leaves, checkpoints, state)
    }

    ghost predicate Valid()
      reads this
    {
      Reachable(h, ad, Current())
    }

    constructor (h: HashFn, ad: ArtifactDigestFn)
      ensures Valid() && this.h == h && this.ad == ad && Current() == EMPTY
    {
      this.h, this.ad := h, ad;
      leaves, checkpoints, state, integrityEvents := [], [], None, 0;
    }

    /** `append_receipt_digest`: a repeated digest is answered with its first index. */
    method Append(digest: Digest) returns (r: Result<(nat, bool), LogError>)
      requires Valid()
      modifies this`leaves, this`state
      ensures Valid() && Current() == Step(h, ad, old(Current()), AppendDigest(digest))
      ensures r.Ok? ==> r.value.0 < |leaves| && leaves[r.value.0].digest == digest
      ensures r.Ok? ==> (r.value.1 <==> digest in old(Digests(leaves)))
      ensures r.Err? <==> digest !in old(Digests(leaves)) && old(|leaves|) == INDEX_LIMIT
    {
      hide Reachable, Root, ChainHead, Preimage, Leaf;
      assert |leaves| <= INDEX_LIMIT && StateAgrees(Current()) by { ReachableState(h, ad, Current()); }
      StepExtends(h, ad, Current(), AppendDigest(digest));
      for i := 0 to |leaves|
        invariant forall k :: 0 <= k < i ==> leaves[k].digest != digest
        invariant leaves == old(leaves) && state == old(state)
      {
        if leaves[i].digest == digest {
          assert Digests(leaves)[i] == digest;
          return Ok((i, true));
        }
      }
      assert digest !in Digests(leaves);
      if |leaves| == INDEX_LIMIT {
        return Err(LogFull);
      }
      var s := if state.None? then LogState(0, None, None, None) else state.value;
      var index := s.nextLeafIndex;
      var leaf := Leaf(h, digest);
      var chain := AppendChainHash(h, s.chainHead, index, digest, leaf).value;
      leaves := leaves + [LeafRow(index, digest, leaf, chain)];
      state := Some(s.(nextLeafIndex := index + 1, chainHead := Some(chain)));
      r := Ok((index, false));
    }

    /**
      `publish_checkpoint`: audits first, signs at most once per size, fails closed.  Rows that
      fail the audit are reported and nothing is signed over them.  The audit compares an artifact
      with its digest only, so a repeated call answers with whatever artifact the row holds; in
      the tables a run can reach, that is the artifact of the present tree.
    */
    method Publish(issuedAt: int, signed: Option<Signature>) returns (r: Result<(Artifact, bool), LogError>)
      requires Stored(Current())
      modifies this`checkpoints, this`state, this`integrityEvents
      ensures !old(Intact(h, ad, Current())) ==>
                && r.Err? && Current() == old(Current())
                && integrityEvents == old(integrityEvents) + (if r == Err(IntegrityFailure) then 1 else 0)
                && (r == Err(IntegrityFailure) || old(state.None? || state.value.nextLeafIndex == 0))
      ensures old(Intact(h, ad, Current())) ==>
                && Stored(Current()) && Intact(h, ad, Current())
                && Current() == Step(h, ad, old(Current()), PublishCheckpoint(issuedAt, signed))
                && integrityEvents == old(integrityEvents)
                && (r == Err(EmptyLog) <==> leaves == [])
                && (r == Err(SigningFailed) <==> leaves != [] && signed.None? && !HasCompleted(old(Current()), |leaves|))
                && r != Err(IntegrityFailure)
                && (r.Ok? ==> (r.value.1 <==> HasCompleted(old(Current()), |leaves|)))
                && (r.Ok? && !r.value.1 ==> CurrentArtifact(h, old(Current()), issuedAt, signed) == Some(r.value.0))
                && (r.Ok? && r.value.1 ==> AnswersWith(old(Current()), r.value.0))
      ensures old(Valid()) ==>
                && Valid()
                && (r.Ok? ==> r.value.0.treeSize == |leaves| && r.value.0.root == Root(h, Leaves(h, Digests(leaves))))
    {
      hide Root, ChainHead, Intact, Leaves, Leaf, HasCompleted, WithRow, Attempted, Stored, Reachable;
      ghost var before := Current();
      StoredBounds(before);
      if Reachable(h, ad, before) {
        StepExtends(h, ad, before, PublishCheckpoint(issuedAt, signed));
        ReachableHashes(h, ad, before);
      }
      if Intact(h, ad, before) {
        IntactState(h, ad, before);
      }
      if state.None? || state.value.nextLeafIndex == 0 {
        return Err(EmptyLog);
      }
      var errors := AuditIntegrity(h, ad, StoredTables());
      if errors != [] {
        integrityEvents := integrityEvents + 1;
        return Err(IntegrityFailure);
      }
      var size, root := |leaves|, Root(h, Hashes(leaves));
      var existing := ExistingCheckpoint(root);
      if existing.Some? {
        if Reachable(h, ad, before) {
          ReachableAnswer(h, ad, before, existing.value);
        }
        return Ok((existing.value, true));
      }
      PublishKeepsIntact(h, ad, before, root, CurrentArtifact(h, before, issuedAt, signed));
      var row := Attempted(StoredTables(), root);
      if signed.None? {
        checkpoints := WithRow(checkpoints, row);
        return Err(SigningFailed);
      }
      var artifact := Artifact(size, root, issuedAt, signed.value.keyId, signed.value.value);
      checkpoints := WithRow(checkpoints, row.(status := Completed, artifact := Some(artifact), digest := Some(ad(artifact))));
      state := Some(state.value.(latestSize := Some(size), latestDigest := Some(ad(artifact))));
      r := Ok((artifact, false));
    }

    /** The completed checkpoint already published for the current size, if there is one. */
    method ExistingCheckpoint(root: Digest) returns (existing: Option<Artifact>)
      requires Stored(Current()) && Intact(h, ad, Current()) && root == Root(h, Hashes(leaves))
      ensures existing.Some? <==> HasCompleted(Current(), |leaves|)
      ensures existing.Some? ==> AnswersWith(Current(), existing.value)
    {
      hide Root, ChainHead, Intact, Stored;
      StoredBounds(Current());
      assert Hashes(leaves)[..|leaves|] == Hashes(leaves);
      for i := 0 to |checkpoints|
        invariant forall k :: 0 <= k < i ==> checkpoints[k].treeSize != |leaves| || checkpoints[k].status != Completed
      {
        var c := checkpoints[i];
        if c.treeSize == |leaves| && c.status == Completed {
          CompletedWithin(h, ad, Current(), c);
          if c.root == root && c.artifact.Some? && c.digest.Some? {
            return c.artifact;
          }
        }
      }
      existing := None;
    }

    function StoredTables(): (t: Tables)
      reads this
      ensures t == Current()
    {
      Tables(leaves, checkpoints, state)
    }

    /** The completed row of one size, or the largest one. */
    method FindCheckpoint(size: Option<nat>) returns (r: Option<CheckpointRow>)
      requires Valid()
      ensures r.Some? ==> r.value in checkpoints && r.value.status == Completed
      ensures r.Some? && size.Some? ==> r.value.treeSize == size.value
      ensures r.Some? && size.None? ==> forall c :: c in checkpoints && c.status == Completed ==> c.treeSize <= r.value.treeSize
      ensures r.None? ==> forall c :: c in checkpoints && c.status == Completed ==> size.Some? && c.treeSize != size.value
    {
      r := None;
      for i := 0 to |checkpoints|
        invariant r.Some? ==> r.value in checkpoints[..i] && r.value.status == Completed
        invariant r.Some? && size.Some? ==> r.value.treeSize == size.value
        invariant r.Some? && size.None? ==>
            forall k :: 0 <= k < i && checkpoints[k].status == Completed ==> checkpoints[k].treeSize <= r.value.treeSize
        invariant r.None? ==>
            forall k :: 0 <= k < i && checkpoints[k].status == Completed ==> size.Some? && checkpoints[k].treeSize != size.value
      {
        var c := checkpoints[i];
        if c.status == Completed && (size.None? || c.treeSize == size.value) {
          r := Some(c);
        }
      }
    }

    method FindDigest(digest: Digest, n: nat) returns (i: Option<nat>)
      requires n <= |leaves|
      ensures i.Some? ==> i.value < n && leaves[i.value].digest == digest
      ensures i.None? ==> digest !in Digests(leaves)[..n]
    {
      for k := 0 to n
        invariant forall j :: 0 <= j < k ==> leaves[j].digest != digest
      {
        if leaves[k].digest == digest {
          return Some(k);
        }
      }
      i := None;
    }

    /** `inclusion_proof`: what is served verifies against the checkpoint it is served with. */
    method InclusionProof(digest: Digest, size: Option<nat>)
      returns (r: Result<(nat, seq<Digest>, CheckpointRow), LogError>)
      requires Valid()
      ensures r.Ok? ==>
          var (i, path, c) := r.value;
          && c in checkpoints && c.status == Completed
          && (size.Some? ==> c.treeSize == size.value)
          && InclusionAccepted(h, Leaf(h, digest), i, c.treeSize, path, c.root)
      ensures r == Err(NotIncluded) && size.Some? ==> size.value <= |leaves| && digest !in Digests(leaves)[..size.value]
      ensures r.Err? && r.error != NotIncluded ==> forall c :: c in checkpoints && c.status == Completed ==> size.Some? && c.treeSize != size.value
    {
      hide *;
      var c := FindCheckpoint(size);
      if c.None? {
        return Err(CheckpointNotFound);
      }
      ServedTree(c.value);
      var n := c.value.treeSize;
      var i := FindDigest(digest, n);
      if i.None? {
        return Err(NotIncluded);
      }
      ServedLeaf(c.value, i.value);
      r := Ok((i.value, InclusionPath(h, Hashes(leaves)[..n], i.value).value, c.value));
    }

    lemma ServedTree(c: CheckpointRow)
      requires Valid() && c in checkpoints && c.status == Completed
      ensures c.treeSize <= |leaves|
    {
      CompletedRoot(h, ad, Current(), c);
    }

    lemma ServedLeaf(c: CheckpointRow, i: nat)
      requires Valid() && c in checkpoints && c.status == Completed && i < c.treeSize <= |leaves|
      ensures var p := InclusionPath(h, Hashes(leaves)[..c.treeSize], i);
              p.Ok? && InclusionAccepted(h, Leaf(h, leaves[i].digest), i, c.treeSize, p.value, c.root)
    {
      ServedInclusion(h, ad, Current(), c, i);
    }

    /** `consistency_proof`: what is served links the two checkpoints it is served with. */
    method ConsistencyProof(m: nat, n: nat) returns (r: Result<(seq<Digest>, CheckpointRow, CheckpointRow), LogError>)
      requires Valid()
      ensures r.Ok? ==>
          var (path, c, d) := r.value;
          && c in checkpoints && d in checkpoints && c.treeSize == m && d.treeSize == n
          && ConsistencyAccepted(h, m, n, path, c.root, d.root)
      ensures r.Ok? <==> m <= n && HasCompleted(Current(), m) && HasCompleted(Current(), n)
    {
      hide Root, ChainHead, ConsistencyAccepted, ConsistencyPath;
      var c := FindCheckpoint(Some(m));
      var d := FindCheckpoint(Some(n));
      if c.None? || d.None? {
        return Err(CheckpointNotFound);
      }
      if m > n {
        return Err(NotIncluded);
      }
      ServedConsistency(h, ad, Current(), c.value, d.value);
      r := Ok((ConsistencyPath(h, Hashes(leaves)[..n], m, n).value, c.value, d.value));
    }
  }

  ghost predicate StateAgrees(t: Tables) {
    if t.state.None? then t.leaves == [] else t.state.value.nextLeafIndex == |t.leaves|
  }

  lemma ReachableState(h: HashFn, ad: ArtifactDigestFn, t: Tables)
    requires Reachable(h, ad, t)
    ensures |t.leaves| <= INDEX_LIMIT && StateAgrees(t)
  {
  }

  lemma ReachableHashes(h: HashFn, ad: ArtifactDigestFn, t: Tables)
    requires Reachable(h, ad, t)
    ensures Stored(t) && Intact(h, ad, t)
    ensures Hashes(t.leaves) == Leaves(h, Digests(t.leaves))
  {
    hide Root, ChainHead, Leaf;
    HashesOfDigests(h, t.leaves);
  }

  /** The artifact of a completed row for the present size. */
  ghost predicate AnswersWith(t: Tables, a: Artifact) {
    exists c :: c in t.checkpoints && c.status == Completed && c.treeSize == |t.leaves| && c.artifact == Some(a)
  }

  lemma StoredBounds(t: Tables)
    requires Stored(t)
    ensures |t.leaves| <= INDEX_LIMIT
  {
  }

  lemma IntactState(h: HashFn, ad: ArtifactDigestFn, t: Tables)
    requires |t.leaves| <= INDEX_LIMIT && Intact(h, ad, t)
    ensures StateAgrees(t)
  {
    hide Root, ChainHead;
  }

  lemma ReachableAnswer(h: HashFn, ad: ArtifactDigestFn, t: Tables, a: Artifact)
    requires Reachable(h, ad, t) && AnswersWith(t, a)
    ensures a.treeSize == |t.leaves| && a.root == Root(h, Leaves(h, Digests(t.leaves)))
  {
    hide Root, Intact, Leaves;
    var c :| c in t.checkpoints && c.status == Completed && c.treeSize == |t.leaves| && c.artifact == Some(a);
    CompletedWithin(h, ad, t, c);
    assert Hashes(t.leaves)[..|t.leaves|] == Hashes(t.leaves);
    ReachableHashes(h, ad, t);
  }
}
