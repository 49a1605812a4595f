/** The prover side: tree hash, audit path and consistency path (`transparency_format.py`). */
module MerkleTree {
  import opened Hashing

  datatype FormatError = PartitionTooSmall | LeafIndexOutside | InvalidTreeSizes | MalformedDigest

  function Pow2(t: nat): (p: nat)
    ensures p >= 1
  {
    if t == 0 then 1 else 2 * Pow2(t - 1)
  }

  /** The split point of a tree of n leaves: the largest power of two below n. */
  function Split(n: nat): (k: nat)
    requires n >= 2
    ensures 0 < k < n <= 2 * k
  {
    if n == 2 then 1 else 2 * Split((n + 1) / 2)
  }

  function BitLength(n: nat): (b: nat) {
    if n == 0 then 0 else 1 + BitLength(n / 2)
  }

  /** The source's own formula: one shifted by the bit length of value - 1, less one. */
  function LargestPowerOfTwoLessThan(value: int): (r: Result<nat, FormatError>)
    ensures r.Err? <==> value < 2
    ensures r.Ok? ==> r.value == Split(value)
  {
    if value < 2 then Err(PartitionTooSmall)
    else
      SplitExponent(value);
      Ok(Pow2(BitLength(value - 1) - 1))
  }

  lemma {:induction false} SplitExponent(n: nat)
    requires n >= 2
    ensures BitLength(n - 1) > 0 && Split(n) == Pow2(BitLength(n - 1) - 1)
  {
    if n > 2 {
      SplitExponent((n + 1) / 2);
      assert (n + 1) / 2 - 1 == (n - 1) / 2;
    }
  }

  lemma {:induction false} Pow2Monotone(s: nat, t: nat)
    requires s < t
    ensures 2 * Pow2(s) <= Pow2(t)
    decreases t
  {
    if s + 1 < t {
      Pow2Monotone(s, t - 1);
    }
  }

  /** Two split points in one dyadic interval coincide. */
  lemma {:induction false} SplitUnique(m: nat, n: nat)
    requires 2 <= m <= n && Split(n) < m
    ensures Split(m) == Split(n)
  {
    if m > 2 {
      SplitUnique((m + 1) / 2, (n + 1) / 2);
    }
  }

  function Leaf(h: HashFn, digest: Digest): (d: Digest) {
    h([0x00] + digest.raw)
  }

  function Leaves(h: HashFn, digests: seq<Digest>): (ls: seq<Digest>)
    ensures |ls| == |digests|
    ensures forall i :: 0 <= i < |ls| ==> ls[i] == Leaf(h, digests[i])
  {
    seq(|digests|, i requires 0 <= i < |digests| => Leaf(h, digests[i]))
  }

  function NodePreimage(left: Digest, right: Digest): (p: Bytes)
    ensures |p| == 65 && p[0] == 0x01 && p[1..33] == left.raw && p[33..] == right.raw
  {
    [0x01] + left.raw + right.raw
  }

  function Node(h: HashFn, left: Digest, right: Digest): (d: Digest) {
    h(NodePreimage(left, right))
  }

  function EmptyTreeHash(h: HashFn): (d: Digest) {
    h([])
  }

  function Root(h: HashFn, leaves: seq<Digest>): (d: Digest)
    decreases |leaves|
  {
    if leaves == [] then EmptyTreeHash(h)
    else if |leaves| == 1 then leaves[0]
    else
      var k := Split(|leaves|);
      Node(h, Root(h, leaves[..k]), Root(h, leaves[k..]))
  }

  lemma RootUnfold(h: HashFn, leaves: seq<Digest>)
    requires |leaves| > 1
    ensures var k := Split(|leaves|); Root(h, leaves) == Node(h, Root(h, leaves[..k]), Root(h, leaves[k..]))
  {
  }

  lemma RootShort(h: HashFn, leaves: seq<Digest>)
    ensures leaves == [] ==> Root(h, leaves) == EmptyTreeHash(h)
    ensures |leaves| == 1 ==> Root(h, leaves) == leaves[0]
  {
  }

  /** The audit path of one leaf, sibling of the leaf first. */
  function AuditPath(h: HashFn, leaves: seq<Digest>, index: nat): (path: seq<Digest>)
    requires index < |leaves|
    decreases |leaves|
  {
    if |leaves| == 1 then []
    else
      var k := Split(|leaves|);
      if index < k then AuditPath(h, leaves[..k], index) + [Root(h, leaves[k..])]
      else AuditPath(h, leaves[k..], index - k) + [Root(h, leaves[..k])]
  }

  function InclusionPath(h: HashFn, leaves: seq<Digest>, index: int): (r: Result<seq<Digest>, FormatError>)
    ensures r.Ok? <==> 0 <= index < |leaves|
  {
    if leaves == [] || index < 0 || index >= |leaves| then Err(LeafIndexOutside)
    else Ok(AuditPath(h, leaves, index))
  }

  /** `_consistency_path`: the flag says that the subtree is the whole old tree, known to the verifier. */
  function SubProof(h: HashFn, m: nat, leaves: seq<Digest>, known: bool): (path: seq<Digest>)
    requires 0 < m <= |leaves|
    decreases |leaves|
  {
    if m == |leaves| then (if known then [] else [Root(h, leaves)])
    else
      var k := Split(|leaves|);
      if m <= k then SubProof(h, m, leaves[..k], known) + [Root(h, leaves[k..])]
      else SubProof(h, m - k, leaves[k..], false) + [Root(h, leaves[..k])]
  }

  function ConsistencyPath(h: HashFn, leaves: seq<Digest>, m: int, n: int): (r: Result<seq<Digest>, FormatError>)
    ensures r.Ok? <==> 0 <= m <= n <= |leaves|
    ensures r.Ok? && (m == 0 || m == n) ==> r.value == []
  {
    if m < 0 || n < m || n > |leaves| then Err(InvalidTreeSizes)
    else if m == 0 || m == n then Ok([])
    else Ok(SubProof(h, m, leaves[..n], true))
  }

  // ----- What a root commits to -----

  /** One step down: two nodes with one hash have the same children, or collide. */
  function CompareNodes(h: HashFn, a: Digest, b: Digest, a': Digest, b': Digest): (c: Option<Collision>)
    requires Node(h, a, b) == Node(h, a', b')
    ensures c.None? <==> a == a' && b == b'
    ensures c.Some? ==> IsCollision(h, c.value)
  {
    assert NodePreimage(a, b) == NodePreimage(a', b') ==> a == a' && b == b' by {
      assert NodePreimage(a, b)[1..33] == a.raw && NodePreimage(a', b')[1..33] == a'.raw;
      assert NodePreimage(a, b)[33..] == b.raw && NodePreimage(a', b')[33..] == b'.raw;
    }
    ComparePreimages(h, NodePreimage(a, b), NodePreimage(a', b'))
  }

  lemma Halves(a: seq<Digest>, b: seq<Digest>, k: nat)
    requires k <= |a| == |b|
    ensures a == b <==> a[..k] == b[..k] && a[k..] == b[k..]
  {
    assert a == a[..k] + a[k..] && b == b[..k] + b[k..];
  }

  /** Two leaf sequences of one length and one root are equal, or a collision is computed. */
  function CompareTrees(h: HashFn, a: seq<Digest>, b: seq<Digest>): (c: Option<Collision>)
    requires |a| == |b| && Root(h, a) == Root(h, b)
    ensures c.None? <==> a == b
    ensures c.Some? ==> IsCollision(h, c.value)
    decreases |a|
  {
    hide *;
    RootShort(h, a);
    RootShort(h, b);
    if |a| <= 1 then None
    else
      RootUnfold(h, a);
      RootUnfold(h, b);
      Halves(a, b, Split(|a|));
      var k := Split(|a|);
      var top := CompareNodes(h, Root(h, a[..k]), Root(h, a[k..]), Root(h, b[..k]), Root(h, b[k..]));
      if top.Some? then top
      else
        var left := CompareTrees(h, a[..k], b[..k]);
        var right := CompareTrees(h, a[k..], b[k..]);
        if left.Some? then left else right
  }

  /** What was hashed last to obtain the root of a sequence of receipt digests. */
  function TopPreimage(h: HashFn, digests: seq<Digest>): (p: Bytes)
    ensures h(p) == Root(h, Leaves(h, digests))
    ensures |p| == (if digests == [] then 0 else if |digests| == 1 then 33 else 65)
  {
    hide Root, Split;
    RootShort(h, Leaves(h, digests));
    if digests == [] then []
    else if |digests| == 1 then [0x00] + digests[0].raw
    else
      var ls := Leaves(h, digests);
      RootUnfold(h, ls);
      NodePreimage(Root(h, ls[..Split(|ls|)]), Root(h, ls[Split(|ls|)..]))
  }

  lemma LeavesOfSlices(h: HashFn, digests: seq<Digest>, k: nat)
    requires k <= |digests|
    ensures Leaves(h, digests)[..k] == Leaves(h, digests[..k])
    ensures Leaves(h, digests)[k..] == Leaves(h, digests[k..])
  {
  }

  lemma TopHalves(h: HashFn, digests: seq<Digest>)
    requires |digests| > 1
    ensures var p, k := TopPreimage(h, digests), Split(|digests|);
            p[1..33] == Root(h, Leaves(h, digests[..k])).raw && p[33..] == Root(h, Leaves(h, digests[k..])).raw
  {
    hide Root, Split;
    LeavesOfSlices(h, digests, Split(|digests|));
  }

  /**
    The root binds the whole sequence of receipt digests, also across different lengths:
    the leaf and node prefixes and the empty preimage keep the three kinds of tree apart.
  */
  method CompareLogs(h: HashFn, a: seq<Digest>, b: seq<Digest>) returns (c: Option<Collision>)
    requires Root(h, Leaves(h, a)) == Root(h, Leaves(h, b))
    ensures c.None? <==> a == b
    ensures c.Some? ==> IsCollision(h, c.value)
    decreases |a|
  {
    hide Root, Split;
    var pa, pb := TopPreimage(h, a), TopPreimage(h, b);
    if pa != pb {
      return Some(Collision(pa, pb));
    }
    if |a| <= 1 {
      if |a| == 1 {
        assert pa[1..] == a[0].raw && pb[1..] == b[0].raw;
      }
      return None;
    }
    var j, k := Split(|a|), Split(|b|);
    TopHalves(h, a);
    TopHalves(h, b);
    assert a == a[..j] + a[j..] && b == b[..k] + b[k..];
    hide *;
    c := CompareLogs(h, a[..j], b[..k]);
    if c.None? {
      c := CompareLogs(h, a[j..], b[k..]);
    }
  }
}
