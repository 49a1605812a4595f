/** The sequential hash chain kept beside the Merkle tree (`append_chain_hash`). */
module AppendChain {
  import opened Hashing
  import opened MerkleTree

  const INDEX_LIMIT: nat := 0x1_0000_0000_0000_0000

  datatype ChainError = IndexOverflow

  function BigEndian(n: nat, width: nat): (b: Bytes)
    ensures |b| == width
  {
    if width == 0 then [] else BigEndian(n / 256, width - 1) + [(n % 256) as byte]
  }

  function Pow256(width: nat): (p: nat)
    ensures p >= 1
  {
    if width == 0 then 1 else 256 * Pow256(width - 1)
  }

  lemma {:induction false} BigEndianInjective(a: nat, b: nat, width: nat)
    requires a < Pow256(width) && b < Pow256(width)
    requires BigEndian(a, width) == BigEndian(b, width)
    ensures a == b
  {
    if width > 0 {
      var x, y := BigEndian(a, width), BigEndian(b, width);
      assert x[..width - 1] == BigEndian(a / 256, width - 1) && y[..width - 1] == BigEndian(b / 256, width - 1);
      assert x[width - 1] == (a % 256) as byte && y[width - 1] == (b % 256) as byte;
      BigEndianInjective(a / 256, b / 256, width - 1);
    }
  }

  lemma IndexLimit()
    ensures Pow256(8) == INDEX_LIMIT
  {
    assert Pow256(4) == 0x1_0000_0000;
    assert Pow256(8) == 256 * (256 * (256 * (256 * Pow256(4))));
  }

  /** The four fixed-width fields that are hashed for one entry. */
  function Preimage(previous: Option<Digest>, index: nat, digest: Digest, leaf: Digest): (p: Bytes)
    ensures |p| == 104
    ensures p[..32] == (if previous.Some? then previous.value.raw else ZERO_BYTES)
    ensures p[32..40] == BigEndian(index, 8) && p[40..72] == digest.raw && p[72..] == leaf.raw
  {
    (if previous.Some? then previous.value.raw else ZERO_BYTES) + BigEndian(index, 8) + digest.raw + leaf.raw
  }

  function AppendChainHash(h: HashFn, previous: Option<Digest>, index: nat, digest: Digest,
          leaf: Digest): (r: Result<Digest, ChainError>)
    ensures r.Err? <==> index >= INDEX_LIMIT
  {
    if index >= INDEX_LIMIT then Err(IndexOverflow) else Ok(h(Preimage(previous, index, digest, leaf)))
  }

  /** The chain head after appending the digests at indices 0, 1, 2, ... */
  function ChainHead(h: HashFn, digests: seq<Digest>): (head: Option<Digest>)
    requires |digests| <= INDEX_LIMIT
    ensures head.None? <==> digests == []
  {
    if digests == [] then None
    else
      var t := |digests| - 1;
      Some(AppendChainHash(h, ChainHead(h, digests[..t]), t, digests[t], Leaf(h, digests[t])).value)
  }

  /** Equal preimages agree field by field; a missing predecessor counts as zeros. */
  lemma PreimageFields(p: Option<Digest>, i: nat, d: Digest, l: Digest, p': Option<Digest>, i': nat, d': Digest,
          l': Digest)
    requires i < INDEX_LIMIT && i' < INDEX_LIMIT
    requires Preimage(p, i, d, l) == Preimage(p', i', d', l')
    ensures i == i' && d == d'
    ensures p.Some? && p'.Some? ==> p == p'
  {
    var pa, pb := Preimage(p, i, d, l), Preimage(p', i', d', l');
    assert pa[32..40] == pb[32..40] && pa[40..72] == pb[40..72] && pa[..32] == pb[..32];
    hide *;
    IndexLimit();
    BigEndianInjective(i, i', 8);
  }

  lemma ChainUnfold(h: HashFn, digests: seq<Digest>)
    requires 0 < |digests| <= INDEX_LIMIT
    ensures var t := |digests| - 1;
            ChainHead(h, digests) == Some(h(Preimage(ChainHead(h, digests[..t]), t, digests[t], Leaf(h, digests[t]))))
  {
  }

  /** Tamper evidence: two logs with one chain head are equal, or a collision is computed. */
  method CompareChains(h: HashFn, a: seq<Digest>, b: seq<Digest>) returns (c: Option<Collision>)
    requires |a| <= INDEX_LIMIT && |b| <= INDEX_LIMIT
    requires ChainHead(h, a) == ChainHead(h, b)
    ensures c.None? <==> a == b
    ensures c.Some? ==> IsCollision(h, c.value)
    decreases |a|
  {
    hide *;
    if a == [] {
      return None;
    }
    var s, t := |a| - 1, |b| - 1;
    var headA, headB := ChainHead(h, a[..s]), ChainHead(h, b[..t]);
    var pa, pb := Preimage(headA, s, a[s], Leaf(h, a[s])), Preimage(headB, t, b[t], Leaf(h, b[t]));
    ChainUnfold(h, a);
    ChainUnfold(h, b);
    c := ComparePreimages(h, pa, pb);
    if c.Some? {
      return;
    }
    PreimageFields(headA, s, a[s], Leaf(h, a[s]), headB, t, b[t], Leaf(h, b[t]));
    c := CompareChains(h, a[..s], b[..t]);
    assert a == a[..s] + [a[s]] && b == b[..t] + [b[t]];
  }
}
