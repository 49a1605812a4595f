/**
  The relying party's side: the iterative verifiers of sections 2.1.3.2 and 2.1.4.2 of
  RFC 9162, which walk the bits of two counters `fn` and `sn`, and the proofs that they
  accept exactly what the recursive generators of `MerkleTree` produce.

  A path is read through its directions, bottom up: `true` when the sibling is on the left.
  The recursion on split points and the loop on bits yield the same directions; all hashing
  then happens in `Climb`.
*/
module MerkleVerifier {
  import opened Hashing
  import opened MerkleTree

  function Join(h: HashFn, left: bool, sibling: Digest, r: Digest): (d: Digest) {
    if left then Node(h, sibling, r) else Node(h, r, sibling)
  }

  lemma JoinIsNode(h: HashFn, left: bool, sibling: Digest, r: Digest)
    ensures Join(h, left, sibling, r) == if left then Node(h, sibling, r) else Node(h, r, sibling)
  {
  }

  /** The hash reached from `r` by joining the siblings in order. */
  function Climb(h: HashFn, r: Digest, dirs: seq<bool>, path: seq<Digest>): (d: Digest)
    requires |dirs| == |path|
    decreases |dirs|
  {
    if dirs == [] then r
    else
      var t := |dirs| - 1;
      Join(h, dirs[t], path[t], Climb(h, r, dirs[..t], path[..t]))
  }

  /** Hash of the old tree: only the siblings on the left belong to it. */
  function ClimbOld(h: HashFn, r: Digest, dirs: seq<bool>, path: seq<Digest>): (d: Digest)
    requires |dirs| == |path|
    decreases |dirs|
  {
    if dirs == [] then r
    else
      var t := |dirs| - 1;
      var below := ClimbOld(h, r, dirs[..t], path[..t]);
      if dirs[t] then Node(h, path[t], below) else below
  }

  lemma ClimbSnoc(h: HashFn, r: Digest, dirs: seq<bool>, path: seq<Digest>, d: bool, p: Digest)
    requires |dirs| == |path|
    ensures Climb(h, r, dirs + [d], path + [p]) == Join(h, d, p, Climb(h, r, dirs, path))
    ensures ClimbOld(h, r, dirs + [d], path + [p])
         == (if d then Node(h, p, ClimbOld(h, r, dirs, path)) else ClimbOld(h, r, dirs, path))
  {
    assert (dirs + [d])[..|dirs|] == dirs && (path + [p])[..|dirs|] == path;
  }

  lemma ClimbNone(h: HashFn, r: Digest, dirs: seq<bool>, path: seq<Digest>)
    requires |dirs| == |path| == 0
    ensures Climb(h, r, dirs, path) == r && ClimbOld(h, r, dirs, path) == r
  {
  }

  /** One more step along a prefix of the path. */
  lemma TakeOne(h: HashFn, r: Digest, dirs: seq<bool>, path: seq<Digest>, j: nat)
    requires j < |dirs| && j < |path|
    ensures Climb(h, r, dirs[..j + 1], path[..j + 1]) == Join(h, dirs[j], path[j], Climb(h, r, dirs[..j], path[..j]))
    ensures ClimbOld(h, r, dirs[..j + 1], path[..j + 1])
         == (if dirs[j] then Node(h, path[j], ClimbOld(h, r, dirs[..j], path[..j])) else ClimbOld(h, r, dirs[..j], path[..j]))
  {
    ClimbSnoc(h, r, dirs[..j], path[..j], dirs[j], path[j]);
    assert dirs[..j + 1] == dirs[..j] + [dirs[j]] && path[..j + 1] == path[..j] + [path[j]];
  }

  // ----- Directions by split points -----

  function LeafDirections(index: nat, n: nat): (dirs: seq<bool>)
    requires index < n
    decreases n
  {
    if n == 1 then []
    else
      var k := Split(n);
      if index < k then LeafDirections(index, k) + [false] else LeafDirections(index - k, n - k) + [true]
  }

  function PrefixDirections(m: nat, n: nat): (dirs: seq<bool>)
    requires 0 < m <= n
    decreases n
  {
    if m == n then []
    else
      var k := Split(n);
      if m <= k then PrefixDirections(m, k) + [false] else PrefixDirections(m - k, n - k) + [true]
  }

  // ----- Directions by bits -----

  /** One bit at a time; equal even counters are shifted without taking a sibling. */
  function BitDirections(fn: nat, sn: nat): (dirs: seq<bool>)
    requires fn <= sn
    ensures dirs == [] <==> sn == 0
    decreases sn
  {
    if sn == 0 then []
    else if fn == sn && fn % 2 == 0 then BitDirections(fn / 2, sn / 2)
    else [fn % 2 == 1] + BitDirections(fn / 2, sn / 2)
  }

  /** The consistency verifier first drops the trailing ones of `fn`. */
  function SeedDirections(fn: nat, sn: nat): (dirs: seq<bool>)
    requires fn <= sn
  {
    if fn % 2 == 1 then SeedDirections(fn / 2, sn / 2) else BitDirections(fn, sn)
  }

  /** `fn` lacks the top bit of `sn`: the last sibling is the right half of the tree. */
  lemma {:induction false} BitsLeft(fn: nat, sn: nat, t: nat)
    requires fn < Pow2(t) <= sn < 2 * Pow2(t)
    ensures BitDirections(fn, sn) == BitDirections(fn, Pow2(t) - 1) + [false]
    decreases t
  {
    if t > 0 {
      BitsLeft(fn / 2, sn / 2, t - 1);
      assert (Pow2(t) - 1) / 2 == Pow2(t - 1) - 1;
    }
  }

  /** Both carry the top bit: the last sibling is the left half of the tree. */
  lemma {:induction false} BitsRight(fn: nat, sn: nat, t: nat)
    requires Pow2(t) <= fn <= sn < 2 * Pow2(t)
    ensures BitDirections(fn, sn) == BitDirections(fn - Pow2(t), sn - Pow2(t)) + [true]
    decreases t
  {
    if t > 0 {
      BitsRight(fn / 2, sn / 2, t - 1);
      assert (fn - Pow2(t)) / 2 == fn / 2 - Pow2(t - 1) && (sn - Pow2(t)) / 2 == sn / 2 - Pow2(t - 1);
    }
  }

  lemma {:induction false} SeedLeft(fn: nat, sn: nat, t: nat)
    requires fn < Pow2(t) <= sn < 2 * Pow2(t)
    ensures SeedDirections(fn, sn) == SeedDirections(fn, Pow2(t) - 1) + [false]
    decreases t
  {
    if fn % 2 == 1 {
      SeedLeft(fn / 2, sn / 2, t - 1);
      assert (Pow2(t) - 1) / 2 == Pow2(t - 1) - 1;
    } else {
      BitsLeft(fn, sn, t);
    }
  }

  lemma {:induction false} SeedRight(fn: nat, sn: nat, t: nat)
    requires Pow2(t) <= fn < sn < 2 * Pow2(t)
    ensures SeedDirections(fn, sn) == SeedDirections(fn - Pow2(t), sn - Pow2(t)) + [true]
    decreases t
  {
    if fn % 2 == 1 {
      assert t > 0;
      SeedRight(fn / 2, sn / 2, t - 1);
      assert (fn - Pow2(t)) / 2 == fn / 2 - Pow2(t - 1) && (sn - Pow2(t)) / 2 == sn / 2 - Pow2(t - 1);
    } else {
      BitsRight(fn, sn, t);
    }
  }

  /** Splitting and shifting agree for audit paths, for every leaf of every tree size. */
  lemma {:induction false} LeafDirectionsAreBits(index: nat, n: nat)
    requires index < n
    ensures LeafDirections(index, n) == BitDirections(index, n - 1)
    decreases n
  {
    if n > 1 {
      var k, t := Split(n), BitLength(n - 1) - 1;
      SplitExponent(n);
      if index < k {
        LeafDirectionsAreBits(index, k);
        BitsLeft(index, n - 1, t);
      } else {
        LeafDirectionsAreBits(index - k, n - k);
        BitsRight(index, n - 1, t);
      }
    }
  }

  predicate IsPow2(n: nat) {
    n == 1 || (n > 0 && n % 2 == 0 && IsPow2(n / 2))
  }

  lemma {:induction false} Pow2IsPow2(t: nat)
    ensures IsPow2(Pow2(t))
  {
    if t > 0 {
      Pow2IsPow2(t - 1);
    }
  }

  lemma {:induction false} IsPow2HasExponent(n: nat) returns (t: nat)
    requires IsPow2(n)
    ensures n == Pow2(t)
  {
    if n == 1 {
      t := 0;
    } else {
      var s := IsPow2HasExponent(n / 2);
      t := s + 1;
    }
  }

  lemma {:induction false} AllOnesHaveNoDirections(t: nat)
    ensures SeedDirections(Pow2(t) - 1, Pow2(t) - 1) == []
  {
    if t > 0 {
      AllOnesHaveNoDirections(t - 1);
      assert (Pow2(t) - 1) / 2 == Pow2(t - 1) - 1;
    }
  }

  lemma PrefixDirectionsUnfold(m: nat, n: nat)
    requires 0 < m <= n
    ensures m == n ==> PrefixDirections(m, n) == []
    ensures m < n ==>
              var k := Split(n);
              0 < k < n && PrefixDirections(m, n) == if m <= k then PrefixDirections(m, k) + [false] else PrefixDirections(m - k, n - k) + [true]
  {
  }

  /** Splitting and shifting agree for consistency paths. */
  lemma {:induction false} PrefixDirectionsAreBits(m: nat, n: nat)
    requires 0 < m <= n && (m < n || IsPow2(n))
    ensures PrefixDirections(m, n) == SeedDirections(m - 1, n - 1)
    decreases n
  {
    hide PrefixDirections, SeedDirections, Split, BitLength;
    PrefixDirectionsUnfold(m, n);
    if m == n {
      var t := IsPow2HasExponent(n);
      AllOnesHaveNoDirections(t);
    } else {
      var k, t := Split(n), BitLength(n - 1) - 1;
      SplitExponent(n);
      if m <= k {
        Pow2IsPow2(t);
        PrefixDirectionsAreBits(m, k);
        SeedLeft(m - 1, n - 1, t);
      } else {
        PrefixDirectionsAreBits(m - k, n - k);
        SeedRight(m - 1, n - 1, t);
      }
    }
  }

  // ----- Inclusion -----

  ghost predicate InclusionAccepted(h: HashFn, leaf: Digest, index: nat, n: nat, path: seq<Digest>, root: Digest) {
    && index < n
    && |path| == |LeafDirections(index, n)|
    && Climb(h, leaf, LeafDirections(index, n), path) == root
  }

  /** One turn of the verifiers' loop on the counters: which side the next sibling is on. */
  method NextDirection(fn: nat, sn: nat) returns (left: bool, fn': nat, sn': nat)
    requires fn <= sn && sn > 0
    ensures fn' <= sn' && BitDirections(fn, sn) == [left] + BitDirections(fn', sn')
  {
    fn', sn' := fn, sn;
    left := fn % 2 == 1 || fn == sn;
    if left && fn % 2 == 0 {
      while fn' % 2 == 0 && fn' != 0
        invariant 0 < fn' == sn'
        invariant BitDirections(fn, sn) == BitDirections(fn', sn')
      {
        fn', sn' := fn' / 2, sn' / 2;
      }
    }
    fn', sn' := fn' / 2, sn' / 2;
  }

  /** Section 2.1.3.2 of RFC 9162, step for step. */
  method VerifyInclusion(h: HashFn, leaf: Digest, index: nat, n: nat, path: seq<Digest>, root: Digest)
    returns (ok: bool)
    ensures ok <==> InclusionAccepted(h, leaf, index, n, path, root)
  {
    if index >= n {
      return false;
    }
    LeafDirectionsAreBits(index, n);
    ghost var dirs := LeafDirections(index, n);
    var fn: nat, sn: nat, r := index, n - 1, leaf;
    hide LeafDirections, Climb, BitDirections, Split;
    assert dirs[0..] == dirs && leaf == Climb(h, leaf, dirs[..0], path[..0]) by { ClimbNone(h, leaf, dirs[..0], path[..0]); }
    for j := 0 to |path|
      invariant fn <= sn && j <= |dirs|
      invariant dirs[j..] == BitDirections(fn, sn)
      invariant r == Climb(h, leaf, dirs[..j], path[..j])
    {
      if sn == 0 {
        return false;
      }
      var left;
      left, fn, sn := NextDirection(fn, sn);
      TakeOne(h, leaf, dirs, path, j);
      assert dirs[j..][1..] == dirs[j + 1..];
      r := if left then Node(h, path[j], r) else Node(h, r, path[j]);
    }
    assert sn == 0 ==> dirs[..|path|] == dirs && path[..|path|] == path;
    ok := sn == 0 && r == root;
  }

  lemma DirectionsUnfold(index: nat, n: nat)
    requires index < n && n > 1
    ensures var k := Split(n);
            LeafDirections(index, n) == if index < k then LeafDirections(index, k) + [false] else LeafDirections(index - k, n - k) + [true]
  {
  }

  /** One unfolding of the tree hash, the audit path and its directions. */
  lemma AuditUnfold(h: HashFn, leaves: seq<Digest>, index: nat)
    requires index < |leaves| && |leaves| > 1
    ensures var n, k := |leaves|, Split(|leaves|);
            && Root(h, leaves) == Node(h, Root(h, leaves[..k]), Root(h, leaves[k..]))
            && (index < k ==>
                  && LeafDirections(index, n) == LeafDirections(index, k) + [false]
                  && AuditPath(h, leaves, index) == AuditPath(h, leaves[..k], index) + [Root(h, leaves[k..])])
            && (index >= k ==>
                  && LeafDirections(index, n) == LeafDirections(index - k, n - k) + [true]
                  && AuditPath(h, leaves, index) == AuditPath(h, leaves[k..], index - k) + [Root(h, leaves[..k])])
  {
    hide Root, LeafDirections, Split;
    RootUnfold(h, leaves);
    DirectionsUnfold(index, |leaves|);
  }

  lemma AuditOfOne(h: HashFn, leaf: Digest)
    ensures AuditPath(h, [leaf], 0) == [] && LeafDirections(0, 1) == []
    ensures Climb(h, leaf, [], []) == leaf == Root(h, [leaf])
  {
  }

  lemma {:induction false} AuditPathClimbs(h: HashFn, leaves: seq<Digest>, index: nat)
    requires index < |leaves|
    ensures |AuditPath(h, leaves, index)| == |LeafDirections(index, |leaves|)|
    ensures Climb(h, leaves[index], LeafDirections(index, |leaves|), AuditPath(h, leaves, index)) == Root(h, leaves)
    decreases |leaves|
  {
    hide *;
    if |leaves| == 1 {
      AuditOfOne(h, leaves[0]);
      assert leaves == [leaves[0]];
    } else {
      var n, k := |leaves|, Split(|leaves|);
      var left, right := Root(h, leaves[..k]), Root(h, leaves[k..]);
      AuditUnfold(h, leaves, index);
      if index < k {
        AuditPathClimbs(h, leaves[..k], index);
        ClimbSnoc(h, leaves[index], LeafDirections(index, k), AuditPath(h, leaves[..k], index), false, right);
        JoinIsNode(h, false, right, left);
      } else {
        AuditPathClimbs(h, leaves[k..], index - k);
        ClimbSnoc(h, leaves[index], LeafDirections(index - k, n - k), AuditPath(h, leaves[k..], index - k), true, left);
        JoinIsNode(h, true, left, right);
      }
    }
  }

  /** Completeness: every generated audit path is accepted, at every index and size. */
  lemma {:induction false} InclusionComplete(h: HashFn, leaves: seq<Digest>, index: int)
    ensures var p := InclusionPath(h, leaves, index);
            p.Ok? ==> InclusionAccepted(h, leaves[index], index, |leaves|, p.value, Root(h, leaves))
  {
    if 0 <= index < |leaves| {
      AuditPathClimbs(h, leaves, index);
    }
  }

  lemma {:induction false} DirectionsBounded(index: nat, n: nat, t: nat)
    requires index < n <= Pow2(t)
    ensures |LeafDirections(index, n)| <= t
    decreases n
  {
    if n > 1 {
      var k, s := Split(n), BitLength(n - 1) - 1;
      SplitExponent(n);
      if t <= s {
        if t < s { Pow2Monotone(t, s); }
        assert false;
      }
      if index < k {
        DirectionsBounded(index, k, t - 1) by { if s < t - 1 { Pow2Monotone(s, t - 1); } }
      } else {
        DirectionsBounded(index - k, n - k, t - 1) by { if s < t - 1 { Pow2Monotone(s, t - 1); } }
      }
    }
  }

  /** An audit path has at most ceil(log2 n) entries. */
  lemma AuditPathShort(h: HashFn, leaves: seq<Digest>, index: nat, t: nat)
    requires index < |leaves| <= Pow2(t)
    ensures |AuditPath(h, leaves, index)| <= t
  {
    AuditPathClimbs(h, leaves, index);
    DirectionsBounded(index, |leaves|, t);
  }

  /** Soundness on leaf hashes: an accepted path shows the leaf at its index, or yields a collision. */
  function CompareClimb(h: HashFn, leaves: seq<Digest>, index: nat, leaf: Digest,
          path: seq<Digest>): (c: Option<Collision>)
    requires index < |leaves| && |path| == |LeafDirections(index, |leaves|)|
    requires Climb(h, leaf, LeafDirections(index, |leaves|), path) == Root(h, leaves)
    ensures c.None? ==> leaf == leaves[index]
    ensures c.Some? ==> IsCollision(h, c.value)
    decreases |leaves|
  {
    if |leaves| == 1 then None
    else
      var k, t := Split(|leaves|), |path| - 1;
      var i := if index < k then index else index - k;
      var half := if index < k then leaves[..k] else leaves[k..];
      assert LeafDirections(index, |leaves|)[..t] == LeafDirections(i, |half|);
      var below := Climb(h, leaf, LeafDirections(i, |half|), path[..t]);
      var top := if index < k then CompareNodes(h, below, path[t], Root(h, leaves[..k]), Root(h, leaves[k..]))
                 else CompareNodes(h, path[t], below, Root(h, leaves[..k]), Root(h, leaves[k..]));
      if top.Some? then top else CompareClimb(h, half, i, leaf, path[..t])
  }

  /** Soundness on receipt digests, as a relying party uses it. */
  function InclusionSound(h: HashFn, digests: seq<Digest>, index: nat, digest: Digest,
          path: seq<Digest>): (c: Option<Collision>)
    requires InclusionAccepted(h, Leaf(h, digest), index, |digests|, path, Root(h, Leaves(h, digests)))
    ensures c.None? ==> digest == digests[index]
    ensures c.Some? ==> IsCollision(h, c.value)
  {
    var c := CompareClimb(h, Leaves(h, digests), index, Leaf(h, digest), path);
    if c.Some? then c
    else
      var a, b := [0x00] + digest.raw, [0x00] + digests[index].raw;
      assert a[1..] == digest.raw && b[1..] == digests[index].raw;
      ComparePreimages(h, a, b)
  }

  // ----- Consistency -----

  /**
    What the consistency verifier decides.  A power-of-two old tree is its own seed; otherwise
    the first path entry is.  Equal sizes need equal roots, and every tree extends the empty one.
  */
  ghost predicate ConsistencyAccepted(h: HashFn, m: nat, n: nat, path: seq<Digest>, root1: Digest, root2: Digest) {
    if m > n then false
    else if m == 0 then path == []
    else if m == n then path == [] && root1 == root2
    else
      var full := if IsPow2(m) then [root1] + path else path;
      var dirs := PrefixDirections(m, n);
      && path != []
      && |full| == 1 + |dirs|
      && ClimbOld(h, full[0], dirs, full[1..]) == root1
      && Climb(h, full[0], dirs, full[1..]) == root2
  }

  /** Section 2.1.4.2 of RFC 9162, step for step. */
  method VerifyConsistency(h: HashFn, m: nat, n: nat, path: seq<Digest>, root1: Digest, root2: Digest)
    returns (ok: bool)
    ensures ok <==> ConsistencyAccepted(h, m, n, path, root1, root2)
  {
    if m > n {
      return false;
    }
    if m == 0 {
      return path == [];
    }
    if m == n {
      return path == [] && root1 == root2;
    }
    if path == [] {
      return false;
    }
    var full := if IsPow2(m) then [root1] + path else path;
    PrefixDirectionsAreBits(m, n);
    ghost var dirs, sibs := PrefixDirections(m, n), full[1..];
    var fn: nat, sn: nat := m - 1, n - 1;
    while fn % 2 == 1
      invariant fn <= sn && dirs == SeedDirections(fn, sn)
      decreases fn
    {
      fn, sn := fn / 2, sn / 2;
    }
    var fr, sr := full[0], full[0];
    assert dirs == BitDirections(fn, sn);
    hide PrefixDirections, SeedDirections, BitDirections, Climb, ClimbOld, IsPow2, Split;
    ClimbNone(h, full[0], dirs[..0], sibs[..0]);
    assert dirs[0..] == dirs;
    for j := 0 to |full| - 1
      invariant fn <= sn && j <= |dirs|
      invariant dirs[j..] == BitDirections(fn, sn)
      invariant fr == ClimbOld(h, full[0], dirs[..j], sibs[..j])
      invariant sr == Climb(h, full[0], dirs[..j], sibs[..j])
    {
      if sn == 0 {
        return false;
      }
      var c := full[j + 1];
      var left;
      left, fn, sn := NextDirection(fn, sn);
      TakeOne(h, full[0], dirs, sibs, j);
      assert dirs[j..][1..] == dirs[j + 1..];
      if left {
        fr, sr := Node(h, c, fr), Node(h, c, sr);
      } else {
        sr := Node(h, sr, c);
      }
    }
    assert sn == 0 ==> dirs[..|sibs|] == dirs && sibs[..|sibs|] == sibs;
    ok := fr == root1 && sr == root2 && sn == 0;
  }

  /** A known subtree is exactly a power-of-two old tree: then no seed is sent. */
  function Seed(h: HashFn, m: nat, leaves: seq<Digest>): (d: Digest)
    requires 0 < m <= |leaves|
    decreases |leaves|
  {
    if m == |leaves| then Root(h, leaves)
    else
      var k := Split(|leaves|);
      if m <= k then Seed(h, m, leaves[..k]) else Seed(h, m - k, leaves[k..])
  }

  function Siblings(h: HashFn, m: nat, leaves: seq<Digest>): (sibs: seq<Digest>)
    requires 0 < m <= |leaves|
    ensures |sibs| == |PrefixDirections(m, |leaves|)|
    decreases |leaves|
  {
    if m == |leaves| then []
    else
      var k := Split(|leaves|);
      if m <= k then Siblings(h, m, leaves[..k]) + [Root(h, leaves[k..])]
      else Siblings(h, m - k, leaves[k..]) + [Root(h, leaves[..k])]
  }

  lemma {:induction false} NotPow2Between(m: nat, t: nat)
    requires Pow2(t) < m < 2 * Pow2(t)
    ensures !IsPow2(m)
    decreases t
  {
    if t > 0 && m % 2 == 0 {
      NotPow2Between(m / 2, t - 1);
    }
  }

  /** One unfolding of the consistency path and its parts. */
  lemma PrefixUnfold(h: HashFn, m: nat, leaves: seq<Digest>, known: bool)
    requires 0 < m < |leaves|
    ensures var n, k := |leaves|, Split(|leaves|);
            && Root(h, leaves) == Node(h, Root(h, leaves[..k]), Root(h, leaves[k..]))
            && (m <= k ==>
                  && PrefixDirections(m, n) == PrefixDirections(m, k) + [false]
                  && Seed(h, m, leaves) == Seed(h, m, leaves[..k])
                  && Siblings(h, m, leaves) == Siblings(h, m, leaves[..k]) + [Root(h, leaves[k..])]
                  && SubProof(h, m, leaves, known) == SubProof(h, m, leaves[..k], known) + [Root(h, leaves[k..])])
            && (m > k ==>
                  && PrefixDirections(m, n) == PrefixDirections(m - k, n - k) + [true]
                  && Seed(h, m, leaves) == Seed(h, m - k, leaves[k..])
                  && Siblings(h, m, leaves) == Siblings(h, m - k, leaves[k..]) + [Root(h, leaves[..k])]
                  && SubProof(h, m, leaves, known) == SubProof(h, m - k, leaves[k..], false) + [Root(h, leaves[..k])])
  {
  }

  lemma SubProofOfWhole(h: HashFn, leaves: seq<Digest>, known: bool)
    requires leaves != [] && IsPow2(|leaves|)
    ensures var n := |leaves|;
            SubProof(h, n, leaves, known) == (if known && IsPow2(n) then [] else [Seed(h, n, leaves)]) + Siblings(h, n, leaves)
  {
    hide Root, IsPow2, Split;
  }

  lemma {:induction false} SubProofShape(h: HashFn, m: nat, leaves: seq<Digest>, known: bool)
    requires 0 < m <= |leaves| && (m < |leaves| || IsPow2(m))
    ensures SubProof(h, m, leaves, known)
         == (if known && IsPow2(m) then [] else [Seed(h, m, leaves)]) + Siblings(h, m, leaves)
    decreases |leaves|
  {
    hide *;
    var n := |leaves|;
    if m == n {
      SubProofOfWhole(h, leaves, known);
    } else {
      var k, t := Split(n), BitLength(n - 1) - 1;
      SplitExponent(n);
      PrefixUnfold(h, m, leaves, known);
      if m <= k {
        Pow2IsPow2(t);
        SubProofShape(h, m, leaves[..k], known);
      } else {
        NotPow2Between(m, t);
        SubProofShape(h, m - k, leaves[k..], false);
      }
    }
  }

  /** The seed of a power-of-two old tree is its root. */
  lemma {:induction false} SeedOfPow2(h: HashFn, m: nat, leaves: seq<Digest>)
    requires 0 < m <= |leaves| && IsPow2(m)
    ensures Seed(h, m, leaves) == Root(h, leaves[..m])
    decreases |leaves|
  {
    if m == |leaves| {
      assert leaves[..m] == leaves;
    } else {
      var n, k, t := |leaves|, Split(|leaves|), BitLength(|leaves| - 1) - 1;
      SplitExponent(n);
      if m > k {
        NotPow2Between(m, t);
      }
      SeedOfPow2(h, m, leaves[..k]);
      assert leaves[..k][..m] == leaves[..m];
    }
  }

  /** A prefix that passes the split point splits there too. */
  lemma RootOfLongPrefix(h: HashFn, m: nat, leaves: seq<Digest>)
    requires 2 <= |leaves| && Split(|leaves|) < m <= |leaves|
    ensures var k := Split(|leaves|);
            Root(h, leaves[..m]) == Node(h, Root(h, leaves[..k]), Root(h, leaves[k..][..m - k]))
  {
    hide Root, Split;
    var k := Split(|leaves|);
    SplitUnique(m, |leaves|);
    RootUnfold(h, leaves[..m]);
    assert leaves[..m][..k] == leaves[..k] && leaves[..m][k..] == leaves[k..][..m - k];
  }

  lemma SiblingsOfWhole(h: HashFn, leaves: seq<Digest>)
    requires leaves != []
    ensures var n := |leaves|;
            && Climb(h, Seed(h, n, leaves), PrefixDirections(n, n), Siblings(h, n, leaves)) == Root(h, leaves)
            && ClimbOld(h, Seed(h, n, leaves), PrefixDirections(n, n), Siblings(h, n, leaves)) == Root(h, leaves[..n])
  {
    assert leaves[..|leaves|] == leaves;
  }

  lemma {:induction false} SiblingsClimb(h: HashFn, m: nat, leaves: seq<Digest>)
    requires 0 < m <= |leaves|
    ensures Climb(h, Seed(h, m, leaves), PrefixDirections(m, |leaves|), Siblings(h, m, leaves)) == Root(h, leaves)
    ensures ClimbOld(h, Seed(h, m, leaves), PrefixDirections(m, |leaves|), Siblings(h, m, leaves)) == Root(h, leaves[..m])
    decreases |leaves|
  {
    hide *;
    var n := |leaves|;
    if m == n {
      SiblingsOfWhole(h, leaves);
    } else {
      var k := Split(n);
      var left, right := Root(h, leaves[..k]), Root(h, leaves[k..]);
      PrefixUnfold(h, m, leaves, true);
      if m <= k {
        var half := leaves[..k];
        assert half[..m] == leaves[..m];
        SiblingsClimb(h, m, half);
        ClimbSnoc(h, Seed(h, m, half), PrefixDirections(m, k), Siblings(h, m, half), false, right);
        JoinIsNode(h, false, right, left);
      } else {
        var half := leaves[k..];
        SiblingsClimb(h, m - k, half);
        ClimbSnoc(h, Seed(h, m - k, half), PrefixDirections(m - k, n - k), Siblings(h, m - k, half), true, left);
        JoinIsNode(h, true, left, right);
        RootOfLongPrefix(h, m, leaves);
      }
    }
  }

  lemma {:induction false} SubProofAccepted(h: HashFn, m: nat, tree: seq<Digest>)
    requires 0 < m < |tree|
    ensures ConsistencyAccepted(h, m, |tree|, SubProof(h, m, tree, true), Root(h, tree[..m]), Root(h, tree))
  {
    hide Root, Climb, ClimbOld, PrefixDirections, SubProof, IsPow2, Seed, Siblings, Split;
    var path, n := SubProof(h, m, tree, true), |tree|;
    SubProofShape(h, m, tree, true);
    SiblingsClimb(h, m, tree);
    PrefixUnfold(h, m, tree, true);
    var full := if IsPow2(m) then [Root(h, tree[..m])] + path else path;
    if IsPow2(m) {
      SeedOfPow2(h, m, tree);
    }
    assert full == [Seed(h, m, tree)] + Siblings(h, m, tree);
    assert full[1..] == Siblings(h, m, tree);
  }

  /** Completeness: every generated consistency path links the two roots. */
  lemma ConsistencyComplete(h: HashFn, leaves: seq<Digest>, m: int, n: int)
    ensures var p := ConsistencyPath(h, leaves, m, n);
            p.Ok? ==> ConsistencyAccepted(h, m, n, p.value, Root(h, leaves[..m]), Root(h, leaves[..n]))
  {
    if 0 < m < n <= |leaves| {
      SubProofAccepted(h, m, leaves[..n]);
      assert leaves[..n][..m] == leaves[..m];
    }
  }

  /** What the last step of a climb says about the two roots. */
  lemma LastStep(h: HashFn, a: seq<Digest>, b: seq<Digest>, seed: Digest, sibs: seq<Digest>)
    requires 0 < |a| < |b| && |sibs| == |PrefixDirections(|a|, |b|)|
    requires ClimbOld(h, seed, PrefixDirections(|a|, |b|), sibs) == Root(h, a)
    requires Climb(h, seed, PrefixDirections(|a|, |b|), sibs) == Root(h, b)
    ensures sibs != []
    ensures var m, n, k, t := |a|, |b|, Split(|b|), |sibs| - 1;
            && Root(h, b) == Node(h, Root(h, b[..k]), Root(h, b[k..]))
            && (if m <= k then
                  var dirs := PrefixDirections(m, k);
                  && |dirs| == t
                  && ClimbOld(h, seed, dirs, sibs[..t]) == Root(h, a)
                  && Node(h, Climb(h, seed, dirs, sibs[..t]), sibs[t]) == Root(h, b)
                else
                  var dirs := PrefixDirections(m - k, n - k);
                  && |dirs| == t
                  && Node(h, sibs[t], ClimbOld(h, seed, dirs, sibs[..t])) == Root(h, a)
                  && Root(h, a) == Node(h, Root(h, a[..k]), Root(h, a[k..]))
                  && Node(h, sibs[t], Climb(h, seed, dirs, sibs[..t])) == Root(h, b))
  {
    hide *;
    var m, n, k, t := |a|, |b|, Split(|b|), |sibs| - 1;
    PrefixUnfold(h, m, b, true);
    if m > k {
      RootOfLongPrefix(h, m, a + b[m..]);
      assert (a + b[m..])[..m] == a && (a + b[m..])[..k] == a[..k] && (a + b[m..])[k..][..m - k] == a[k..];
    }
    var dirs := if m <= k then PrefixDirections(m, k) else PrefixDirections(m - k, n - k);
    assert sibs == sibs[..t] + [sibs[t]];
    ClimbSnoc(h, seed, dirs, sibs[..t], m > k, sibs[t]);
    JoinIsNode(h, m > k, sibs[t], Climb(h, seed, dirs, sibs[..t]));
  }

  lemma WholeClimb(h: HashFn, seed: Digest, n: nat, sibs: seq<Digest>)
    requires n > 0 && |sibs| == |PrefixDirections(n, n)|
    ensures ClimbOld(h, seed, PrefixDirections(n, n), sibs) == Climb(h, seed, PrefixDirections(n, n), sibs)
  {
  }

  /** Soundness of the climb: both hashes right means the old leaves are a prefix, or a collision. */
  method ComparePrefix(h: HashFn, a: seq<Digest>, b: seq<Digest>, seed: Digest, sibs: seq<Digest>)
    returns (c: Option<Collision>)
    requires 0 < |a| <= |b| && |sibs| == |PrefixDirections(|a|, |b|)|
    requires ClimbOld(h, seed, PrefixDirections(|a|, |b|), sibs) == Root(h, a)
    requires Climb(h, seed, PrefixDirections(|a|, |b|), sibs) == Root(h, b)
    ensures c.None? ==> a == b[..|a|]
    ensures c.Some? ==> IsCollision(h, c.value)
    decreases |b|
  {
    hide *;
    var m, n := |a|, |b|;
    if m == n {
      assert b[..m] == b && PrefixDirections(m, n) == PrefixDirections(n, n);
      WholeClimb(h, seed, n, sibs);
      return CompareTrees(h, a, b);
    }
    LastStep(h, a, b, seed, sibs);
    var k, t := Split(n), |sibs| - 1;
    if m <= k {
      c := CompareNodes(h, Climb(h, seed, PrefixDirections(m, k), sibs[..t]), sibs[t], Root(h, b[..k]), Root(h, b[k..]));
      if c.None? {
        c := ComparePrefix(h, a, b[..k], seed, sibs[..t]);
        assert b[..k][..m] == b[..m];
      }
    } else {
      var dirs := PrefixDirections(m - k, n - k);
      c := CompareNodes(h, sibs[t], ClimbOld(h, seed, dirs, sibs[..t]), Root(h, a[..k]), Root(h, a[k..]));
      if c.Some? {
        return;
      }
      c := CompareNodes(h, sibs[t], Climb(h, seed, dirs, sibs[..t]), Root(h, b[..k]), Root(h, b[k..]));
      if c.Some? {
        return;
      }
      c := CompareTrees(h, a[..k], b[..k]);
      if c.None? {
        c := ComparePrefix(h, a[k..], b[k..], seed, sibs[..t]);
        assert a == a[..k] + a[k..] && b[..m] == b[..k] + b[k..][..m - k];
      }
    }
  }

  /** Soundness: an accepted consistency path means the old digests are a prefix of the new, or a collision. */
  method ConsistencySound(h: HashFn, a: seq<Digest>, b: seq<Digest>, path: seq<Digest>) returns (c: Option<Collision>)
    requires ConsistencyAccepted(h, |a|, |b|, path, Root(h, Leaves(h, a)), Root(h, Leaves(h, b)))
    ensures c.None? ==> |a| <= |b| && a == b[..|a|]
    ensures c.Some? ==> IsCollision(h, c.value)
  {
    var m, root1 := |a|, Root(h, Leaves(h, a));
    if m == 0 {
      return None;
    }
    if m == |b| {
      assert b[..m] == b;
      c := CompareLogs(h, a, b);
      return;
    }
    var full := if IsPow2(m) then [root1] + path else path;
    hide Climb, ClimbOld, Root, PrefixDirections, Leaves;
    c := ComparePrefix(h, Leaves(h, a), Leaves(h, b), full[0], full[1..]);
    if c.None? {
      LeavesOfSlices(h, b, m);
      c := CompareLogs(h, a, b[..m]);
    }
  }
}
