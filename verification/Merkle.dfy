/** The Merkle Mountain Range of the audit log and the recursive tree hash it
    speeds up.

    The frontier is related to the leaves level by level: at level i the tree
    is seen through the sequence of digests of its complete aligned blocks of
    2^i leaves, and one level up is obtained by pairing neighbours. */
module Merkle {
  import opened Bytes
  import opened Wrappers

  const LEAF_PREFIX: Byte := 0x00
  const NODE_PREFIX: Byte := 0x01

  function LeafInput(content: Digest): Bytes { [LEAF_PREFIX] + content.bytes }

  function NodeInput(left: Digest, right: Digest): Bytes { [NODE_PREFIX] + left.bytes + right.bytes }

  /** The digest of a leaf: prefix byte 0x00, then the content hash. */
  function LeafHash(content: Digest): Digest { Blake3(LeafInput(content)) }

  /** The digest of a node: prefix byte 0x01, then its two children. */
  function NodeHash(left: Digest, right: Digest): Digest { Blake3(NodeInput(left, right)) }

  // ----- the reference: section 2.1 of RFC 6962 -----------------------------

  /** The largest power of two strictly below n. */
  function SplitPoint(n: nat): (k: nat)
    requires n >= 2
    ensures 1 <= k < n <= 2 * k
  {
    if n == 2 then 1 else 2 * SplitPoint((n + 1) / 2)
  }

  /** The Merkle tree hash over leaf digests that are already hashed. */
  function TreeHash(d: seq<Digest>): Digest
    requires d != []
    decreases |d|
  {
    if |d| == 1 then d[0]
    else NodeHash(TreeHash(d[..SplitPoint(|d|)]), TreeHash(d[SplitPoint(|d|)..]))
  }

  function LeafHashes(leaves: seq<Digest>): (d: seq<Digest>)
    ensures |d| == |leaves|
    ensures forall i | 0 <= i < |leaves| :: d[i] == LeafHash(leaves[i])
  {
    if leaves == [] then [] else [LeafHash(leaves[0])] + LeafHashes(leaves[1..])
  }

  lemma {:induction false} LeafHashesSlice(leaves: seq<Digest>, lo: nat, hi: nat)
    requires lo <= hi <= |leaves|
    ensures LeafHashes(leaves)[lo..hi] == LeafHashes(leaves[lo..hi])
  {
  }

  /** The Merkle tree hash of a leaf sequence.  The log uses the all-zero
      digest for the empty tree where the RFC hashes the empty string. */
  function RootOf(leaves: seq<Digest>): Digest
  {
    if leaves == [] then ZERO_DIGEST else TreeHash(LeafHashes(leaves))
  }

  /** The smallest trees, spelled out in bytes: leaves under 0x00, nodes under
      0x01, and of three leaves the first two are paired. */
  lemma {:induction false} SmallTrees(a: Digest, b: Digest, c: Digest)
    ensures RootOf([]).bytes == Zeros(32)
    ensures RootOf([a]) == Blake3([0x00] + a.bytes)
    ensures RootOf([a, b]) == Blake3([0x01] + Blake3([0x00] + a.bytes).bytes + Blake3([0x00] + b.bytes).bytes)
    ensures RootOf([a, b, c]) == Blake3([0x01] + RootOf([a, b]).bytes + RootOf([c]).bytes)
  {
    var x, y, z := LeafHash(a), LeafHash(b), LeafHash(c);
    assert LeafHashes([a]) == [x] && LeafHashes([c]) == [z] && LeafHashes([a, b]) == [x, y];
    assert LeafHashes([a, b, c]) == [x, y, z];
    assert [x, y][..1] == [x] && [x, y][1..] == [y];
    assert [x, y, z][..2] == [x, y] && [x, y, z][2..] == [z];
    assert SplitPoint(2) == 1 && SplitPoint(3) == 2;
    assert TreeHash([x]) == x && TreeHash([y]) == y && TreeHash([z]) == z;
    assert TreeHash([x, y]) == NodeHash(x, y) && TreeHash([x, y, z]) == NodeHash(NodeHash(x, y), z);
  }

  // ----- one level up -------------------------------------------------------

  /** Digests of neighbouring pairs; a last odd element is dropped. */
  function Pairs(d: seq<Digest>): (p: seq<Digest>)
    ensures |p| == |d| / 2
    ensures forall i | 0 <= i < |p| :: p[i] == NodeHash(d[2 * i], d[2 * i + 1])
  {
    if |d| < 2 then [] else [NodeHash(d[0], d[1])] + Pairs(d[2..])
  }

  /** Digests of neighbouring pairs; a last odd element is promoted. */
  function Lift(d: seq<Digest>): (l: seq<Digest>)
    ensures d != [] ==> l != []
  {
    Pairs(d) + if |d| % 2 == 1 then [d[|d| - 1]] else []
  }

  /** The split point is a power of two, so with its bounds it is the largest
      one below n. */
  lemma {:induction false} SplitPointIsPowerOfTwo(n: nat) returns (i: nat)
    requires n >= 2
    ensures SplitPoint(n) == Pow2(i)
  {
    if n == 2 {
      i := 0;
    } else {
      i := SplitPointIsPowerOfTwo((n + 1) / 2);
      i := i + 1;
    }
  }

  lemma {:induction false} SplitPointHalves(n: nat)
    requires n >= 3
    ensures SplitPoint(n) == 2 * SplitPoint((n + 1) / 2)
  {
  }

  lemma {:induction false} PairsSplit(d: seq<Digest>, k: nat)
    requires 2 * k <= |d|
    ensures Pairs(d)[..k] == Pairs(d[..2 * k])
    ensures Pairs(d)[k..] == Pairs(d[2 * k..])
  {
  }

  lemma {:induction false} LiftSplit(d: seq<Digest>, k: nat)
    requires 2 * k <= |d|
    ensures Lift(d)[..k] == Lift(d[..2 * k])
    ensures Lift(d)[k..] == Lift(d[2 * k..])
  {
    PairsSplit(d, k);
    var last := if |d| % 2 == 1 then [d[|d| - 1]] else [];
    assert (Pairs(d) + last)[..k] == Pairs(d)[..k];
    assert (Pairs(d) + last)[k..] == Pairs(d)[k..] + last;
  }

  /** Lifting a level leaves the tree hash alone: the reference computed top
      down agrees with the tree built level by level. */
  lemma {:induction false} TreeHashLift(d: seq<Digest>)
    requires d != []
    ensures TreeHash(Lift(d)) == TreeHash(d)
    decreases |d|
  {
    if |d| == 1 {
      assert Lift(d) == d;
    } else if |d| == 2 {
      assert d[..1] == [d[0]] && d[1..] == [d[1]];
      assert Lift(d) == [NodeHash(d[0], d[1])];
    } else {
      var m := (|d| + 1) / 2;
      var k := SplitPoint(m);
      SplitPointHalves(|d|);
      LiftSplit(d, k);
      TreeHashLift(d[..2 * k]);
      TreeHashLift(d[2 * k..]);
      assert |Lift(d)| == m;
    }
  }

  // ----- the frontier -------------------------------------------------------

  /** The block at a level that has no right-hand sibling yet. */
  ghost function Peak(d: seq<Digest>): Option<Digest>
  {
    if |d| % 2 == 1 then Some(d[|d| - 1]) else None
  }

  /** `f` is the frontier over the level digests `d`: at every level it holds
      the block that has no sibling yet. */
  ghost predicate Frontier(f: seq<Option<Digest>>, d: seq<Digest>)
    decreases |f|
  {
    if d == [] then f == []
    else
      && f != []
      && f[0] == Peak(d)
      && Frontier(f[1..], Pairs(d))
  }

  /** The carry chain of an append, as a function. */
  ghost function Insert(f: seq<Option<Digest>>, carry: Digest): seq<Option<Digest>>
    decreases |f|
  {
    if f == [] then [Some(carry)]
    else if f[0].None? then [Some(carry)] + f[1..]
    else [None] + Insert(f[1..], NodeHash(f[0].value, carry))
  }

  lemma {:induction false} PairsSnoc(d: seq<Digest>, c: Digest)
    ensures |d| % 2 == 0 ==> Pairs(d + [c]) == Pairs(d)
    ensures |d| % 2 == 1 ==> Pairs(d + [c]) == Pairs(d) + [NodeHash(d[|d| - 1], c)]
  {
  }

  /** Inserting a digest into the frontier of `d` gives the frontier of `d`
      extended by it. */
  lemma {:induction false} InsertExtends(f: seq<Option<Digest>>, d: seq<Digest>, c: Digest)
    requires Frontier(f, d)
    ensures Frontier(Insert(f, c), d + [c])
    decreases |f|
  {
    PairsSnoc(d, c);
    var g := Insert(f, c);
    if d == [] {
      assert g[1..] == [];
    } else if |d| % 2 == 0 {
      assert g[1..] == f[1..];
    } else {
      InsertExtends(f[1..], Pairs(d), NodeHash(d[|d| - 1], c));
      assert g[1..] == Insert(f[1..], NodeHash(d[|d| - 1], c));
    }
  }

  function Combine(peak: Option<Digest>, acc: Option<Digest>): Option<Digest>
  {
    match (peak, acc)
    case (None, _) => acc
    case (Some(_), None) => peak
    case (Some(p), Some(a)) => Some(NodeHash(p, a))
  }

  /** Bagging the peaks from level 0 upward. */
  ghost function Bag(f: seq<Option<Digest>>, acc: Option<Digest>): Option<Digest>
    decreases |f|
  {
    if f == [] then acc else Bag(f[1..], Combine(f[0], acc))
  }

  ghost function Tail(acc: Option<Digest>): seq<Digest>
  {
    if acc.None? then [] else [acc.value]
  }

  /** Bagging computes the tree hash of the blocks still covered by the
      frontier followed by the accumulated right-hand tree. */
  lemma {:induction false} BagIsTreeHash(f: seq<Option<Digest>>, d: seq<Digest>, acc: Option<Digest>)
    requires Frontier(f, d)
    requires d != [] || acc.Some?
    ensures Bag(f, acc) == Some(TreeHash(d + Tail(acc)))
    decreases |f|
  {
    if d == [] {
      assert d + Tail(acc) == [acc.value];
    } else {
      var next := Combine(f[0], acc);
      var all := d + Tail(acc);
      if acc.Some? {
        PairsSnoc(d, acc.value);
      }
      assert Lift(all) == Pairs(d) + Tail(next);
      TreeHashLift(all);
      BagIsTreeHash(f[1..], Pairs(d), next);
    }
  }

  // ----- the frontier read as a binary counter ------------------------------

  /** j shifted left by i bits. */
  function Shl(j: nat, i: nat): nat { if i == 0 then j else 2 * Shl(j, i - 1) }

  /** n shifted right by i bits. */
  function Shr(n: nat, i: nat): nat { if i == 0 then n else Shr(n / 2, i - 1) }

  function Pow2(i: nat): nat { Shl(1, i) }

  /** Bit i of n. */
  predicate Bit(n: nat, i: nat) { Shr(n, i) % 2 == 1 }

  lemma {:induction false} ShiftBounds(n: nat, i: nat, j: nat)
    ensures Shl(j + 1, i) == Shl(j, i) + Pow2(i)
    ensures Pow2(i) >= 1
    ensures j < Shr(n, i) ==> Shl(j + 1, i) <= n
    ensures Pow2(i) <= n <==> Shr(n, i) >= 1
    decreases i
  {
    if i > 0 {
      ShiftBounds(n / 2, i - 1, j);
    }
  }

  /** The i-th level: digests of the complete aligned blocks of 2^i. */
  ghost function Level(d: seq<Digest>, i: nat): (l: seq<Digest>)
    ensures |l| == Shr(|d|, i)
    decreases i
  {
    if i == 0 then d else Level(Pairs(d), i - 1)
  }

  lemma {:induction false} PairsOfBlock(d: seq<Digest>, lo: nat, hi: nat)
    requires lo < hi && 2 * hi <= |d|
    ensures TreeHash(Pairs(d)[lo..hi]) == TreeHash(d[2 * lo..2 * hi])
  {
    var block := d[2 * lo..2 * hi];
    assert Lift(block) == Pairs(d)[lo..hi];
    TreeHashLift(block);
  }

  /** Element j of level i is the tree hash of the j-th aligned block of 2^i. */
  lemma {:induction false} LevelIsBlockHash(d: seq<Digest>, i: nat, j: nat)
    requires j < Shr(|d|, i)
    ensures Shl(j, i) < Shl(j + 1, i) <= |d|
    ensures Level(d, i)[j] == TreeHash(d[Shl(j, i)..Shl(j + 1, i)])
    decreases i
  {
    ShiftBounds(|d|, i, j);
    if i == 0 {
      assert d[j..j + 1] == [d[j]];
    } else {
      LevelIsBlockHash(Pairs(d), i - 1, j);
      PairsOfBlock(d, Shl(j, i - 1), Shl(j + 1, i - 1));
    }
  }

  /** The same, from the leaves. */
  lemma {:induction false} LevelIsBlockRoot(leaves: seq<Digest>, i: nat, j: nat)
    requires j < Shr(|leaves|, i)
    ensures Shl(j, i) < Shl(j + 1, i) <= |leaves|
    ensures Level(LeafHashes(leaves), i)[j] == RootOf(leaves[Shl(j, i)..Shl(j + 1, i)])
  {
    hide LeafHashes, Level, Shl, Shr, TreeHash;
    LevelIsBlockHash(LeafHashes(leaves), i, j);
    LeafHashesSlice(leaves, Shl(j, i), Shl(j + 1, i));
  }

  lemma {:induction false} FrontierLevels(f: seq<Option<Digest>>, d: seq<Digest>, i: nat)
    requires Frontier(f, d)
    ensures i < |f| <==> Shr(|d|, i) >= 1
    ensures i < |f| ==> f[i] == Peak(Level(d, i))
    decreases i
  {
    if d == [] {
      ShiftBounds(0, i, 0);
    } else if i > 0 {
      FrontierLevels(f[1..], Pairs(d), i - 1);
    }
  }

  /** The frontier is the binary decomposition of the leaf count: level i is
      present exactly when bit i of the count is set, and then it holds the
      root of the perfect tree over the aligned block of 2^i leaves that ends
      where the count, cleared below bit i, ends. */
  lemma {:induction false} FrontierIsBinaryCounter(f: seq<Option<Digest>>, leaves: seq<Digest>, i: nat)
    requires Frontier(f, LeafHashes(leaves))
    ensures i < |f| <==> Pow2(i) <= |leaves|
    ensures i < |f| ==> (f[i].Some? <==> Bit(|leaves|, i))
    ensures i < |f| && f[i].Some? ==>
              var hi := Shl(Shr(|leaves|, i), i);
              && 0 <= hi - Pow2(i) < hi <= |leaves|
              && f[i].value == RootOf(leaves[hi - Pow2(i)..hi])
  {
    hide Frontier, LeafHashes, Level, Shl, Shr, RootOf;
    FrontierLevels(f, LeafHashes(leaves), i);
    ShiftBounds(|leaves|, i, 0);
    if i < |f| && f[i].Some? {
      var j := Shr(|leaves|, i) - 1;
      ShiftBounds(|leaves|, i, j);
      LevelIsBlockRoot(leaves, i, j);
    }
  }

  // ----- binding ------------------------------------------------------------

  /** Every input hashed while computing the reference root of `leaves` is in
      `inputs`. */
  ghost predicate HashedIn(leaves: seq<Digest>, inputs: set<Bytes>)
    decreases |leaves|
  {
    if leaves == [] then true
    else if |leaves| == 1 then LeafInput(leaves[0]) in inputs
    else
      && NodeInput(RootOf(leaves[..SplitPoint(|leaves|)]), RootOf(leaves[SplitPoint(|leaves|)..])) in inputs
      && HashedIn(leaves[..SplitPoint(|leaves|)], inputs) && HashedIn(leaves[SplitPoint(|leaves|)..], inputs)
  }

  lemma {:induction false} RootOfSplit(leaves: seq<Digest>)
    requires |leaves| >= 2
    ensures var k := SplitPoint(|leaves|);
            RootOf(leaves) == NodeHash(RootOf(leaves[..k]), RootOf(leaves[k..]))
  {
    var k := SplitPoint(|leaves|);
    var d := LeafHashes(leaves);
    LeafHashesSlice(leaves, 0, k);
    LeafHashesSlice(leaves, k, |leaves|);
    assert d[..k] == d[0..k] && leaves[..k] == leaves[0..k];
    assert d[k..] == d[k..|d|] && leaves[k..] == leaves[k..|leaves|];
  }

  lemma {:induction false} RootInputHashed(leaves: seq<Digest>, inputs: set<Bytes>) returns (x: Bytes)
    requires leaves != [] && HashedIn(leaves, inputs)
    ensures x in inputs && Blake3(x) == RootOf(leaves)
    ensures |leaves| == 1 ==> x == LeafInput(leaves[0])
    ensures |leaves| >= 2 ==> var k := SplitPoint(|leaves|);
                              x == NodeInput(RootOf(leaves[..k]), RootOf(leaves[k..]))
  {
    if |leaves| == 1 {
      x := LeafInput(leaves[0]);
    } else {
      RootOfSplit(leaves);
      var k := SplitPoint(|leaves|);
      x := NodeInput(RootOf(leaves[..k]), RootOf(leaves[k..]));
    }
  }

  lemma {:induction false} NodeInputInjective(l: Digest, r: Digest, l': Digest, r': Digest)
    requires NodeInput(l, r) == NodeInput(l', r')
    ensures l == l' && r == r'
  {
    assert NodeInput(l, r)[1..33] == l.bytes && NodeInput(l', r')[1..33] == l'.bytes;
    assert NodeInput(l, r)[33..] == r.bytes && NodeInput(l', r')[33..] == r'.bytes;
  }

  /** One step down two trees with equal roots: same shape, equal parts. */
  lemma {:induction false} EqualRootsStep(a: seq<Digest>, b: seq<Digest>, inputs: set<Bytes>)
    requires a != [] && b != []
    requires CollisionFreeOn(inputs) && HashedIn(a, inputs) && HashedIn(b, inputs)
    requires RootOf(a) == RootOf(b)
    ensures |a| == 1 <==> |b| == 1
    ensures |a| == 1 ==> a[0] == b[0]
    ensures |a| >= 2 && |b| >= 2 ==>
              var k, m := SplitPoint(|a|), SplitPoint(|b|);
              RootOf(a[..k]) == RootOf(b[..m]) && RootOf(a[k..]) == RootOf(b[m..])
  {
    var x := RootInputHashed(a, inputs);
    var y := RootInputHashed(b, inputs);
    assert x == y;
    if |a| == 1 && |b| == 1 {
      assert LeafInput(a[0])[1..] == a[0].bytes && LeafInput(b[0])[1..] == b[0].bytes;
    } else if |a| >= 2 && |b| >= 2 {
      var k, m := SplitPoint(|a|), SplitPoint(|b|);
      NodeInputInjective(RootOf(a[..k]), RootOf(a[k..]), RootOf(b[..m]), RootOf(b[m..]));
    }
  }

  lemma {:induction false} Rejoin<T>(s: seq<T>, k: nat)
    requires k <= |s|
    ensures s == s[..k] + s[k..]
  {
  }

  lemma {:induction false} NonemptyRootsBind(a: seq<Digest>, b: seq<Digest>, inputs: set<Bytes>)
    requires a != [] && b != []
    requires CollisionFreeOn(inputs) && HashedIn(a, inputs) && HashedIn(b, inputs)
    requires RootOf(a) == RootOf(b)
    ensures a == b
    decreases |a|
  {
    EqualRootsStep(a, b, inputs);
    if |a| == 1 {
      assert a == [a[0]] && b == [b[0]];
    } else {
      var k, m := SplitPoint(|a|), SplitPoint(|b|);
      NonemptyRootsBind(a[..k], b[..m], inputs);
      NonemptyRootsBind(a[k..], b[m..], inputs);
      Rejoin(a, k);
      Rejoin(b, m);
    }
  }

  /** Equal roots mean equal leaf sequences, of equal length, for any two
      histories, as long as the hash has no collision and no zero digest on
      the inputs that were hashed. */
  lemma {:induction false} RootsBind(a: seq<Digest>, b: seq<Digest>, inputs: set<Bytes>)
    requires CollisionFreeOn(inputs) && HashedIn(a, inputs) && HashedIn(b, inputs)
    requires NeverZeroOn(inputs)
    requires RootOf(a) == RootOf(b)
    ensures a == b
  {
    if a != [] && b != [] {
      NonemptyRootsBind(a, b, inputs);
    } else if a != [] {
      var _ := RootInputHashed(a, inputs);
    } else if b != [] {
      var _ := RootInputHashed(b, inputs);
    }
  }

  // ----- the structure itself -----------------------------------------------

  lemma {:induction false} BagStep(f: seq<Option<Digest>>, i: nat, acc: Option<Digest>)
    requires i < |f|
    ensures Bag(f[i..], acc) == Bag(f[i + 1..], Combine(f[i], acc))
  {
    assert f[i..][1..] == f[i + 1..];
  }

  lemma {:induction false} InsertAtTop(f: seq<Option<Digest>>, i: nat, carry: Digest)
    requires i == |f|
    ensures Insert(f[i..], carry) == [Some(carry)]
  {
  }

  lemma {:induction false} InsertAtFreeLevel(f: seq<Option<Digest>>, i: nat, carry: Digest)
    requires i < |f| && f[i].None?
    ensures Insert(f[i..], carry) == [Some(carry)] + f[i + 1..]
  {
    assert f[i..][1..] == f[i + 1..];
  }

  lemma {:induction false} InsertStep(f: seq<Option<Digest>>, i: nat, carry: Digest)
    requires i < |f| && f[i].Some?
    ensures Insert(f[i..], carry) == [None] + Insert(f[i + 1..], NodeHash(f[i].value, carry))
  {
    assert f[i..][1..] == f[i + 1..];
  }

  lemma {:induction false} AppendExtends(f: seq<Option<Digest>>, leaves: seq<Digest>, content: Digest)
    requires Frontier(f, LeafHashes(leaves))
    ensures Frontier(Insert(f, LeafHash(content)), LeafHashes(leaves + [content]))
  {
    InsertExtends(f, LeafHashes(leaves), LeafHash(content));
    assert LeafHashes(leaves + [content]) == LeafHashes(leaves) + [LeafHash(content)];
  }

  /** The incremental tree: a leaf count and a vector of peaks. */
  class MerkleTree {
    var count: nat
    var frontier: seq<Option<Digest>>
    ghost var leaves: seq<Digest>

    ghost predicate Valid()
      reads this
    {
      count == |leaves| && Frontier(frontier, LeafHashes(leaves))
    }

    constructor ()
      ensures Valid() && leaves == []
    {
      count, frontier, leaves := 0, [], [];
    }

    constructor Clone(t: MerkleTree)
      requires t.Valid()
      ensures Valid() && leaves == t.leaves
    {
      count, frontier, leaves := t.count, t.frontier, t.leaves;
    }

    method Append(content: Digest) returns (root: Digest)
      requires Valid()
      modifies this
      ensures Valid() && leaves == old(leaves) + [content]
      ensures root == RootOf(leaves)
    {
      ghost var before := frontier;
      AppendExtends(before, leaves, content);
      CarryIn(content);
      leaves := leaves + [content];
      count := count + 1;
      root := Root();
    }

    /** The carry loop: combine with present peaks upward, stop at a free level. */
    method CarryIn(content: Digest)
      modifies this`frontier
      ensures frontier == Insert(old(frontier), LeafHash(content))
    {
      hide Insert, NodeHash, LeafHash;
      ghost var before := frontier;
      var carry := LeafHash(content);
      var i := 0;
      assert before[0..] == before;
      while true
        invariant 0 <= i <= |before| == |frontier|
        invariant frontier[i..] == before[i..]
        invariant Insert(before, LeafHash(content)) == frontier[..i] + Insert(before[i..], carry)
        decreases |before| - i
      {
        if i >= |frontier| {
          InsertAtTop(before, i, carry);
          frontier := frontier + [Some(carry)];
          break;
        }
        var left := frontier[i];
        assert left == before[i..][0];
        if left.None? {
          InsertAtFreeLevel(before, i, carry);
          assert frontier[i + 1..] == frontier[i..][1..] == before[i + 1..];
          frontier := frontier[..i] + [Some(carry)] + frontier[i + 1..];
          break;
        }
        InsertStep(before, i, carry);
        assert frontier[i + 1..] == frontier[i..][1..] == before[i + 1..];
        frontier := frontier[..i] + [None] + frontier[i + 1..];
        carry := NodeHash(left.value, carry);
        i := i + 1;
      }
    }

    method Root() returns (root: Digest)
      requires Valid()
      ensures root == RootOf(leaves)
    {
      if count == 0 {
        return ZERO_DIGEST;
      }
      var acc: Option<Digest> := None;
      for i := 0 to |frontier|
        invariant Bag(frontier, None) == Bag(frontier[i..], acc)
      {
        BagStep(frontier, i, acc);
        if frontier[i].Some? {
          acc := if acc.None? then frontier[i] else Some(NodeHash(frontier[i].value, acc.value));
        }
      }
      BagIsTreeHash(frontier, LeafHashes(leaves), None);
      assert LeafHashes(leaves) + Tail(None) == LeafHashes(leaves);
      assert acc.Some?;
      root := acc.value;
    }
  }
}
