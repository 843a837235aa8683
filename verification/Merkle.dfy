/**
 The binary Merkle tree of section 2.1 of RFC 6962, its audit paths (section 2.1.1), the
 iterative bit-walking verifier of section 2.1.3.2 of RFC 9162, and the level-by-level root
 of the page-bundle code.

 SHA-256 is modelled as a free (injective, domain-separated) constructor.
 */
module Merkle {
  import opened Wrappers

  /** A hash value: of the empty string, of a 0x00-prefixed leaf, or of a 0x01-prefixed pair. */
  datatype Digest<T> =
    | EmptyDigest
    | LeafDigest(data: T)
    | NodeDigest(left: Digest<T>, right: Digest<T>)

  // ---------- The split point ----------

  ghost predicate IsPow2(k: nat)
    decreases k
  {
    k == 1 || (k > 1 && k % 2 == 0 && IsPow2(k / 2))
  }

  /** `k` is the largest power of two strictly below `n`. */
  ghost predicate IsSplit(k: nat, n: nat) {
    IsPow2(k) && k < n <= 2 * k
  }

  function Split(n: nat): (k: nat)
    requires n > 1
    ensures IsSplit(k, n)
    ensures 0 < k < n
    decreases n
  {
    if n == 2 then 1
    else
      var half := Split((n + 1) / 2);
      assert (2 * half) / 2 == half;
      2 * half
  }

  lemma {:induction false} Pow2Unique(j: nat, k: nat)
    requires IsPow2(j) && IsPow2(k) && j < 2 * k && k < 2 * j
    ensures j == k
    decreases j
  {
    if j > 1 && k > 1 {
      Pow2Unique(j / 2, k / 2);
    }
  }

  lemma SplitUnique(k: nat, n: nat)
    requires n > 1 && IsSplit(k, n)
    ensures k == Split(n)
  {
    Pow2Unique(k, Split(n));
  }

  method LargestPow2Lt(n: nat) returns (k: nat)
    requires n > 1
    ensures IsSplit(k, n)
    ensures k == Split(n)
  {
    k := 1;
    while k * 2 < n
      invariant IsPow2(k) && k < n
    {
      k := k * 2;
    }
    SplitUnique(k, n);
  }

  // ---------- The tree hash and the audit path ----------

  function Mth<T>(leaves: seq<Digest<T>>): Digest<T>
    decreases |leaves|
  {
    var n := |leaves|;
    if n == 0 then EmptyDigest
    else if n == 1 then leaves[0]
    else
      var k := Split(n);
      NodeDigest(Mth(leaves[..k]), Mth(leaves[k..]))
  }

  function Path<T>(m: nat, leaves: seq<Digest<T>>): seq<Digest<T>>
    requires m < |leaves|
    decreases |leaves|
  {
    var n := |leaves|;
    if n <= 1 then []
    else
      var k := Split(n);
      if m < k then Path(m, leaves[..k]) + [Mth(leaves[k..])]
      else Path(m - k, leaves[k..]) + [Mth(leaves[..k])]
  }

  datatype ProofError = EmptyLeaves | IndexOutOfRange

  function InclusionProof<T>(leaves: seq<Digest<T>>, index: int): Result<seq<Digest<T>>, ProofError> {
    if leaves == [] then Err(EmptyLeaves)
    else if !(0 <= index < |leaves|) then Err(IndexOutOfRange)
    else Ok(Path(index, leaves))
  }

  // ---------- What a path proves: the root it leads to, read from the root down ----------

  /** The root that `leaf` at position `i` of an `n`-leaf tree and the sibling list `proof`
      determine, or `None` when `proof` has the wrong length. */
  function RootFromPath<T>(i: nat, n: nat, leaf: Digest<T>, proof: seq<Digest<T>>): Option<Digest<T>>
    requires i < n
    decreases n
  {
    if n == 1 then
      if proof == [] then Some(leaf) else None
    else if proof == [] then None
    else
      var k := Split(n);
      var top := proof[|proof| - 1];
      var below := proof[..|proof| - 1];
      if i < k then Above(RootFromPath(i, k, leaf, below), top, false)
      else Above(RootFromPath(i - k, n - k, leaf, below), top, true)
  }

  /** Join the hash of the subtree already walked with its sibling. */
  function Above<T>(sub: Option<Digest<T>>, sibling: Digest<T>, siblingOnLeft: bool): Option<Digest<T>> {
    if sub.None? then None
    else Some(if siblingOnLeft then NodeDigest(sibling, sub.value) else NodeDigest(sub.value, sibling))
  }

  /** Soundness and completeness together: against the root of `leaves`, exactly the leaf really
      at index `i` with exactly its audit path leads to that root. */
  lemma {:induction false} PathIffMember<T>(leaves: seq<Digest<T>>, i: nat, leaf: Digest<T>, proof: seq<Digest<T>>)
    requires i < |leaves|
    ensures RootFromPath(i, |leaves|, leaf, proof) == Some(Mth(leaves))
       <==> leaf == leaves[i] && proof == Path(i, leaves)
    decreases |leaves|
  {
    var n := |leaves|;
    if n > 1 && proof != [] {
      var k := Split(n);
      var top, below := proof[|proof| - 1], proof[..|proof| - 1];
      assert proof == below + [top];
      if i < k {
        PathIffMember(leaves[..k], i, leaf, below);
      } else {
        PathIffMember(leaves[k..], i - k, leaf, below);
      }
    }
  }

  // ---------- The walk from the leaf up ----------

  /** Halving a tree size, rounding up, halves its split point. */
  lemma SplitHalves(n: nat)
    requires n > 2
    ensures Split(n) % 2 == 0
    ensures Split((n + 1) / 2) == Split(n) / 2
    ensures (n + 1) / 2 - Split(n) / 2 == (n - Split(n) + 1) / 2
  {
  }

  /** `RootFromPath` one step down, with the path given as the siblings below and the top one. */
  lemma RootUnfolds<T>(i: nat, n: nat, leaf: Digest<T>, below: seq<Digest<T>>, top: Digest<T>)
    requires i < n && n > 1
    ensures var k := Split(n);
            RootFromPath(i, n, leaf, below + [top]) ==
            if i < k then Above(RootFromPath(i, k, leaf, below), top, false)
            else Above(RootFromPath(i - k, n - k, leaf, below), top, true)
  {
    var proof := below + [top];
    assert proof[..|proof| - 1] == below;
  }

  lemma RootOfShortPath<T>(i: nat, n: nat, r: Digest<T>)
    requires i < n && n > 1
    ensures RootFromPath(i, n, r, []) == None
  {
  }

  /** The odd last node of a level is promoted unchanged. */
  lemma {:induction false} LevelPromote<T>(n: nat, r: Digest<T>, proof: seq<Digest<T>>)
    requires n > 1 && n % 2 == 1
    ensures RootFromPath(n - 1, n, r, proof) == RootFromPath(n / 2, n / 2 + 1, r, proof)
    decreases n
  {
    hide *;
    if proof == [] {
      RootOfShortPath(n - 1, n, r);
      RootOfShortPath(n / 2, n / 2 + 1, r);
    } else {
      var top, below := proof[|proof| - 1], proof[..|proof| - 1];
      assert proof == below + [top];
      var k := Split(n);
      SplitHalves(n);
      RootUnfolds(n - 1, n, r, below, top);
      RootUnfolds(n / 2, n / 2 + 1, r, below, top);
      if n - k > 1 {
        LevelPromote(n - k, r, below);
        assert (n - k) / 2 == n / 2 - k / 2;
      }
    }
  }

  /** The parent of the node at position `i` and its sibling. */
  function Merged<T>(i: nat, r: Digest<T>, sibling: Digest<T>): Digest<T> {
    if i % 2 == 1 then NodeDigest(sibling, r) else NodeDigest(r, sibling)
  }

  lemma SameSide<T>(i: nat, j: nat, r: Digest<T>, sibling: Digest<T>)
    requires i % 2 == j % 2
    ensures Merged(i, r, sibling) == Merged(j, r, sibling)
  {
  }

  /** Any other node is paired with its sibling, the first hash of the path. */
  lemma {:induction false} LevelMerge<T>(i: nat, n: nat, r: Digest<T>, proof: seq<Digest<T>>)
    requires i < n && n > 1 && proof != []
    requires i % 2 == 1 || i != n - 1
    ensures RootFromPath(i, n, r, proof) == RootFromPath(i / 2, (n + 1) / 2, Merged(i, r, proof[0]), proof[1..])
    decreases n
  {
    hide *;
    var top, below := proof[|proof| - 1], proof[..|proof| - 1];
    assert proof == below + [top];
    if n == 2 {
      MergeInPair(i, r, below, top);
    } else if below == [] {
      assert proof == [top] && proof[1..] == [];
      MergeTooShort(i, n, r, top);
    } else {
      MergeBelow(i, n, r, below, top);
      assert proof[1..] == below[1..] + [top];
    }
  }

  lemma MergeInPair<T>(i: nat, r: Digest<T>, below: seq<Digest<T>>, top: Digest<T>)
    requires i < 2
    ensures RootFromPath(i, 2, r, below + [top])
         == RootFromPath(0, 1, Merged(i, r, (below + [top])[0]), (below + [top])[1..])
  {
    RootUnfolds(i, 2, r, below, top);
    assert (below + [top])[1..] == [] <==> below == [];
  }

  lemma MergeTooShort<T>(i: nat, n: nat, r: Digest<T>, top: Digest<T>)
    requires i < n && n > 2
    requires i % 2 == 1 || i != n - 1
    ensures RootFromPath(i, n, r, [top]) == RootFromPath(i / 2, (n + 1) / 2, Merged(i, r, top), []) == None
  {
    assert [] + [top] == [top];
    RootUnfolds(i, n, r, [], top);
    SplitHalves(n);
  }

  lemma {:induction false} MergeBelow<T>(i: nat, n: nat, r: Digest<T>, below: seq<Digest<T>>, top: Digest<T>)
    requires i < n && n > 2 && below != []
    requires i % 2 == 1 || i != n - 1
    ensures RootFromPath(i, n, r, below + [top])
         == RootFromPath(i / 2, (n + 1) / 2, Merged(i, r, below[0]), below[1..] + [top])
    decreases n, 0
  {
    hide *;
    var k, h := Split(n), (n + 1) / 2;
    SplitHalves(n);
    RootUnfolds(i, n, r, below, top);
    var m := Merged(i, r, below[0]);
    RootUnfolds(i / 2, h, m, below[1..], top);
    if i < k {
      LevelMerge(i, k, r, below);
      assert (k + 1) / 2 == k / 2;
    } else {
      assert (i - k) / 2 == i / 2 - k / 2;
      SameSide(i - k, i, r, below[0]);
      LevelMerge(i - k, n - k, r, below);
    }
  }

  /** What the rest of the walk will decide: the node `r` stands at position `fn` of a level
      whose last index is `sn`, and the siblings from `next` on are still unread. */
  ghost function RestOfWalk<T>(fn: nat, sn: nat, r: Digest<T>, proof: seq<Digest<T>>, next: nat): Option<Digest<T>>
    requires fn <= sn && next <= |proof|
  {
    RootFromPath(fn, sn + 1, r, proof[next..])
  }

  lemma WalkStarts<T>(i: nat, n: nat, leaf: Digest<T>, proof: seq<Digest<T>>)
    requires i < n
    ensures RestOfWalk(i, n - 1, leaf, proof, 0) == RootFromPath(i, n, leaf, proof)
  {
    assert proof[0..] == proof;
  }

  /** At the top the walk has its root, if no sibling is left; below it, it needs one. */
  lemma WalkEnds<T>(fn: nat, sn: nat, r: Digest<T>, proof: seq<Digest<T>>, next: nat)
    requires fn <= sn && next <= |proof|
    ensures sn == 0 ==> RestOfWalk(fn, sn, r, proof, next) == if next == |proof| then Some(r) else None
    ensures sn > 0 && next == |proof| ==> RestOfWalk(fn, sn, r, proof, next) == None
  {
  }

  lemma WalkSkips<T>(sn: nat, r: Digest<T>, proof: seq<Digest<T>>, next: nat)
    requires sn > 0 && sn % 2 == 0 && next <= |proof|
    ensures RestOfWalk(sn, sn, r, proof, next) == RestOfWalk(sn / 2, sn / 2, r, proof, next)
  {
    hide RootFromPath;
    LevelPromote(sn + 1, r, proof[next..]);
  }

  lemma WalkMerges<T>(fn: nat, sn: nat, r: Digest<T>, proof: seq<Digest<T>>, next: nat)
    requires fn <= sn && sn > 0 && next < |proof| && (fn % 2 == 1 || fn != sn)
    ensures RestOfWalk(fn, sn, r, proof, next)
         == RestOfWalk(fn / 2, sn / 2,
                       if fn % 2 == 1 then NodeDigest(proof[next], r) else NodeDigest(r, proof[next]), proof, next + 1)
  {
    hide RootFromPath;
    var rest := proof[next..];
    assert rest[0] == proof[next] && rest[1..] == proof[next + 1..];
    LevelMerge(fn, sn + 1, r, rest);
    assert (sn + 2) / 2 == sn / 2 + 1;
  }

  method VerifyInclusion<T(==)>(leaf: Digest<T>, index: int, treeSize: int, proof: seq<Digest<T>>, root: Digest<T>)
    returns (ok: bool)
    ensures ok <==> 0 <= index < treeSize && RootFromPath(index, treeSize, leaf, proof) == Some(root)
  {
    hide *;
    if !(0 <= index < treeSize) {
      return false;
    }
    var fn, sn, r := index, treeSize - 1, leaf;
    var next := 0;
    ghost var target := RootFromPath(index, treeSize, leaf, proof);
    WalkStarts(index, treeSize, leaf, proof);
    while sn > 0
      invariant 0 <= fn <= sn && next <= |proof|
      invariant RestOfWalk(fn, sn, r, proof, next) == target
      decreases sn
    {
      if next == |proof| {
        WalkEnds(fn, sn, r, proof, next);
        return false;
      }
      var sibling := proof[next];
      ghost var r0, sn0 := r, sn;
      if fn % 2 == 1 || fn == sn {
        r := NodeDigest(sibling, r);
        if fn == sn {
          while fn % 2 == 0 && fn != 0
            invariant 0 < fn == sn <= sn0
            invariant RestOfWalk(fn, sn, r0, proof, next) == target
            decreases fn
          {
            WalkSkips(sn, r0, proof, next);
            fn := fn / 2;
            sn := sn / 2;
          }
        }
      } else {
        r := NodeDigest(r, sibling);
      }
      WalkMerges(fn, sn, r0, proof, next);
      next := next + 1;
      fn := fn / 2;
      sn := sn / 2;
    }
    WalkEnds(fn, sn, r, proof, next);
    ok := next == |proof| && r == root;
  }

  // ---------- Length of a path ----------

  function CeilLog2(n: nat): nat
    decreases n
  {
    if n <= 1 then 0 else 1 + CeilLog2((n + 1) / 2)
  }

  lemma {:induction false} CeilLog2OfSplit(n: nat)
    requires n > 1
    ensures CeilLog2(n) == 1 + CeilLog2(Split(n))
    decreases n
  {
    if n > 2 {
      SplitHalves(n);
      CeilLog2OfSplit((n + 1) / 2);
    }
  }

  lemma {:induction false} CeilLog2Monotone(m: nat, n: nat)
    requires m <= n
    ensures CeilLog2(m) <= CeilLog2(n)
    decreases n
  {
    if m > 1 {
      CeilLog2Monotone((m + 1) / 2, (n + 1) / 2);
    }
  }

  lemma {:induction false} PathLength<T>(leaves: seq<Digest<T>>, m: nat)
    requires m < |leaves|
    ensures |Path(m, leaves)| <= CeilLog2(|leaves|)
    decreases |leaves|
  {
    var n := |leaves|;
    if n > 1 {
      var k := Split(n);
      CeilLog2OfSplit(n);
      if m < k {
        PathLength(leaves[..k], m);
      } else {
        CeilLog2Monotone(n - k, k);
        PathLength(leaves[k..], m - k);
      }
    }
  }

  /** The bound is met: no path is longer than the first leaf's. */
  lemma {:induction false} LongestPath<T>(leaves: seq<Digest<T>>)
    requires leaves != []
    ensures |Path(0, leaves)| == CeilLog2(|leaves|)
    decreases |leaves|
  {
    if |leaves| > 1 {
      CeilLog2OfSplit(|leaves|);
      LongestPath(leaves[..Split(|leaves|)]);
    }
  }

  // ---------- The main results about audit paths ----------

  /** A proof is made for every leaf there is, and it leads to the root; otherwise the error says
      whether the tree or the index is to blame. */
  lemma ProofLeadsToRoot<T>(leaves: seq<Digest<T>>, index: int)
    ensures match InclusionProof(leaves, index)
            case Ok(proof) =>
              0 <= index < |leaves| && RootFromPath(index, |leaves|, leaves[index], proof) == Some(Mth(leaves))
            case Err(EmptyLeaves) => leaves == []
            case Err(IndexOutOfRange) => leaves != [] && (index < 0 || |leaves| <= index)
  {
    if 0 <= index < |leaves| {
      PathIffMember(leaves, index, leaves[index], Path(index, leaves));
    }
  }

  /** The iterative verifier, run against the true root, accepts exactly the leaf that is
      there, and only with its own audit path. */
  method CheckInclusion<T(==)>(leaves: seq<Digest<T>>, index: int, leaf: Digest<T>, proof: seq<Digest<T>>)
    returns (ok: bool)
    ensures ok <==> 0 <= index < |leaves| && leaf == leaves[index] && InclusionProof(leaves, index) == Ok(proof)
  {
    ok := VerifyInclusion(leaf, index, |leaves|, proof, Mth(leaves));
    if 0 <= index < |leaves| {
      PathIffMember(leaves, index, leaf, proof);
    }
  }

  // ---------- The level-by-level root ----------

  /** Hash neighbours together; promote an odd last node. */
  function PairUp<T>(level: seq<Digest<T>>): (up: seq<Digest<T>>)
    ensures |up| == (|level| + 1) / 2
  {
    if |level| <= 1 then level
    else [NodeDigest(level[0], level[1])] + PairUp(level[2..])
  }

  lemma {:induction false} PairUpConcat<T>(a: seq<Digest<T>>, b: seq<Digest<T>>)
    requires |a| % 2 == 0
    ensures PairUp(a + b) == PairUp(a) + PairUp(b)
    decreases |a|
  {
    if a == [] {
      assert a + b == b;
    } else {
      PairUpConcat(a[2..], b);
      assert (a + b)[2..] == a[2..] + b;
    }
  }

  lemma MthSplits<T>(a: seq<Digest<T>>, b: seq<Digest<T>>)
    requires |a + b| > 1 && |a| == Split(|a + b|)
    ensures Mth(a + b) == NodeDigest(Mth(a), Mth(b))
  {
    assert (a + b)[..|a|] == a && (a + b)[|a|..] == b;
  }

  /** Pairing one level leaves the recursive tree hash unchanged. */
  lemma {:induction false} PairUpKeepsMth<T>(level: seq<Digest<T>>)
    ensures Mth(PairUp(level)) == Mth(level)
    decreases |level|
  {
    if |level| == 2 {
      assert level == [level[0]] + [level[1]];
      MthSplits([level[0]], [level[1]]);
    } else if |level| > 2 {
      PairUpKeepsSplit(level);
    }
  }

  lemma {:induction false} PairUpKeepsSplit<T>(level: seq<Digest<T>>)
    requires |level| > 2
    ensures Mth(PairUp(level)) == Mth(level)
    decreases |level|, 0
  {
    hide *;
    var n := |level|;
    SplitHalves(n);
    var k := Split(n);
    var a, b := level[..k], level[k..];
    assert level == a + b;
    PairUpConcat(a, b);
    PairUpKeepsMth(a);
    PairUpKeepsMth(b);
    MthSplits(a, b);
    MthSplits(PairUp(a), PairUp(b));
  }

  /** One round of the level-by-level loop. */
  method PairLevel<T>(level: seq<Digest<T>>) returns (nxt: seq<Digest<T>>)
    ensures nxt == PairUp(level)
  {
    nxt := [];
    var i := 0;
    while i < |level|
      invariant 0 <= i <= |level|
      invariant nxt + PairUp(level[i..]) == PairUp(level)
    {
      if i + 1 < |level| {
        assert level[i..][2..] == level[i + 2..];
        nxt, i := nxt + [NodeDigest(level[i], level[i + 1])], i + 2;
      } else {
        assert level[i..] == [level[i]];
        nxt, i := nxt + [level[i]], i + 1;
      }
    }
  }

  /** `merkle_root` of the page bundles: `None` stands for the empty string it returns on no pages. */
  method LevelRoot<T>(leaves: seq<Digest<T>>) returns (root: Option<Digest<T>>)
    ensures root == if leaves == [] then None else Some(Mth(leaves))
  {
    if leaves == [] {
      return None;
    }
    var level := leaves;
    while |level| > 1
      invariant level != [] && Mth(level) == Mth(leaves)
      decreases |level|
    {
      PairUpKeepsMth(level);
      level := PairLevel(level);
    }
    root := Some(level[0]);
  }

  // ---------- Binding ----------

  function Leaves<T>(data: seq<T>): (leaves: seq<Digest<T>>)
    ensures |leaves| == |data|
    ensures forall k :: 0 <= k < |data| ==> leaves[k] == LeafDigest(data[k])
  {
    seq(|data|, k requires 0 <= k < |data| => LeafDigest(data[k]))
  }

  lemma LeavesConcat<T>(a: seq<T>, b: seq<T>)
    ensures Leaves(a + b) == Leaves(a) + Leaves(b)
  {
  }

  lemma RootShape<T>(a: seq<T>)
    ensures Mth(Leaves(a)).EmptyDigest? <==> |a| == 0
    ensures Mth(Leaves(a)).LeafDigest? <==> |a| == 1
    ensures |a| == 1 ==> Mth(Leaves(a)) == LeafDigest(a[0])
  {
  }

  lemma RootSplits<T>(a: seq<T>)
    requires |a| > 1
    ensures Mth(Leaves(a)) == NodeDigest(Mth(Leaves(a[..Split(|a|)])), Mth(Leaves(a[Split(|a|)..])))
  {
    hide *;
    var k := Split(|a|);
    assert a == a[..k] + a[k..];
    LeavesConcat(a[..k], a[k..]);
    MthSplits(Leaves(a[..k]), Leaves(a[k..]));
  }

  /** Two lists with the same root are the same list, lengths included. */
  lemma {:induction false} RootBindsList<T>(a: seq<T>, b: seq<T>)
    requires Mth(Leaves(a)) == Mth(Leaves(b))
    ensures a == b
    decreases |a|
  {
    hide *;
    RootShape(a);
    RootShape(b);
    if |a| > 1 {
      RootSplits(a);
      RootSplits(b);
      var j, k := Split(|a|), Split(|b|);
      RootBindsList(a[..j], b[..k]);
      RootBindsList(a[j..], b[k..]);
      assert a == a[..j] + a[j..] && b == b[..k] + b[k..];
    }
  }
}
