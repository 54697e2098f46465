/**
 The Merkle kernel: the level-by-level tree, its proofs and their verifier.

 Digests are free terms. A leaf hash and an internal hash are different
 constructors, so two hashes are equal only when they were computed from equal
 inputs in the same domain. `Opaque` stands for every other well-formed 32-byte
 hex string, `Malformed` for a string that is not one.
 */
module Merkle {
  import opened Wrappers
  import opened Text
  import opened Arithmetic

  datatype Digest =
    | Leaf(data: Text)
    | Node(left: Digest, right: Digest)
    | Opaque(id: nat)
    | Malformed(text: Text)

  datatype Side = Left | Right
  datatype ProofStep = ProofStep(hash: Digest, side: Side)
  datatype MerkleTree = MerkleTree(levels: seq<seq<Digest>>, root: Digest)
  datatype MerkleError = NoLeaves | BadLeaf(at: nat) | IndexOutOfRange(index: int, count: nat)

  predicate WellFormed(h: Digest) {
    !h.Malformed?
  }

  // ----- the specification: levels, root, path -----

  /** One level up: neighbours are paired, a lone last node is promoted. */
  function NextLevel(level: seq<Digest>): (next: seq<Digest>)
    ensures |next| == (|level| + 1) / 2
  {
    if |level| <= 1 then level
    else [Node(level[0], level[1])] + NextLevel(level[2..])
  }

  function Levels(level: seq<Digest>): (levels: seq<seq<Digest>>)
    requires |level| > 0
    ensures |levels| > 0 && levels[0] == level
    ensures |levels[|levels| - 1]| == 1
    decreases |level|
  {
    if |level| == 1 then [level] else [level] + Levels(NextLevel(level))
  }

  function Root(level: seq<Digest>): Digest
    requires |level| > 0
    decreases |level|
  {
    if |level| == 1 then level[0] else Root(NextLevel(level))
  }

  /** The sibling of position i, if that position has one. */
  function Sibling(level: seq<Digest>, i: nat): seq<ProofStep>
    requires i < |level|
  {
    if i % 2 == 1 then [ProofStep(level[i - 1], Left)]
    else if i + 1 < |level| then [ProofStep(level[i + 1], Right)]
    else []
  }

  function Path(level: seq<Digest>, i: nat): seq<ProofStep>
    requires i < |level|
    decreases |level|
  {
    if |level| == 1 then [] else Sibling(level, i) + Path(NextLevel(level), i / 2)
  }

  function Combine(acc: Digest, step: ProofStep): Digest {
    if step.side == Left then Node(step.hash, acc) else Node(acc, step.hash)
  }

  function Fold(acc: Digest, proof: seq<ProofStep>): Digest
    decreases |proof|
  {
    if proof == [] then acc else Fold(Combine(acc, proof[0]), proof[1..])
  }

  predicate Accepts(leaf: Digest, proof: seq<ProofStep>, root: Digest) {
    && WellFormed(leaf)
    && WellFormed(root)
    && (forall k | 0 <= k < |proof| :: WellFormed(proof[k].hash))
    && Fold(leaf, proof) == root
  }

  predicate AllWellFormed(leaves: seq<Digest>) {
    forall k | 0 <= k < |leaves| :: WellFormed(leaves[k])
  }

  /** Every entry is the leaf hash of some data. */
  predicate Hashed(leaves: seq<Digest>) {
    forall k | 0 <= k < |leaves| :: leaves[k].Leaf?
  }

  // ----- section 2.1 of RFC 6962, the independent reference -----

  /** The largest power of two below n. */
  function SplitPoint(n: nat): (k: nat)
    requires n >= 2
    ensures 1 <= k < n <= 2 * k
  {
    if n == 2 then 1 else 2 * SplitPoint((n + 1) / 2)
  }

  function RfcRoot(s: seq<Digest>): Digest
    requires |s| > 0
    decreases |s|
  {
    if |s| == 1 then s[0]
    else var k := SplitPoint(|s|); Node(RfcRoot(s[..k]), RfcRoot(s[k..]))
  }

  /** The audit path of section 2.1.1, bottom step first, with each side recorded. */
  function RfcPath(s: seq<Digest>, m: nat): seq<ProofStep>
    requires m < |s|
    decreases |s|
  {
    if |s| == 1 then []
    else
      var k := SplitPoint(|s|);
      if m < k then RfcPath(s[..k], m) + [ProofStep(RfcRoot(s[k..]), Right)]
      else RfcPath(s[k..], m - k) + [ProofStep(RfcRoot(s[..k]), Left)]
  }

  /** SplitPoint is the power of two that the RFC names. */
  lemma {:induction false} SplitPointIsPowerOfTwo(n: nat) returns (e: nat)
    requires n >= 2
    ensures SplitPoint(n) == Pow2(e)
    ensures Pow2(e) < n <= Pow2(e + 1)
  {
    if n == 2 {
      e := 0;
    } else {
      var d := SplitPointIsPowerOfTwo((n + 1) / 2);
      e := d + 1;
    }
  }

  // ----- pairing commutes with splitting at an even position -----

  lemma {:induction false} NextLevelSplit(a: seq<Digest>, b: seq<Digest>)
    requires |a| % 2 == 0
    ensures NextLevel(a + b) == NextLevel(a) + NextLevel(b)
  {
    if a == [] {
      assert a + b == b;
    } else {
      assert (a + b)[2..] == a[2..] + b;
      NextLevelSplit(a[2..], b);
      if |a + b| <= 1 { assert false; }
      assert NextLevel(a + b) == [Node(a[0], a[1])] + (NextLevel(a[2..]) + NextLevel(b));
      assert NextLevel(a) == [Node(a[0], a[1])] + NextLevel(a[2..]);
    }
  }

  /** The next level splits where the level does. */
  lemma {:induction false} NextLevelHalves(s: seq<Digest>)
    requires |s| > 2
    ensures var k := SplitPoint(|s|); var t := NextLevel(s);
            && k % 2 == 0 && SplitPoint(|t|) == k / 2
            && t == NextLevel(s[..k]) + NextLevel(s[k..])
            && t[..k / 2] == NextLevel(s[..k]) && t[k / 2..] == NextLevel(s[k..])
  {
    var k := SplitPoint(|s|);
    assert s == s[..k] + s[k..];
    NextLevelSplit(s[..k], s[k..]);
  }

  lemma {:induction false} RfcRootOfNextLevel(s: seq<Digest>)
    requires |s| >= 2
    ensures RfcRoot(s) == RfcRoot(NextLevel(s))
    decreases |s|
  {
    var k := SplitPoint(|s|);
    if |s| > 2 {
      NextLevelHalves(s);
      RfcRootOfNextLevel(s[..k]);
      if |s[k..]| >= 2 { RfcRootOfNextLevel(s[k..]); }
    } else {
      assert s[..1] == [s[0]] && s[1..] == [s[1]];
    }
  }

  /** The loop with odd-node promotion builds the tree of RFC 6962. */
  lemma {:induction false} RootIsRfcRoot(leaves: seq<Digest>)
    requires |leaves| > 0
    ensures Root(leaves) == RfcRoot(leaves)
    decreases |leaves|
  {
    if |leaves| > 1 {
      RfcRootOfNextLevel(leaves);
      RootIsRfcRoot(NextLevel(leaves));
    }
  }

  lemma Parts(s: seq<Digest>, a: seq<Digest>, b: seq<Digest>)
    requires s == a + b
    ensures s[..|a|] == a && s[|a|..] == b
  {
  }

  lemma RfcPathUnfold(s: seq<Digest>, m: nat)
    requires |s| >= 2 && m < |s|
    ensures var k := SplitPoint(|s|);
            RfcPath(s, m) == if m < k then RfcPath(s[..k], m) + [ProofStep(RfcRoot(s[k..]), Right)]
                             else RfcPath(s[k..], m - k) + [ProofStep(RfcRoot(s[..k]), Left)]
  {
  }

  lemma RfcPathInLeft(s: seq<Digest>, m: nat, a: seq<Digest>, b: seq<Digest>)
    requires |s| >= 2 && s == a + b && |a| == SplitPoint(|s|) && m < |a|
    ensures RfcPath(s, m) == RfcPath(a, m) + [ProofStep(RfcRoot(b), Right)]
  {
    Parts(s, a, b);
    RfcPathUnfold(s, m);
  }

  lemma RfcPathInRight(s: seq<Digest>, m: nat, a: seq<Digest>, b: seq<Digest>, j: nat)
    requires |s| >= 2 && s == a + b && |a| == SplitPoint(|s|) && m == |a| + j && j < |b|
    ensures RfcPath(s, m) == RfcPath(b, j) + [ProofStep(RfcRoot(a), Left)]
  {
    Parts(s, a, b);
    RfcPathUnfold(s, m);
  }

  lemma SiblingOfHalf(a: seq<Digest>, b: seq<Digest>, j: nat)
    requires |a| % 2 == 0
    ensures j < |a| ==> Sibling(a + b, j) == Sibling(a, j)
    ensures j < |b| ==> Sibling(a + b, |a| + j) == Sibling(b, j)
  {
    var s, n := a + b, |a|;
    if j < |a| {
      assert s[j] == a[j];
      if j % 2 == 1 {
        assert s[j - 1] == a[j - 1];
      } else {
        assert j + 1 < |a| && s[j + 1] == a[j + 1];
      }
    }
    if j < |b| { SiblingInRight(s, b, n, j, n + j); }
  }

  lemma SiblingInRight(s: seq<Digest>, b: seq<Digest>, n: nat, j: nat, m: nat)
    requires n % 2 == 0 && m == n + j && j < |b| && |s| == n + |b| && s[n..] == b
    ensures Sibling(s, m) == Sibling(b, j)
  {
    assert m % 2 == j % 2;
    assert forall i | 0 <= i < |b| :: s[n..][i] == b[i];
    if j % 2 == 1 {
      assert s[m - 1] == b[j - 1];
    } else if j + 1 < |b| {
      assert s[m + 1] == b[j + 1];
    }
  }

  lemma {:induction false} RfcPathOfNextLevel(s: seq<Digest>, m: nat)
    requires m < |s| && |s| >= 2
    ensures RfcPath(s, m) == Sibling(s, m) + RfcPath(NextLevel(s), m / 2)
    decreases |s|, 1
  {
    var k := SplitPoint(|s|);
    if |s| > 2 {
      NextLevelHalves(s);
      assert s == s[..k] + s[k..];
      if m < k {
        RfcPathOfNextLeft(s, s[..k], s[k..], m);
      } else {
        RfcPathOfNextRight(s, s[..k], s[k..], m, m - k);
      }
    } else {
      assert s[..1] == [s[0]] && s[1..] == [s[1]];
    }
  }

  ghost predicate Halves(s: seq<Digest>, a: seq<Digest>, b: seq<Digest>) {
    && |s| > 2 && s == a + b && |a| == SplitPoint(|s|) && |a| % 2 == 0
    && NextLevel(s) == NextLevel(a) + NextLevel(b) && SplitPoint(|NextLevel(s)|) == |a| / 2
  }

  lemma LastStepStays(h: seq<Digest>, j: nat, last: seq<ProofStep>)
    requires j < |h| && (|h| >= 2 ==> RfcPath(h, j) == Sibling(h, j) + RfcPath(NextLevel(h), j / 2))
    ensures RfcPath(h, j) + last == Sibling(h, j) + (RfcPath(NextLevel(h), j / 2) + last)
  {
    if |h| >= 2 {
      Assoc(Sibling(h, j), RfcPath(NextLevel(h), j / 2), last);
    } else {
      assert Sibling(h, j) == [] && NextLevel(h) == h;
    }
  }

  lemma {:induction false} RfcPathOfNextLeft(s: seq<Digest>, a: seq<Digest>, b: seq<Digest>, m: nat)
    requires Halves(s, a, b) && m < |a|
    ensures RfcPath(s, m) == Sibling(s, m) + RfcPath(NextLevel(s), m / 2)
    decreases |s|, 0
  {
    if |a| >= 2 { RfcPathOfNextLevel(a, m); }
    LastStepStays(a, m, [ProofStep(RfcRoot(b), Right)]);
    LeftOfNext(s, a, b, m);
  }

  lemma LeftOfNext(s: seq<Digest>, a: seq<Digest>, b: seq<Digest>, m: nat)
    requires Halves(s, a, b) && m < |a|
    ensures RfcPath(s, m) == RfcPath(a, m) + [ProofStep(RfcRoot(b), Right)]
    ensures RfcPath(NextLevel(s), m / 2) == RfcPath(NextLevel(a), m / 2) + [ProofStep(RfcRoot(b), Right)]
    ensures Sibling(s, m) == Sibling(a, m)
  {
    RfcPathInLeft(s, m, a, b);
    RfcPathInLeft(NextLevel(s), m / 2, NextLevel(a), NextLevel(b));
    SiblingOfHalf(a, b, m);
    if |b| >= 2 { RfcRootOfNextLevel(b); }
  }

  lemma {:induction false} RfcPathOfNextRight(s: seq<Digest>, a: seq<Digest>, b: seq<Digest>, m: nat, j: nat)
    requires Halves(s, a, b) && m == |a| + j && j < |b|
    ensures RfcPath(s, m) == Sibling(s, m) + RfcPath(NextLevel(s), m / 2)
    decreases |s|, 0
  {
    if |b| >= 2 { RfcPathOfNextLevel(b, j); }
    LastStepStays(b, j, [ProofStep(RfcRoot(a), Left)]);
    RightOfNext(s, a, b, m, j);
  }

  lemma RightOfNext(s: seq<Digest>, a: seq<Digest>, b: seq<Digest>, m: nat, j: nat)
    requires Halves(s, a, b) && m == |a| + j && j < |b|
    ensures RfcPath(s, m) == RfcPath(b, j) + [ProofStep(RfcRoot(a), Left)]
    ensures m / 2 < |NextLevel(s)|
    ensures RfcPath(NextLevel(s), m / 2) == RfcPath(NextLevel(b), j / 2) + [ProofStep(RfcRoot(a), Left)]
    ensures Sibling(s, m) == Sibling(b, j)
  {
    RfcPathInRight(s, m, a, b, j);
    HalfOfSum(|a|, j);
    RightAbove(s, a, b, m / 2, j);
    SiblingOfHalf(a, b, j);
  }

  lemma HalfOfSum(n: nat, j: nat)
    requires n % 2 == 0
    ensures (n + j) / 2 == n / 2 + j / 2
  {
  }

  lemma RightAbove(s: seq<Digest>, a: seq<Digest>, b: seq<Digest>, up: nat, j: nat)
    requires Halves(s, a, b) && j < |b| && up == |a| / 2 + j / 2
    ensures RfcPath(NextLevel(s), up) == RfcPath(NextLevel(b), j / 2) + [ProofStep(RfcRoot(a), Left)]
  {
    RfcPathInRight(NextLevel(s), up, NextLevel(a), NextLevel(b), j / 2);
    RfcRootOfNextLevel(a);
  }

  /** The proof read off the levels is the audit path of RFC 6962. */
  lemma {:induction false} PathIsRfcPath(leaves: seq<Digest>, i: nat)
    requires i < |leaves|
    ensures Path(leaves, i) == RfcPath(leaves, i)
    decreases |leaves|
  {
    if |leaves| > 1 {
      RfcPathOfNextLevel(leaves, i);
      PathIsRfcPath(NextLevel(leaves), i / 2);
    }
  }

  // ----- the root commits to the ordered list -----

  /** The leaves of a term from left to right. */
  function Fringe(t: Digest): seq<Digest> {
    match t
    case Node(l, r) => Fringe(l) + Fringe(r)
    case _ => [t]
  }

  lemma {:induction false} FringeOfRfcRoot(s: seq<Digest>)
    requires |s| > 0 && Hashed(s)
    ensures Fringe(RfcRoot(s)) == s
    decreases |s|
  {
    if |s| > 1 {
      var k := SplitPoint(|s|);
      FringeOfRfcRoot(s[..k]);
      FringeOfRfcRoot(s[k..]);
      assert s == s[..k] + s[k..];
    } else {
      assert s == [s[0]];
    }
  }

  /** Reading the root term's leaves gives the input list back. */
  lemma RootFringe(leaves: seq<Digest>)
    requires |leaves| > 0 && Hashed(leaves)
    ensures Fringe(Root(leaves)) == leaves
  {
    RootIsRfcRoot(leaves);
    FringeOfRfcRoot(leaves);
  }

  /** Equal roots mean equal lists, across all lengths: no duplicated last node. */
  lemma RootCommits(a: seq<Digest>, b: seq<Digest>)
    requires |a| > 0 && |b| > 0 && Hashed(a) && Hashed(b)
    ensures Root(a) == Root(b) <==> a == b
  {
    RootFringe(a);
    RootFringe(b);
  }

  // ----- completeness, size and soundness of proofs -----

  lemma {:induction false} FoldAppend(acc: Digest, p: seq<ProofStep>, q: seq<ProofStep>)
    ensures Fold(acc, p + q) == Fold(Fold(acc, p), q)
    decreases |p|
  {
    if p == [] {
      assert p + q == q;
    } else {
      assert (p + q)[1..] == p[1..] + q;
      FoldAppend(Combine(acc, p[0]), p[1..], q);
    }
  }

  lemma {:induction false} FoldLast(acc: Digest, p: seq<ProofStep>)
    requires p != []
    ensures Fold(acc, p) == Combine(Fold(acc, p[..|p| - 1]), p[|p| - 1])
  {
    var n := |p| - 1;
    assert p == p[..n] + [p[n]];
    FoldAppend(acc, p[..n], [p[n]]);
    var mid := Fold(acc, p[..n]);
    assert [p[n]][1..] == [];
    assert Fold(mid, [p[n]]) == Fold(Combine(mid, p[n]), []);
  }

  lemma {:induction false} RfcPathFolds(s: seq<Digest>, m: nat)
    requires m < |s| && AllWellFormed(s)
    ensures Fold(s[m], RfcPath(s, m)) == RfcRoot(s)
    ensures WellFormed(RfcRoot(s))
    ensures forall k | 0 <= k < |RfcPath(s, m)| :: WellFormed(RfcPath(s, m)[k].hash)
    decreases |s|
  {
    if |s| > 1 {
      var k := SplitPoint(|s|);
      var p := RfcPath(s, m);
      RfcPathFolds(s[..k], if m < k then m else 0);
      RfcPathFolds(s[k..], if m < k then 0 else m - k);
      FoldLast(s[m], p);
      assert p[..|p| - 1] == if m < k then RfcPath(s[..k], m) else RfcPath(s[k..], m - k);
    }
  }

  /** Every proof that is handed out is accepted. */
  lemma ProofComplete(leaves: seq<Digest>, i: nat)
    requires i < |leaves| && AllWellFormed(leaves)
    ensures Accepts(leaves[i], Path(leaves, i), Root(leaves))
  {
    RootIsRfcRoot(leaves);
    PathIsRfcPath(leaves, i);
    RfcPathFolds(leaves, i);
  }

  /** A proof has at most ceil(log2 n) steps. */
  lemma {:induction false} ProofSize(leaves: seq<Digest>, i: nat, m: nat)
    requires i < |leaves| <= Pow2(m)
    ensures |Path(leaves, i)| <= m
    decreases |leaves|
  {
    if |leaves| > 1 {
      ProofSize(NextLevel(leaves), i / 2, m - 1);
    }
  }

  /** The node that the path from leaf i has reached after k steps. */
  predicate OnPath(s: seq<Digest>, i: nat, k: nat, t: Digest, proof: seq<ProofStep>) {
    && i < |s| && k <= |RfcPath(s, i)|
    && proof == RfcPath(s, i)[k..] && t == Fold(s[i], RfcPath(s, i)[..k])
  }

  lemma PathExtends(p: seq<ProofStep>, q: seq<ProofStep>, step: ProofStep, k: nat)
    requires p == q + [step] && k <= |q|
    ensures p[k..] == q[k..] + [step] && p[..k] == q[..k]
  {
  }

  lemma OnPathInLeft(s: seq<Digest>, a: seq<Digest>, b: seq<Digest>, i: nat, k: nat, t: Digest, before: seq<ProofStep>)
    requires |s| >= 2 && s == a + b && |a| == SplitPoint(|s|) && OnPath(a, i, k, t, before)
    ensures OnPath(s, i, k, t, before + [ProofStep(RfcRoot(b), Right)])
  {
    RfcPathInLeft(s, i, a, b);
    PathExtends(RfcPath(s, i), RfcPath(a, i), ProofStep(RfcRoot(b), Right), k);
  }

  lemma OnPathInRight(s: seq<Digest>, a: seq<Digest>, b: seq<Digest>, i: nat, j: nat, k: nat, t: Digest, before: seq<ProofStep>)
    requires |s| >= 2 && s == a + b && |a| == SplitPoint(|s|) && OnPath(b, j, k, t, before) && i == |a| + j
    ensures OnPath(s, i, k, t, before + [ProofStep(RfcRoot(a), Left)])
  {
    RfcPathInRight(s, i, a, b, j);
    PathExtends(RfcPath(s, i), RfcPath(b, j), ProofStep(RfcRoot(a), Left), k);
  }

  lemma RootOnPath(s: seq<Digest>)
    requires |s| > 0 && Hashed(s)
    ensures OnPath(s, 0, |RfcPath(s, 0)|, RfcRoot(s), [])
  {
    RfcPathFolds(s, 0);
    var p := RfcPath(s, 0);
    assert p[..|p|] == p && p[|p|..] == [];
  }

  /** The last step of a path to the root comes from one half and carries the
      root of the other. */
  lemma RootOfHalves(t: Digest, before: seq<ProofStep>, last: ProofStep, s: seq<Digest>, a: seq<Digest>, b: seq<Digest>)
    requires |s| > 0 && Hashed(s) && Fold(t, before + [last]) == RfcRoot(s)
    requires |s| > 1 ==> a == s[..SplitPoint(|s|)] && b == s[SplitPoint(|s|)..]
    ensures |s| > 1
    ensures if last.side == Left then Fold(t, before) == RfcRoot(b) && last.hash == RfcRoot(a)
            else Fold(t, before) == RfcRoot(a) && last.hash == RfcRoot(b)
  {
    var proof := before + [last];
    FoldLast(t, proof);
    assert proof[..|proof| - 1] == before;
  }

  /** Whatever folds to the root of hashed leaves is a node on the path of some
      leaf, with what is left of that path. */
  lemma {:induction false} RfcSound(t: Digest, proof: seq<ProofStep>, s: seq<Digest>) returns (i: nat, k: nat)
    requires |s| > 0 && Hashed(s)
    requires Fold(t, proof) == RfcRoot(s)
    ensures OnPath(s, i, k, t, proof)
    decreases |s|
  {
    if proof == [] {
      RootOnPath(s);
      i, k := 0, |RfcPath(s, 0)|;
    } else {
      var before, last := proof[..|proof| - 1], proof[|proof| - 1];
      assert proof == before + [last];
      var m := if |s| > 1 then SplitPoint(|s|) else 0;
      var a, b := s[..m], s[m..];
      assert s == a + b;
      RootOfHalves(t, before, last, s, a, b);
      if last.side == Left {
        var j: nat;
        j, k := RfcSound(t, before, b);
        i := m + j;
        OnPathInRight(s, a, b, i, j, k, t, before);
      } else {
        i, k := RfcSound(t, before, a);
        OnPathInLeft(s, a, b, i, k, t, before);
      }
    }
  }

  lemma OnPathFolds(s: seq<Digest>, i: nat, k: nat, t: Digest, proof: seq<ProofStep>)
    requires Hashed(s) && OnPath(s, i, k, t, proof)
    ensures WellFormed(t) && Accepts(t, proof, RfcRoot(s))
    ensures t.Leaf? <==> k == 0
  {
    var p := RfcPath(s, i);
    RfcPathFolds(s, i);
    assert p == p[..k] + p[k..];
    FoldAppend(s[i], p[..k], p[k..]);
    if k > 0 { FoldLast(s[i], p[..k]); }
  }

  /** Exactly what is accepted against the root of hashed leaves, whatever the
      leaf argument: a node on the path of some leaf, with the rest of that path. */
  lemma AcceptedIsOnPath(t: Digest, proof: seq<ProofStep>, leaves: seq<Digest>)
    requires |leaves| > 0 && Hashed(leaves)
    ensures Accepts(t, proof, Root(leaves)) <==> exists i: nat, k: nat :: OnPath(leaves, i, k, t, proof)
  {
    RootIsRfcRoot(leaves);
    if Accepts(t, proof, Root(leaves)) {
      var i, k := RfcSound(t, proof, leaves);
    }
    if exists i: nat, k: nat :: OnPath(leaves, i, k, t, proof) {
      var i: nat, k: nat :| OnPath(leaves, i, k, t, proof);
      OnPathFolds(leaves, i, k, t, proof);
    }
  }

  /** What is accepted is one of the leaves exactly when it is a leaf hash, which
      is what recomputing it from data makes it. */
  lemma AcceptedIsLeafExactlyWhenHashed(t: Digest, proof: seq<ProofStep>, leaves: seq<Digest>)
    requires |leaves| > 0 && Hashed(leaves) && Accepts(t, proof, Root(leaves))
    ensures t in leaves <==> t.Leaf?
  {
    RootIsRfcRoot(leaves);
    var i, k := RfcSound(t, proof, leaves);
    OnPathFolds(leaves, i, k, t, proof);
    if t.Leaf? { assert t == leaves[i]; }
  }

  /** The verifier accepts a leaf hash against the root of hashed leaves exactly
      when the data sits at some index and the proof is the one built for that
      index: no shorter, longer or side-flipped path passes. */
  lemma ProofSound(d: Text, proof: seq<ProofStep>, leaves: seq<Digest>)
    requires |leaves| > 0 && Hashed(leaves)
    ensures Accepts(Leaf(d), proof, Root(leaves))
       <==> exists i: nat :: i < |leaves| && leaves[i] == Leaf(d) && proof == Path(leaves, i)
  {
    RootIsRfcRoot(leaves);
    if Accepts(Leaf(d), proof, Root(leaves)) {
      var i, k := RfcSound(Leaf(d), proof, leaves);
      OnPathFolds(leaves, i, k, Leaf(d), proof);
      PathIsRfcPath(leaves, i);
      assert i < |leaves| && leaves[i] == Leaf(d) && proof == Path(leaves, i);
    }
    if exists i: nat :: i < |leaves| && leaves[i] == Leaf(d) && proof == Path(leaves, i) {
      var i: nat :| i < |leaves| && leaves[i] == Leaf(d) && proof == Path(leaves, i);
      ProofComplete(leaves, i);
    }
  }

  /** So every inner node of every tree, offered as a leaf, is accepted with the
      upper part of a path, and is none of the leaves. */
  lemma InnerHashPassesAsLeaf(leaves: seq<Digest>, i: nat, k: nat)
    requires Hashed(leaves) && i < |leaves| && 0 < k <= |RfcPath(leaves, i)|
    ensures var t := Fold(leaves[i], RfcPath(leaves, i)[..k]);
            Accepts(t, RfcPath(leaves, i)[k..], Root(leaves)) && t !in leaves
  {
    RootIsRfcRoot(leaves);
    var p := RfcPath(leaves, i);
    var t := Fold(leaves[i], p[..k]);
    OnPathFolds(leaves, i, k, t, p[k..]);
  }

  // ----- the levels -----

  /** Each node above is the hash of two neighbours, or a lone last one promoted. */
  lemma {:induction false} NextLevelAt(level: seq<Digest>, i: nat)
    requires 2 * i < |level|
    ensures i < |NextLevel(level)|
    ensures NextLevel(level)[i] == if 2 * i + 1 < |level| then Node(level[2 * i], level[2 * i + 1]) else level[2 * i]
    decreases i
  {
    if i > 0 {
      NextLevelAt(level[2..], i - 1);
      assert level[2..][2 * (i - 1)] == level[2 * i];
      assert 2 * i + 1 < |level| ==> level[2..][2 * (i - 1) + 1] == level[2 * i + 1];
    }
  }

  /** The levels start with the leaves, each is the one above the one before, and the
      last is the root alone. */
  lemma {:induction false} LevelsAre(leaves: seq<Digest>, k: nat)
    requires leaves != [] && k < |Levels(leaves)|
    ensures Levels(leaves)[0] == leaves && Levels(leaves)[|Levels(leaves)| - 1] == [Root(leaves)]
    ensures k + 1 < |Levels(leaves)| ==> Levels(leaves)[k + 1] == NextLevel(Levels(leaves)[k])
    decreases |leaves|
  {
    if |leaves| > 1 {
      var above := Levels(NextLevel(leaves));
      assert Levels(leaves) == [leaves] + above;
      LevelsAre(NextLevel(leaves), if k == 0 then 0 else k - 1);
    } else {
      assert leaves == [Root(leaves)];
    }
  }

  // ----- the code -----

  /** There are no leaves, or the first bad one is named. */
  predicate ComplainsOf(leaves: seq<Digest>, e: MerkleError) {
    if leaves == [] then e == NoLeaves
    else e.BadLeaf? && e.at < |leaves| && !WellFormed(leaves[e.at]) && AllWellFormed(leaves[..e.at])
  }

  method AssertLeaves(leaves: seq<Digest>) returns (r: Result<(), MerkleError>)
    ensures r.Ok? <==> |leaves| > 0 && AllWellFormed(leaves)
    ensures r.Err? ==> ComplainsOf(leaves, r.error)
  {
    if |leaves| == 0 {
      return Err(NoLeaves);
    }
    for i := 0 to |leaves|
      invariant AllWellFormed(leaves[..i])
    {
      if !WellFormed(leaves[i]) {
        return Err(BadLeaf(i));
      }
    }
    assert leaves[..|leaves|] == leaves;
    return Ok(());
  }

  /** The first i nodes of a level, or all of them. */
  function Upto(level: seq<Digest>, i: nat): seq<Digest> {
    if i <= |level| then level[..i] else level
  }

  lemma {:induction false} NextLevelAppend(level: seq<Digest>, i: nat)
    requires i % 2 == 0 && i < |level|
    ensures NextLevel(Upto(level, i + 2))
         == NextLevel(Upto(level, i)) + [if i + 1 < |level| then Node(level[i], level[i + 1]) else level[i]]
  {
    var a := level[..i];
    if i + 1 < |level| {
      var b := [level[i], level[i + 1]];
      assert Upto(level, i + 2) == a + b && b[2..] == [];
      NextLevelSplit(a, b);
    } else {
      assert Upto(level, i + 2) == a + [level[i]];
      NextLevelSplit(a, [level[i]]);
    }
  }

  lemma LevelsTail(level: seq<Digest>)
    requires |level| > 1
    ensures Levels(level)[1..] == Levels(NextLevel(level))
  {
    assert Levels(level) == [level] + Levels(NextLevel(level));
  }

  /** The inner loop: one level from the one below it. */
  method PairUp(current: seq<Digest>) returns (next: seq<Digest>)
    ensures next == NextLevel(current)
  {
    next := [];
    var i := 0;
    while i < |current|
      invariant 0 <= i <= |current| + 1 && i % 2 == 0
      invariant next == NextLevel(Upto(current, i))
    {
      NextLevelAppend(current, i);
      var left := current[i];
      if i + 1 < |current| {
        next := next + [Node(left, current[i + 1])];
      } else {
        next := next + [left];
      }
      i := i + 2;
    }
    assert Upto(current, i) == current;
  }

  lemma OneMoreLevel(levels: seq<seq<Digest>>, current: seq<Digest>, next: seq<Digest>)
    requires |current| > 1 && next == NextLevel(current)
    ensures levels + Levels(current)[1..] == (levels + [next]) + Levels(next)[1..]
  {
    LevelsTail(current);
    var above := Levels(next);
    assert above == [next] + above[1..];
    Assoc(levels, [next], above[1..]);
  }

  lemma LastLevel(levels: seq<seq<Digest>>, current: seq<Digest>)
    requires |current| == 1
    ensures levels + Levels(current)[1..] == levels
  {
    assert Levels(current)[1..] == [];
  }

  method BuildMerkleTree(leaves: seq<Digest>) returns (r: Result<MerkleTree, MerkleError>)
    ensures r.Ok? <==> |leaves| > 0 && AllWellFormed(leaves)
    ensures r.Ok? ==> r.value == MerkleTree(Levels(leaves), RfcRoot(leaves))
    ensures r.Err? ==> ComplainsOf(leaves, r.error)
  {
    var checked := AssertLeaves(leaves);
    if checked.Err? {
      return Err(checked.error);
    }
    var levels := [leaves];
    var current := leaves;
    while |current| > 1
      invariant |current| > 0
      invariant levels + Levels(current)[1..] == Levels(leaves)
      invariant Root(current) == Root(leaves)
      decreases |current|
    {
      var next := PairUp(current);
      OneMoreLevel(levels, current, next);
      levels := levels + [next];
      current := next;
    }
    LastLevel(levels, current);
    RootIsRfcRoot(leaves);
    return Ok(MerkleTree(levels, current[0]));
  }

  method MerkleRootHex(leaves: seq<Digest>) returns (r: Result<Digest, MerkleError>)
    ensures r.Ok? <==> |leaves| > 0 && AllWellFormed(leaves)
    ensures r.Ok? ==> r.value == RfcRoot(leaves)
    ensures r.Err? ==> ComplainsOf(leaves, r.error)
  {
    var tree := BuildMerkleTree(leaves);
    if tree.Err? {
      return Err(tree.error);
    }
    return Ok(tree.value.root);
  }

  lemma PathUnfold(proof: seq<ProofStep>, level: seq<Digest>, i: nat)
    requires i < |level| && |level| > 1
    ensures proof + Path(level, i) == proof + Sibling(level, i) + Path(NextLevel(level), i / 2)
  {
    Assoc(proof, Sibling(level, i), Path(NextLevel(level), i / 2));
  }

  method MerkleProof(leaves: seq<Digest>, index: int) returns (r: Result<seq<ProofStep>, MerkleError>)
    ensures r.Ok? <==> |leaves| > 0 && AllWellFormed(leaves) && 0 <= index < |leaves|
    ensures r.Ok? ==> r.value == RfcPath(leaves, index)
    ensures r.Err? && |leaves| > 0 && AllWellFormed(leaves) ==> r.error == IndexOutOfRange(index, |leaves|)
    ensures r.Err? && !(|leaves| > 0 && AllWellFormed(leaves)) ==> ComplainsOf(leaves, r.error)
  {
    var checked := AssertLeaves(leaves);
    if checked.Err? {
      return Err(checked.error);
    }
    if index < 0 || index >= |leaves| {
      return Err(IndexOutOfRange(index, |leaves|));
    }
    var tree := BuildMerkleTree(leaves);
    var levels := tree.value.levels;
    var proof: seq<ProofStep> := [];
    var idx: nat := index;
    var l := 0;
    ghost var current := leaves;
    ghost var whole := Path(leaves, index);
    while l < |levels| - 1
      invariant 0 <= l <= |levels| - 1
      invariant |current| > 0 && levels[l..] == Levels(current)
      invariant idx < |current|
      invariant proof + Path(current, idx) == whole
    {
      assert |levels[l..]| > 1;
      LevelsTail(current);
      PathUnfold(proof, current, idx);
      assert levels[l + 1..] == levels[l..][1..];
      var level := levels[l];
      assert level == levels[l..][0] == current && idx < |level|;
      var isRightChild := idx % 2 == 1;
      var siblingIdx := if isRightChild then idx - 1 else idx + 1;
      ghost var extended := proof + Sibling(current, idx);
      if siblingIdx < |level| {
        proof := proof + [ProofStep(level[siblingIdx], if isRightChild then Left else Right)];
      }
      assert proof == extended;
      idx := idx / 2;
      current := NextLevel(current);
      l := l + 1;
    }
    assert |levels[l..]| == 1;
    if |current| > 1 { LevelsTail(current); }
    assert proof + Path(current, idx) == proof;
    PathIsRfcPath(leaves, index);
    return Ok(proof);
  }

  method VerifyMerkleProof(leaf: Digest, proof: seq<ProofStep>, root: Digest) returns (ok: bool)
    ensures ok <==> Accepts(leaf, proof, root)
  {
    if !WellFormed(leaf) || !WellFormed(root) {
      return false;
    }
    var acc := leaf;
    for i := 0 to |proof|
      invariant Fold(acc, proof[i..]) == Fold(leaf, proof)
      invariant forall k | 0 <= k < i :: WellFormed(proof[k].hash)
    {
      var step := proof[i];
      if !WellFormed(step.hash) {
        return false;
      }
      assert proof[i..][1..] == proof[i + 1..];
      acc := if step.side == Left then Node(step.hash, acc) else Node(acc, step.hash);
    }
    return acc == root;
  }
}
