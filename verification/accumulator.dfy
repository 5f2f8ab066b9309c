/** The accumulator object and the portable verifier
    (`crates/statechronicle-accumulator/src/sparse_merkle.rs`,
    `crates/statechronicle-portable/src/integrity.rs`), their agreement, and the soundness of
    accepted proofs. */
module Accumulator {
  import opened Bytes
  import opened StateKeys
  import opened SparseMerkle
  import opened Options

  datatype StateUpdate = StateUpdate(key: Key, stateDigest: Digest)

  /** Insertion in order: the later update of a key wins. */
  function Apply(m: Leaves, updates: seq<StateUpdate>): Leaves {
    if updates == [] then m
    else Apply(m, updates[..|updates| - 1])
         [updates[|updates| - 1].key := updates[|updates| - 1].stateDigest]
  }

  datatype MerkleProof = MerkleProof(key: Key, leafHash: Digest, steps: seq<PathStep>)

  ghost predicate IsCanonical(h: HashFn, m: Leaves, proof: MerkleProof) {
    && proof.leafHash == h(LeafPre(m, proof.key))
    && proof.steps == CanonicalSteps(h, m, proof.key, TREE_DEPTH)
    && PathLeadsTo(h, ComputeRoot(h, m), proof.key, proof.leafHash, proof.steps)
  }

  class StateAccumulator {
    const h: HashFn
    var leaves: Leaves

    constructor (h: HashFn)
      ensures this.h == h && leaves == map[]
    {
      this.h := h;
      leaves := map[];
    }

    method Root() returns (root: Digest)
      ensures root == DenseRoot(h, leaves)
    {
      SparseRefinesDense(h, leaves);
      root := ComputeRoot(h, leaves);
    }

    method InsertBatch(updates: seq<StateUpdate>) returns (root: Digest)
      modifies this
      ensures leaves == Apply(old(leaves), updates)
      ensures root == DenseRoot(h, leaves)
    {
      for i := 0 to |updates|
        invariant leaves == Apply(old(leaves), updates[..i])
      {
        leaves := leaves[updates[i].key := updates[i].stateDigest];
        assert updates[..i + 1][..i] == updates[..i];
      }
      assert updates[..|updates|] == updates;
      root := Root();
    }

    method ProveInclusion(key: Key) returns (proof: Option<MerkleProof>)
      ensures proof.Some? <==> key in leaves
      ensures proof.Some? ==> proof.value.key == key && IsCanonical(h, leaves, proof.value)
    {
      if key !in leaves { return None; }
      var steps := CollectSteps(h, leaves, key);
      ProverComplete(h, leaves, key);
      proof := Some(MerkleProof(key, LeafHash(h, key, leaves[key]), steps));
    }

    method ProveNonMembership(key: Key) returns (proof: Option<MerkleProof>)
      ensures proof.Some? <==> key !in leaves
      ensures proof.Some? ==> proof.value.key == key && IsCanonical(h, leaves, proof.value)
    {
      if key in leaves { return None; }
      var steps := CollectSteps(h, leaves, key);
      ProverComplete(h, leaves, key);
      proof := Some(MerkleProof(key, EmptyLeaf(h), steps));
    }
  }

  // ----- The portable verifier -----

  /** `windows(2)`: no level is at least its successor. */
  predicate WindowsAscend(steps: seq<PathStep>) {
    forall i :: 0 <= i < |steps| - 1 ==> steps[i].level < steps[i + 1].level
  }

  lemma {:induction false} WindowsAscendEverywhere(steps: seq<PathStep>, i: nat, j: nat)
    requires WindowsAscend(steps) && i < j < |steps|
    ensures steps[i].level < steps[j].level
    decreases j
  {
    if i < j - 1 { WindowsAscendEverywhere(steps, i, j - 1); }
  }

  /** Ascending levels below the depth leave no room for more steps than levels. */
  lemma {:induction false} AscendingIsShort(steps: seq<PathStep>, k: nat)
    requires Ascending(steps) && k < |steps|
    ensures k <= steps[k].level
  {
    if k > 0 {
      AscendingIsShort(steps, k - 1);
      assert LevelBefore(steps, k - 1, k);
    }
  }

  /** A proof level is a `u8`. */
  ghost predicate LevelsFit(steps: seq<PathStep>) {
    forall i :: 0 <= i < |steps| ==> steps[i].level < TREE_DEPTH
  }

  /** So the portable checks on the step list reject nothing that ascends. */
  lemma AscendingFits(steps: seq<PathStep>)
    requires Ascending(steps) && LevelsFit(steps)
    ensures |steps| <= 256 && WindowsAscend(steps)
  {
    if steps != [] { AscendingIsShort(steps, |steps| - 1); }
    forall i | 0 <= i < |steps| - 1 ensures steps[i].level < steps[i + 1].level {
      assert LevelBefore(steps, i, i + 1);
    }
  }

  lemma FromTheFront(level: nat)
    requires level < 256
    ensures 0 <= (255 - level) / 8 < 32 && 8 * ((255 - level) / 8) + (7 - level % 8) == 255 - level
  {
  }

  /** The portable routing decision: `255 - level` names the byte from the front, `level % 8`
      the shift from the back. It is the accumulator's bit. */
  method RoutesRight(key: Key, level: nat) returns (right: bool)
    requires level < TREE_DEPTH
    ensures right == BitAt(key, TREE_DEPTH - 1 - level)
  {
    var bytePosition := (255 - level) / 8;
    FromTheFront(level);
    BitAtByte(key, bytePosition, 7 - level % 8);
    right := Odd(Shr(key.bytes[bytePosition], level % 8));
  }

  lemma NextStepSibling(h: HashFn, steps: seq<PathStep>, taken: nat, level: nat)
    requires Ascending(steps) && taken <= |steps| && level < TREE_DEPTH
    requires forall i :: 0 <= i < taken ==> steps[i].level < level
    requires forall i :: taken <= i < |steps| ==> level <= steps[i].level
    ensures SiblingAt(h, LevelMap(steps), level)
            == if taken < |steps| && steps[taken].level == level then steps[taken].sibling
               else DefaultHash(h, level)
  {
    LevelMapDomain(steps, level);
    if taken < |steps| && steps[taken].level == level {
      LevelMapOfAscending(steps, taken);
    } else {
      forall i | 0 <= i < |steps| ensures steps[i].level != level {
        if taken < i { assert LevelBefore(steps, taken, i); }
      }
    }
  }

  /** `verify_path` of the portable crate. It reads the steps in order, recomputes the
      defaults and does its own bit arithmetic, yet accepts exactly the ascending step lists
      that lead to the root; in particular no step is ever left over. */
  method PortableVerifyPath(h: HashFn, root: Digest, key: Key, leaf: Digest, steps: seq<PathStep>)
    returns (accepted: bool)
    requires LevelsFit(steps)
    ensures accepted <==> Ascending(steps) && PathLeadsTo(h, root, key, leaf, steps)
  {
    hide Bits, LevelMap;
    if |steps| > 256 || !WindowsAscend(steps) {
      if Ascending(steps) { AscendingFits(steps); }
      return false;
    }
    forall i, j | 0 <= i < j < |steps| ensures LevelBefore(steps, i, j) {
      WindowsAscendEverywhere(steps, i, j);
    }
    var taken := 0;
    var current := leaf;
    var default := LeafHash(h, ZEROS, ZEROS);
    ghost var look := LevelMap(steps);
    for level := 0 to 256
      invariant taken <= |steps|
      invariant forall i :: 0 <= i < taken ==> steps[i].level < level
      invariant forall i :: taken <= i < |steps| ==> level <= steps[i].level
      invariant default == DefaultHash(h, level)
      invariant current == PathNode(h, key, leaf, look, level)
    {
      NextStepSibling(h, steps, taken, level);
      forall i | taken < i < |steps| ensures steps[taken].level < steps[i].level {
        assert LevelBefore(steps, taken, i);
      }
      var sibling := default;
      if taken < |steps| && steps[taken].level == level {
        sibling := steps[taken].sibling;
        taken := taken + 1;
      }
      var right := RoutesRight(key, level);
      current := if right then h(NodePre(0x10, sibling, current)) else h(NodePre(0x10, current, sibling));
      default := h(NodePre(0x10, default, default));
    }
    accepted := taken == |steps| && current == root;
  }

  method PortableVerifyInclusion(h: HashFn, root: Digest, key: Key, state: Digest, steps: seq<PathStep>)
    returns (accepted: bool)
    requires LevelsFit(steps)
    ensures accepted <==> AcceptsInclusion(h, root, key, state, steps)
  {
    accepted := PortableVerifyPath(h, root, key, h(NodePre(0x11, key, state)), steps);
  }

  method PortableVerifyNonMembership(h: HashFn, root: Digest, key: Key, steps: seq<PathStep>)
    returns (accepted: bool)
    requires LevelsFit(steps)
    ensures accepted <==> AcceptsAbsence(h, root, key, steps)
  {
    accepted := PortableVerifyPath(h, root, key, h(NodePre(0x11, ZEROS, ZEROS)), steps);
  }

  ghost predicate AcceptsInclusion(h: HashFn, root: Digest, key: Key, state: Digest, steps: seq<PathStep>) {
    Ascending(steps) && PathLeadsTo(h, root, key, LeafHash(h, key, state), steps)
  }

  ghost predicate AcceptsAbsence(h: HashFn, root: Digest, key: Key, steps: seq<PathStep>) {
    Ascending(steps) && PathLeadsTo(h, root, key, EmptyLeaf(h), steps)
  }

  // ----- Soundness -----

  /** Where two paths for one key first hash different children, down to their leaves. */
  function JoinCollision(h: HashFn, key: Key, leaf1: Digest, look1: map<nat, Digest>,
                         leaf2: Digest, look2: map<nat, Digest>, n: nat): Preimages
    requires 0 < n <= TREE_DEPTH
    decreases n
  {
    var join1 := JoinPre(h, key, look1, n - 1, PathNode(h, key, leaf1, look1, n - 1));
    var join2 := JoinPre(h, key, look2, n - 1, PathNode(h, key, leaf2, look2, n - 1));
    if join1 != join2 || n == 1 then Preimages(join1, join2)
    else JoinCollision(h, key, leaf1, look1, leaf2, look2, n - 1)
  }

  lemma {:induction false} MeetingLeaves(h: HashFn, key: Key, leaf1: Digest, look1: map<nat, Digest>,
                                        leaf2: Digest, look2: map<nat, Digest>, n: nat)
    requires 0 < n <= TREE_DEPTH
    requires PathNode(h, key, leaf1, look1, n) == PathNode(h, key, leaf2, look2, n)
    ensures leaf1 == leaf2 || IsCollision(h, JoinCollision(h, key, leaf1, look1, leaf2, look2, n))
  {
    hide JoinPre;
    var node1, node2 := PathNode(h, key, leaf1, look1, n - 1), PathNode(h, key, leaf2, look2, n - 1);
    if JoinPre(h, key, look1, n - 1, node1) == JoinPre(h, key, look2, n - 1, node2) {
      JoinPreInjective(h, key, look1, node1, look2, node2, n - 1);
      if n > 1 { MeetingLeaves(h, key, leaf1, look1, leaf2, look2, n - 1); }
    }
  }

  /** The collision behind two paths that meet: at the leaves if their digests agree, else on the
      way down. */
  function PathCollision(h: HashFn, key: Key, pre1: Message, look1: map<nat, Digest>,
                         pre2: Message, look2: map<nat, Digest>, n: nat): Preimages
    requires n <= TREE_DEPTH
  {
    if n == 0 || h(pre1) == h(pre2) then Preimages(pre1, pre2)
    else JoinCollision(h, key, h(pre1), look1, h(pre2), look2, n)
  }

  /** Two paths that meet have the same leaf, or the walk finds a collision. */
  lemma MeetingPaths(h: HashFn, key: Key, pre1: Message, look1: map<nat, Digest>,
                     pre2: Message, look2: map<nat, Digest>, n: nat)
    requires n <= TREE_DEPTH
    requires PathNode(h, key, h(pre1), look1, n) == PathNode(h, key, h(pre2), look2, n)
    ensures pre1 == pre2 || IsCollision(h, PathCollision(h, key, pre1, look1, pre2, look2, n))
  {
    if n > 0 { MeetingLeaves(h, key, h(pre1), look1, h(pre2), look2, n); }
  }

  lemma JoinPreInjective(h: HashFn, key: Key, look1: map<nat, Digest>, node1: Digest,
                         look2: map<nat, Digest>, node2: Digest, level: nat)
    requires level < TREE_DEPTH
    requires JoinPre(h, key, look1, level, node1) == JoinPre(h, key, look2, level, node2)
    ensures node1 == node2
  {
    var s1, s2 := SiblingAt(h, look1, level), SiblingAt(h, look2, level);
    if BitAt(key, TREE_DEPTH - 1 - level) {
      NodePreInjective(INTERNAL_NODE_TAG, s1, node1, INTERNAL_NODE_TAG, s2, node2);
    } else {
      NodePreInjective(INTERNAL_NODE_TAG, node1, s1, INTERNAL_NODE_TAG, node2, s2);
    }
  }

  /** The collision computed from an accepted proof and the prover's own proof for the key. */
  ghost function ProofCollision(h: HashFn, m: Leaves, key: Key, leafPre: Message, steps: seq<PathStep>): Preimages {
    PathCollision(h, key, LeafPre(m, key), LevelMap(CanonicalSteps(h, m, key, TREE_DEPTH)),
                  leafPre, LevelMap(steps), TREE_DEPTH)
  }

  lemma AcceptedLeaf(h: HashFn, m: Leaves, key: Key, leafPre: Message, steps: seq<PathStep>)
    requires PathLeadsTo(h, ComputeRoot(h, m), key, h(leafPre), steps)
    ensures leafPre == LeafPre(m, key) || IsCollision(h, ProofCollision(h, m, key, leafPre, steps))
  {
    ProverComplete(h, m, key);
    MeetingPaths(h, key, LeafPre(m, key), LevelMap(CanonicalSteps(h, m, key, TREE_DEPTH)),
                 leafPre, LevelMap(steps), TREE_DEPTH);
  }

  /** An accepted inclusion tells the truth about the map, or exhibits a collision. The one
      exception is the all-zero key with the all-zero digest, whose leaf is the empty leaf. */
  lemma InclusionSound(h: HashFn, m: Leaves, key: Key, state: Digest, steps: seq<PathStep>)
    requires AcceptsInclusion(h, ComputeRoot(h, m), key, state, steps)
    ensures || (key in m && m[key] == state)
            || (key == ZEROS && state == ZEROS && key !in m)
            || IsCollision(h, ProofCollision(h, m, key, NodePre(LEAF_NODE_TAG, key, state), steps))
  {
    var pre := NodePre(LEAF_NODE_TAG, key, state);
    AcceptedLeaf(h, m, key, pre, steps);
    if pre == LeafPre(m, key) {
      if key in m {
        NodePreInjective(LEAF_NODE_TAG, key, state, LEAF_NODE_TAG, key, m[key]);
      } else {
        NodePreInjective(LEAF_NODE_TAG, key, state, LEAF_NODE_TAG, ZEROS, ZEROS);
      }
    }
  }

  /** An accepted absence tells the truth about the map, with the same single exception. */
  lemma AbsenceSound(h: HashFn, m: Leaves, key: Key, steps: seq<PathStep>)
    requires AcceptsAbsence(h, ComputeRoot(h, m), key, steps)
    ensures || key !in m
            || (key == ZEROS && m[key] == ZEROS)
            || IsCollision(h, ProofCollision(h, m, key, NodePre(LEAF_NODE_TAG, ZEROS, ZEROS), steps))
  {
    var pre := NodePre(LEAF_NODE_TAG, ZEROS, ZEROS);
    AcceptedLeaf(h, m, key, pre, steps);
    if pre == LeafPre(m, key) && key in m {
      NodePreInjective(LEAF_NODE_TAG, ZEROS, ZEROS, LEAF_NODE_TAG, key, m[key]);
    }
  }

  /** The exception is real on every map: the zero key's honest proof of absence also passes as
      an inclusion of the zero digest, and the other way round. */
  lemma ZeroLeafIsAmbiguous(h: HashFn, m: Leaves)
    requires ZEROS in m ==> m[ZEROS] == ZEROS
    ensures AcceptsInclusion(h, ComputeRoot(h, m), ZEROS, ZEROS, CanonicalSteps(h, m, ZEROS, TREE_DEPTH))
    ensures AcceptsAbsence(h, ComputeRoot(h, m), ZEROS, CanonicalSteps(h, m, ZEROS, TREE_DEPTH))
  {
    ProverComplete(h, m, ZEROS);
    CanonicalStepsExact(h, m, ZEROS, TREE_DEPTH);
  }

  lemma CanonicalLevels(h: HashFn, m: Leaves, key: Key)
    ensures Ascending(CanonicalSteps(h, m, key, TREE_DEPTH)) && LevelsFit(CanonicalSteps(h, m, key, TREE_DEPTH))
  {
    CanonicalStepsAscend(h, m, key, TREE_DEPTH);
    hide CanonicalSteps, Ascending;
  }

  lemma CanonicalLeaf(h: HashFn, m: Leaves, key: Key)
    ensures h(LeafPre(m, key)) == if key in m then LeafHash(h, key, m[key]) else EmptyLeaf(h)
  {
    hide NodePre;
  }

  /** Honest proofs are accepted: presence for a stored leaf, absence for every other key. */
  lemma HonestProofsAccepted(h: HashFn, m: Leaves, key: Key)
    ensures key in m ==> AcceptsInclusion(h, ComputeRoot(h, m), key, m[key], CanonicalSteps(h, m, key, TREE_DEPTH))
    ensures key !in m ==> AcceptsAbsence(h, ComputeRoot(h, m), key, CanonicalSteps(h, m, key, TREE_DEPTH))
    ensures LevelsFit(CanonicalSteps(h, m, key, TREE_DEPTH))
  {
    hide CanonicalSteps, ComputeRoot, PathLeadsTo, Ascending, LevelsFit, LeafPre, LeafHash, EmptyLeaf;
    CanonicalLeaf(h, m, key);
    CanonicalLevels(h, m, key);
    ProverComplete(h, m, key);
  }

  ghost function LeafCollision(h: HashFn, m: Leaves, proof: MerkleProof): Preimages {
    JoinCollision(h, proof.key, h(LeafPre(m, proof.key)), LevelMap(CanonicalSteps(h, m, proof.key, TREE_DEPTH)),
                  proof.leafHash, LevelMap(proof.steps), TREE_DEPTH)
  }

  /** What the accumulator crate's two verifiers really establish: the proof's leaf hash is the
      one at the key. An accepted non-membership proof therefore tells the truth exactly when
      its leaf hash is the empty leaf, up to collisions and the all-zero leaf. */
  lemma AccumulatorLeafIsExact(h: HashFn, m: Leaves, proof: MerkleProof)
    requires PathLeadsTo(h, ComputeRoot(h, m), proof.key, proof.leafHash, proof.steps)
    ensures proof.leafHash == h(LeafPre(m, proof.key)) || IsCollision(h, LeafCollision(h, m, proof))
    ensures IsCollision(h, LeafCollision(h, m, proof)) || (proof.key !in m ==> proof.leafHash == EmptyLeaf(h))
    ensures proof.leafHash == EmptyLeaf(h) ==>
              || proof.key !in m
              || (proof.key == ZEROS && m[proof.key] == ZEROS)
              || IsCollision(h, LeafCollision(h, m, proof))
              || IsCollision(h, Preimages(LeafPre(m, proof.key), NodePre(LEAF_NODE_TAG, ZEROS, ZEROS)))
  {
    var key := proof.key;
    ProverComplete(h, m, key);
    MeetingLeaves(h, key, h(LeafPre(m, key)), LevelMap(CanonicalSteps(h, m, key, TREE_DEPTH)),
                  proof.leafHash, LevelMap(proof.steps), TREE_DEPTH);
    if key in m && LeafPre(m, key) == NodePre(LEAF_NODE_TAG, ZEROS, ZEROS) {
      NodePreInjective(LEAF_NODE_TAG, key, m[key], LEAF_NODE_TAG, ZEROS, ZEROS);
    }
  }

  /** `verify_non_membership` of the accumulator crate takes the leaf hash from the proof and
      never compares it with the empty leaf, so a present key's inclusion proof passes. */
  lemma AccumulatorAbsenceIsUnchecked(h: HashFn, m: Leaves, key: Key)
    requires key in m
    ensures PathLeadsTo(h, ComputeRoot(h, m), key, LeafHash(h, key, m[key]), CanonicalSteps(h, m, key, TREE_DEPTH))
  {
    ProverComplete(h, m, key);
  }

  // ----- The root binds the map -----

  /** Two maps a verifier can tell apart at `key`. */
  predicate DiffersAt(m1: Leaves, m2: Leaves, key: Key) {
    LeafPre(m1, key) != LeafPre(m2, key)
  }

  /** Maps that differ are told apart somewhere, unless they differ only in whether the zero
      key holds the zero digest. */
  lemma DifferentMapsDiffer(m1: Leaves, m2: Leaves, key: Key)
    ensures DiffersAt(m1, m2, key) <==>
            && (key in m1 || key in m2)
            && !(key in m1 && key in m2 && m1[key] == m2[key])
            && !(key == ZEROS && (key in m1 ==> m1[key] == ZEROS) && (key in m2 ==> m2[key] == ZEROS))
  {
    if key in m1 && key in m2 && LeafPre(m1, key) == LeafPre(m2, key) {
      NodePreInjective(LEAF_NODE_TAG, key, m1[key], LEAF_NODE_TAG, key, m2[key]);
    }
    if key in m1 && key !in m2 && LeafPre(m1, key) == LeafPre(m2, key) {
      NodePreInjective(LEAF_NODE_TAG, key, m1[key], LEAF_NODE_TAG, ZEROS, ZEROS);
    }
    if key !in m1 && key in m2 && LeafPre(m1, key) == LeafPre(m2, key) {
      NodePreInjective(LEAF_NODE_TAG, key, m2[key], LEAF_NODE_TAG, ZEROS, ZEROS);
    }
  }

  ghost function RootCollision(h: HashFn, m1: Leaves, m2: Leaves, key: Key): Preimages {
    ProofCollision(h, m1, key, LeafPre(m2, key), CanonicalSteps(h, m2, key, TREE_DEPTH))
  }

  /** One root for two maps that differ at `key` is a collision. */
  lemma RootBindsMap(h: HashFn, m1: Leaves, m2: Leaves, key: Key)
    requires ComputeRoot(h, m1) == ComputeRoot(h, m2) && DiffersAt(m1, m2, key)
    ensures IsCollision(h, RootCollision(h, m1, m2, key))
  {
    ProverComplete(h, m2, key);
    AcceptedLeaf(h, m1, key, LeafPre(m2, key), CanonicalSteps(h, m2, key, TREE_DEPTH));
  }
}
