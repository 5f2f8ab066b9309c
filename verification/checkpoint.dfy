/** The checkpoint root over tenant state roots
    (`crates/statechronicle-accumulator/src/checkpoint.rs`). */
module Checkpoint {
  import opened Bytes
  import opened Options
  import opened Ordering
  import opened MerkleTree
  import opened Domain

  const CHECKPOINT_LEAF_TAG: byte := 0x12
  const CHECKPOINT_INTERNAL_TAG: byte := 0x13

  datatype TenantRoot = TenantRoot(tenant: Id, root: Digest)

  /** `0x12 || u64le(len(tenant)) || tenant || root`. */
  function LeafMessage(t: TenantRoot): Message {
    Message([CHECKPOINT_LEAF_TAG] + (Prefixed(t.tenant.utf8) + t.root.bytes))
  }

  lemma LeafMessageInjective(a: TenantRoot, b: TenantRoot)
    requires LeafMessage(a) == LeafMessage(b)
    ensures a == b
  {
    assert LeafMessage(a).bytes[1..] == Prefixed(a.tenant.utf8) + a.root.bytes;
    assert LeafMessage(b).bytes[1..] == Prefixed(b.tenant.utf8) + b.root.bytes;
    PrefixedSplits(a.tenant.utf8, a.root.bytes, b.tenant.utf8, b.root.bytes);
  }

  function EntryTrees(entries: seq<TenantRoot>): (ts: seq<Tree>)
    ensures |ts| == |entries| && forall i :: 0 <= i < |ts| ==> ts[i] == Leaf(LeafMessage(entries[i]))
  {
    if entries == [] then [] else [Leaf(LeafMessage(entries[0]))] + EntryTrees(entries[1..])
  }

  // ----- Levels -----

  /** Each level is the next one up from its predecessor. */
  ghost predicate Stacked(h: HashFn, levels: seq<seq<Digest>>) {
    forall k :: 0 <= k < |levels| - 1 ==> levels[k + 1] == NextLevel(h, CHECKPOINT_INTERNAL_TAG, levels[k])
  }

  /** All levels from the leaves to a single node. */
  ghost predicate IsLevels(h: HashFn, leaves: seq<Digest>, levels: seq<seq<Digest>>) {
    && levels != [] && levels[0] == leaves && Stacked(h, levels)
    && (forall k :: 0 <= k < |levels| - 1 ==> |levels[k]| > 1)
    && |levels[|levels| - 1]| == 1
    && levels[|levels| - 1][0] == LevelRoot(h, CHECKPOINT_INTERNAL_TAG, leaves)
  }

  /** `build_levels`. */
  method BuildLevels(h: HashFn, leaves: seq<Digest>) returns (levels: seq<seq<Digest>>)
    requires leaves != []
    ensures IsLevels(h, leaves, levels)
  {
    levels := [leaves];
    hide NextLevel, Join;
    while |levels[|levels| - 1]| > 1
      invariant levels != [] && levels[0] == leaves && Stacked(h, levels)
      invariant forall k :: 0 <= k < |levels| - 1 ==> |levels[k]| > 1
      invariant levels[|levels| - 1] != []
      invariant LevelRoot(h, CHECKPOINT_INTERNAL_TAG, levels[|levels| - 1])
                == LevelRoot(h, CHECKPOINT_INTERNAL_TAG, leaves)
      decreases |levels[|levels| - 1]|
    {
      var next := ComputeNextLevel(h, CHECKPOINT_INTERNAL_TAG, levels[|levels| - 1]);
      levels := levels + [next];
    }
  }

  // ----- Proofs -----

  datatype CheckpointStep = CheckpointStep(level: nat, sibling: Digest)

  datatype TenantRootProof = TenantRootProof(tenant: Id, root: Digest, index: nat, steps: seq<CheckpointStep>)

  /** The node a proof reconstructs after all its steps; the index routes, a bit for each step. */
  function Climb(h: HashFn, acc: Digest, index: nat, steps: seq<CheckpointStep>): Digest
    decreases |steps|
  {
    if steps == [] then acc
    else
      var joined := if index % 2 == 0 then Join(h, CHECKPOINT_INTERNAL_TAG, acc, steps[0].sibling)
                    else Join(h, CHECKPOINT_INTERNAL_TAG, steps[0].sibling, acc);
      Climb(h, joined, index / 2, steps[1..])
  }

  predicate Accepts(h: HashFn, root: Digest, proof: TenantRootProof) {
    Climb(h, h(LeafMessage(TenantRoot(proof.tenant, proof.root))), proof.index, proof.steps) == root
  }

  /** `verify_tenant_root`. */
  method VerifyTenantRoot(h: HashFn, root: Digest, proof: TenantRootProof) returns (accepted: bool)
    ensures accepted == Accepts(h, root, proof)
  {
    var acc := h(LeafMessage(TenantRoot(proof.tenant, proof.root)));
    ghost var end := Climb(h, acc, proof.index, proof.steps);
    var nodeIndex := proof.index;
    for i := 0 to |proof.steps|
      invariant Climb(h, acc, nodeIndex, proof.steps[i..]) == end
    {
      var step := proof.steps[i];
      assert proof.steps[i..][1..] == proof.steps[i + 1..];
      acc := if nodeIndex % 2 == 0 then Join(h, CHECKPOINT_INTERNAL_TAG, acc, step.sibling)
             else Join(h, CHECKPOINT_INTERNAL_TAG, step.sibling, acc);
      nodeIndex := nodeIndex / 2;
    }
    accepted := acc == root;
  }

  /** The sibling of node `i`: its right neighbour, itself when it is the odd last, or its left
      neighbour. */
  function SiblingOf(nodes: seq<Digest>, i: nat): Digest
    requires i < |nodes|
  {
    if i % 2 == 0 then (if i + 1 < |nodes| then nodes[i + 1] else nodes[i]) else nodes[i - 1]
  }

  /** A node and its sibling join to the parent at half the index. */
  lemma {:induction false} ParentAt(h: HashFn, tag: byte, nodes: seq<Digest>, i: nat)
    requires i < |nodes|
    ensures i / 2 < |NextLevel(h, tag, nodes)|
    ensures NextLevel(h, tag, nodes)[i / 2]
            == if i % 2 == 0 then Join(h, tag, nodes[i], SiblingOf(nodes, i))
               else Join(h, tag, SiblingOf(nodes, i), nodes[i])
  {
    if i >= 2 {
      ParentAt(h, tag, nodes[2..], i - 2);
      assert (i - 2) / 2 == i / 2 - 1 && (i - 2) % 2 == i % 2;
    }
  }

  /** The siblings from level `k` up, for node `i` of that level. */
  function StepsFrom(levels: seq<seq<Digest>>, k: nat, i: nat): seq<CheckpointStep>
    decreases |levels| - k
  {
    if k >= |levels| || |levels[k]| <= 1 || i >= |levels[k]| then []
    else [CheckpointStep(k, SiblingOf(levels[k], i))] + StepsFrom(levels, k + 1, i / 2)
  }

  /** Climbing from any node of any level along its siblings ends at the root. */
  lemma {:induction false} StepsReachRoot(h: HashFn, leaves: seq<Digest>, levels: seq<seq<Digest>>, k: nat, i: nat)
    requires leaves != [] && IsLevels(h, leaves, levels) && k < |levels| && i < |levels[k]|
    ensures Climb(h, levels[k][i], i, StepsFrom(levels, k, i)) == LevelRoot(h, CHECKPOINT_INTERNAL_TAG, leaves)
    decreases |levels| - k
  {
    if |levels[k]| > 1 {
      ParentAt(h, CHECKPOINT_INTERNAL_TAG, levels[k], i);
      assert levels[k + 1] == NextLevel(h, CHECKPOINT_INTERNAL_TAG, levels[k]);
      StepsReachRoot(h, leaves, levels, k + 1, i / 2);
      assert StepsFrom(levels, k, i)[1..] == StepsFrom(levels, k + 1, i / 2);
    } else {
      assert k == |levels| - 1;
    }
  }

  lemma StepsUnfold(levels: seq<seq<Digest>>, k: nat, i: nat, step: CheckpointStep, front: seq<CheckpointStep>)
    requires k < |levels| && |levels[k]| > 1 && i < |levels[k]| && step == CheckpointStep(k, SiblingOf(levels[k], i))
    ensures front + StepsFrom(levels, k, i) == (front + [step]) + StepsFrom(levels, k + 1, i / 2)
  {
    assert StepsFrom(levels, k, i) == [step] + StepsFrom(levels, k + 1, i / 2);
  }

  lemma StepsEnd(levels: seq<seq<Digest>>, k: nat, i: nat)
    requires k >= |levels| || |levels[k]| <= 1 || i >= |levels[k]|
    ensures StepsFrom(levels, k, i) == []
  {
  }

  /** `prove_tenant_root`, once the tenant's position is known. */
  method ProveAt(levels: seq<seq<Digest>>, index: nat) returns (steps: seq<CheckpointStep>)
    ensures steps == StepsFrom(levels, 0, index)
  {
    hide StepsFrom;
    steps := [];
    var nodeIndex: nat := index;
    var level := 0;
    while level < |levels| && |levels[level]| > 1 && nodeIndex < |levels[level]|
      invariant level <= |levels|
      invariant steps + StepsFrom(levels, level, nodeIndex) == StepsFrom(levels, 0, index)
      decreases |levels| - level
    {
      var nodes := levels[level];
      var sibling := if nodeIndex % 2 != 0 then nodes[nodeIndex - 1]
                     else if nodeIndex + 1 >= |nodes| then nodes[nodeIndex]
                     else nodes[nodeIndex + 1];
      var step := CheckpointStep(level, sibling);
      StepsUnfold(levels, level, nodeIndex, step, steps);
      steps := steps + [step];
      nodeIndex := nodeIndex / 2;
      level := level + 1;
    }
    StepsEnd(levels, level, nodeIndex);
  }

  // ----- Building -----

  datatype CheckpointError = EmptyTenantRoots | DuplicateTenant(tenant: Id)

  datatype Result<+T> = Ok(value: T) | Err(error: CheckpointError)

  /** The built checkpoint. */
  datatype CheckpointRoot = CheckpointRoot(root: Digest, entries: seq<TenantRoot>, levels: seq<seq<Digest>>)

  predicate TenantLe(a: TenantRoot, b: TenantRoot) { IdLe(a.tenant, b.tenant) }

  function SortedEntries(pairs: seq<TenantRoot>): seq<TenantRoot> { SortBy(TenantLe, pairs) }

  lemma TenantLeIsPreorder()
    ensures TotalPreorder(TenantLe)
  {
    IdLeIsTotalOrder();
  }

  /** The first tenant that equals its predecessor in the sorted list. */
  function FirstDuplicate(entries: seq<TenantRoot>): Option<Id> {
    if |entries| < 2 then None
    else if entries[0].tenant == entries[1].tenant then Some(entries[1].tenant)
    else FirstDuplicate(entries[1..])
  }

  ghost predicate OneRootPerTenant(entries: seq<TenantRoot>) {
    forall i, j :: 0 <= i < j < |entries| ==> entries[i].tenant != entries[j].tenant
  }

  /** What a checkpoint commits to: the root of the tree over the sorted entries. */
  function RootOver(h: HashFn, entries: seq<TenantRoot>): Digest
    requires entries != []
  {
    TreeHash(h, CHECKPOINT_INTERNAL_TAG, TopTree(EntryTrees(entries)))
  }

  ghost predicate Committed(h: HashFn, c: CheckpointRoot) {
    && c.entries != [] && OneRootPerTenant(c.entries)
    && c.root == RootOver(h, c.entries)
    && IsLevels(h, Hashes(h, CHECKPOINT_INTERNAL_TAG, EntryTrees(c.entries)), c.levels)
  }

  /** `from_tenant_roots`. */
  method FromTenantRoots(h: HashFn, pairs: seq<TenantRoot>) returns (r: Result<CheckpointRoot>)
    ensures match BuildResult(pairs)
            case Err(error) => r == Err(error)
            case Ok(entries) => r.Ok? && r.value.entries == entries && Committed(h, r.value)
  {
    if pairs == [] { return Err(EmptyTenantRoots); }
    var entries := SortBy(TenantLe, pairs);
    TenantLeIsPreorder();
    SortIsStable(TenantLe, pairs);
    PermutationLength(entries, pairs);
    var i := 1;
    while i < |entries|
      invariant 1 <= i <= |entries|
      invariant FirstDuplicate(entries[i - 1..]) == FirstDuplicate(entries)
    {
      assert entries[i - 1..][1..] == entries[i..];
      if entries[i - 1].tenant == entries[i].tenant { return Err(DuplicateTenant(entries[i].tenant)); }
      i := i + 1;
    }
    NoDuplicate(entries);
    var leaves := LeafDigests(h, entries);
    var levels := BuildLevels(h, leaves);
    RootIsTreeHash(h, CHECKPOINT_INTERNAL_TAG, EntryTrees(entries));
    r := Ok(CheckpointRoot(levels[|levels| - 1][0], entries, levels));
  }

  method LeafDigests(h: HashFn, entries: seq<TenantRoot>) returns (leaves: seq<Digest>)
    ensures leaves == Hashes(h, CHECKPOINT_INTERNAL_TAG, EntryTrees(entries))
  {
    leaves := [];
    for i := |entries| downto 0
      invariant leaves == Hashes(h, CHECKPOINT_INTERNAL_TAG, EntryTrees(entries[i..]))
    {
      leaves := [h(LeafMessage(entries[i]))] + leaves;
      assert entries[i..][1..] == entries[i + 1..];
      assert EntryTrees(entries[i..])[1..] == EntryTrees(entries[i + 1..]);
    }
    assert entries[0..] == entries;
  }

  lemma {:induction false} NoDuplicate(entries: seq<TenantRoot>)
    requires Sorted(TenantLe, entries) && FirstDuplicate(entries).None?
    ensures OneRootPerTenant(entries)
  {
    if |entries| >= 2 {
      NoDuplicate(entries[1..]);
      forall j | 1 <= j < |entries| ensures entries[0].tenant != entries[j].tenant {
        IdLeIsTotalOrder();
        assert TenantLe(entries[0], entries[1]) && (j > 1 ==> TenantLe(entries[1], entries[j]));
      }
      forall i, j | 0 <= i < j < |entries| ensures entries[i].tenant != entries[j].tenant {
        if i > 0 { assert entries[i] == entries[1..][i - 1] && entries[j] == entries[1..][j - 1]; }
      }
    }
  }

  /** `prove_tenant_root`: every committed tenant, and no other, gets a proof that verifies. */
  method ProveTenantRoot(h: HashFn, c: CheckpointRoot, tenant: Id) returns (proof: Option<TenantRootProof>)
    requires Committed(h, c)
    ensures proof.Some? <==> exists i :: 0 <= i < |c.entries| && c.entries[i].tenant == tenant
    ensures proof.Some? ==> TenantRoot(tenant, proof.value.root) in c.entries && proof.value.tenant == tenant
    ensures proof.Some? ==> Accepts(h, c.root, proof.value)
  {
    var index := 0;
    while index < |c.entries| && c.entries[index].tenant != tenant
      invariant index <= |c.entries|
      invariant forall i :: 0 <= i < index ==> c.entries[i].tenant != tenant
    {
      index := index + 1;
    }
    if index == |c.entries| { return None; }
    ghost var ts := EntryTrees(c.entries);
    var steps := ProveAt(c.levels, index);
    StepsReachRoot(h, c.levels[0], c.levels, 0, index);
    HashesAt(h, CHECKPOINT_INTERNAL_TAG, ts, index);
    RootIsTreeHash(h, CHECKPOINT_INTERNAL_TAG, ts);
    assert c.entries[index] == TenantRoot(tenant, c.entries[index].root);
    proof := Some(TenantRootProof(tenant, c.entries[index].root, index, steps));
  }

  lemma {:induction false} HashesAt(h: HashFn, tag: byte, ts: seq<Tree>, i: nat)
    requires i < |ts|
    ensures Hashes(h, tag, ts)[i] == TreeHash(h, tag, ts[i])
  {
    if i > 0 { HashesAt(h, tag, ts[1..], i - 1); }
  }

  // ----- Input order -----

  lemma TenantLeAntisymmetric(a: TenantRoot, b: TenantRoot)
    requires TenantLe(a, b) && TenantLe(b, a)
    ensures a.tenant == b.tenant
  {
    IdLeIsTotalOrder();
  }

  lemma {:induction false} SortedEntriesUnique(a: seq<TenantRoot>, b: seq<TenantRoot>)
    requires Sorted(TenantLe, a) && Sorted(TenantLe, b) && multiset(a) == multiset(b) && OneRootPerTenant(a)
    ensures a == b
  {
    PermutationLength(a, b);
    if a != [] {
      hide TenantLe, Sorted, OneRootPerTenant;
      FirstAgrees(a, b);
      TailsPermute(a, b);
      TailsAreSorted(a, b);
      SortedEntriesUnique(a[1..], b[1..]);
      assert a == [a[0]] + a[1..] && b == [b[0]] + b[1..];
    }
  }

  lemma TailsAreSorted(a: seq<TenantRoot>, b: seq<TenantRoot>)
    requires Sorted(TenantLe, a) && Sorted(TenantLe, b) && OneRootPerTenant(a) && a != [] && b != []
    ensures Sorted(TenantLe, a[1..]) && Sorted(TenantLe, b[1..]) && OneRootPerTenant(a[1..])
  {
    hide TenantLe;
  }

  lemma FirstAgrees(a: seq<TenantRoot>, b: seq<TenantRoot>)
    requires Sorted(TenantLe, a) && Sorted(TenantLe, b) && multiset(a) == multiset(b) && OneRootPerTenant(a)
    requires |a| == |b| > 0
    ensures a[0] == b[0]
  {
    hide TenantLe;
    var i := PermutationIndex(a, b, 0);
    var j := PermutationIndex(b, a, 0);
    if i > 0 && j > 0 {
      assert TenantLe(b[0], b[i]) && TenantLe(a[0], a[j]);
      TenantLeAntisymmetric(a[0], b[0]);
    }
  }

  /** What `from_tenant_roots` accepts, and what it makes of it. */
  function BuildResult(pairs: seq<TenantRoot>): Result<seq<TenantRoot>> {
    if pairs == [] then Err(EmptyTenantRoots)
    else
      match FirstDuplicate(SortedEntries(pairs))
      case Some(tenant) => Err(DuplicateTenant(tenant))
      case None => Ok(SortedEntries(pairs))
  }

  /** The checkpoint is a function of the set of pairs: input order changes neither the
      entries, hence the root, nor which error is reported. */
  lemma InputOrderIrrelevant(a: seq<TenantRoot>, b: seq<TenantRoot>)
    requires multiset(a) == multiset(b)
    ensures BuildResult(a) == BuildResult(b)
  {
    PermutationLength(a, b);
    var x, y := SortedEntries(a), SortedEntries(b);
    TenantLeIsPreorder();
    SortIsStable(TenantLe, a);
    SortIsStable(TenantLe, b);
    if FirstDuplicate(x).None? {
      NoDuplicate(x);
      SortedEntriesUnique(x, y);
    } else if FirstDuplicate(y).None? {
      NoDuplicate(y);
      SortedEntriesUnique(y, x);
    } else {
      SameDuplicate(x, y);
    }
  }

  lemma SameDuplicate(x: seq<TenantRoot>, y: seq<TenantRoot>)
    requires Sorted(TenantLe, x) && Sorted(TenantLe, y) && multiset(x) == multiset(y)
    requires FirstDuplicate(x).Some? && FirstDuplicate(y).Some?
    ensures FirstDuplicate(x) == FirstDuplicate(y)
  {
    var s, t := FirstDuplicate(x).value, FirstDuplicate(y).value;
    FirstDuplicateRepeats(x);
    FirstDuplicateRepeats(y);
    TenantCountPermutes(x, y, s);
    TenantCountPermutes(x, y, t);
    FirstDuplicateLeast(x, t);
    FirstDuplicateLeast(y, s);
    IdLeIsTotalOrder();
  }

  lemma {:induction false} FirstDuplicateRepeats(entries: seq<TenantRoot>)
    requires FirstDuplicate(entries).Some?
    ensures TenantCount(entries, FirstDuplicate(entries).value) >= 2
  {
    if entries[0].tenant != entries[1].tenant { FirstDuplicateRepeats(entries[1..]); }
  }

  /** The tenant reported is the least one that repeats. */
  lemma {:induction false} FirstDuplicateLeast(entries: seq<TenantRoot>, s: Id)
    requires Sorted(TenantLe, entries) && FirstDuplicate(entries).Some? && TenantCount(entries, s) >= 2
    ensures IdLe(FirstDuplicate(entries).value, s)
  {
    IdLeIsTotalOrder();
    if entries[0].tenant == entries[1].tenant {
      var k := TenantWitness(entries, s);
      if k > 0 { assert TenantLe(entries[0], entries[k]); }
    } else {
      HeadAlone(entries);
      FirstDuplicateLeast(entries[1..], s);
    }
  }

  lemma {:induction false} NotCounted(entries: seq<TenantRoot>, t: Id)
    requires forall k :: 0 <= k < |entries| ==> entries[k].tenant != t
    ensures TenantCount(entries, t) == 0
  {
    if entries != [] { NotCounted(entries[1..], t); }
  }

  lemma HeadAlone(entries: seq<TenantRoot>)
    requires |entries| >= 2 && Sorted(TenantLe, entries) && entries[0].tenant != entries[1].tenant
    ensures TenantCount(entries[1..], entries[0].tenant) == 0
  {
    forall j | 1 <= j < |entries| ensures entries[j].tenant != entries[0].tenant {
      IdLeIsTotalOrder();
      assert TenantLe(entries[0], entries[1]) && (j > 1 ==> TenantLe(entries[1], entries[j]));
    }
    NotCounted(entries[1..], entries[0].tenant);
  }

  lemma {:induction false} TenantWitness(entries: seq<TenantRoot>, s: Id) returns (k: nat)
    requires TenantCount(entries, s) >= 1
    ensures k < |entries| && entries[k].tenant == s
  {
    if entries[0].tenant == s { k := 0; } else { k := TenantWitness(entries[1..], s); k := k + 1; }
  }

  function TenantCount(entries: seq<TenantRoot>, tenant: Id): nat {
    if entries == [] then 0 else (if entries[0].tenant == tenant then 1 else 0) + TenantCount(entries[1..], tenant)
  }

  lemma {:induction false} TenantCountPermutes(a: seq<TenantRoot>, b: seq<TenantRoot>, tenant: Id)
    requires multiset(a) == multiset(b)
    ensures TenantCount(a, tenant) == TenantCount(b, tenant)
  {
    PermutationLength(a, b);
    if a != [] {
      var i := PermutationIndex(a, b, 0);
      MultisetWithout(b, i);
      MultisetTail(a);
      TenantCountPermutes(a[1..], b[..i] + b[i + 1..], tenant);
      TenantCountRemove(b, i, tenant);
    }
  }

  lemma {:induction false} TenantCountRemove(b: seq<TenantRoot>, i: nat, tenant: Id)
    requires i < |b|
    ensures TenantCount(b, tenant)
            == TenantCount(b[..i] + b[i + 1..], tenant) + (if b[i].tenant == tenant then 1 else 0)
  {
    if i == 0 {
      assert b[..i] + b[i + 1..] == b[1..];
    } else {
      TenantCountRemove(b[1..], i - 1, tenant);
      assert (b[..i] + b[i + 1..])[1..] == b[1..][..i - 1] + b[1..][i..];
    }
  }

  // ----- Soundness -----

  /** The preimages met while climbing from a leaf message. */
  function ClimbPre(h: HashFn, acc: Digest, index: nat, step: CheckpointStep): Message {
    if index % 2 == 0 then NodePre(CHECKPOINT_INTERNAL_TAG, acc, step.sibling)
    else NodePre(CHECKPOINT_INTERNAL_TAG, step.sibling, acc)
  }

  function Halve(index: nat, n: nat): nat { if n == 0 then index else Halve(index, n - 1) / 2 }

  /** The node after the first `n` steps. */
  function ClimbTo(h: HashFn, leaf: Message, index: nat, steps: seq<CheckpointStep>, n: nat): Digest
    requires n <= |steps|
  {
    if n == 0 then h(leaf) else h(ClimbPre(h, ClimbTo(h, leaf, index, steps, n - 1), Halve(index, n - 1), steps[n - 1]))
  }

  lemma {:induction false} ClimbIsClimbTo(h: HashFn, leaf: Message, index: nat, steps: seq<CheckpointStep>, n: nat)
    requires n <= |steps|
    ensures Climb(h, ClimbTo(h, leaf, index, steps, n), Halve(index, n), steps[n..])
            == ClimbTo(h, leaf, index, steps, |steps|)
    decreases |steps| - n
  {
    if n < |steps| {
      ClimbIsClimbTo(h, leaf, index, steps, n + 1);
      assert steps[n..][1..] == steps[n + 1..];
    }
  }

  /** Walks down the committed tree beside the proof until the hashed messages differ. */
  function ProofCollision(h: HashFn, t: Tree, leaf: Message, index: nat, steps: seq<CheckpointStep>, n: nat): Preimages
    requires n <= |steps|
    decreases n
  {
    var here := if n == 0 then leaf
                else ClimbPre(h, ClimbTo(h, leaf, index, steps, n - 1), Halve(index, n - 1), steps[n - 1]);
    var there := TreePre(h, CHECKPOINT_INTERNAL_TAG, t);
    if here != there || n == 0 || t.Leaf? then Preimages(there, here)
    else ProofCollision(h, if Halve(index, n - 1) % 2 == 0 then t.left else t.right, leaf, index, steps, n - 1)
  }

  lemma {:induction false} AcceptedLeafIsInTree(h: HashFn, t: Tree, leaf: Message,
                                                index: nat, steps: seq<CheckpointStep>, n: nat)
    requires n <= |steps| && Separated(CHECKPOINT_INTERNAL_TAG, t)
    requires |leaf.bytes| > 0 && leaf.bytes[0] != CHECKPOINT_INTERNAL_TAG
    requires ClimbTo(h, leaf, index, steps, n) == TreeHash(h, CHECKPOINT_INTERNAL_TAG, t)
    ensures leaf in Leaves(t) || IsCollision(h, ProofCollision(h, t, leaf, index, steps, n))
    decreases n
  {
    var tag := CHECKPOINT_INTERNAL_TAG;
    if n == 0 {
      if t.Node? { TagsDiffer(tag, leaf, TreeHash(h, tag, t.left), TreeHash(h, tag, t.right)); }
    } else {
      var acc, i, step := ClimbTo(h, leaf, index, steps, n - 1), Halve(index, n - 1), steps[n - 1];
      if t.Leaf? {
        TagsDiffer(tag, t.pre, if i % 2 == 0 then acc else step.sibling, if i % 2 == 0 then step.sibling else acc);
      } else if ClimbPre(h, acc, i, step) == TreePre(h, tag, t) {
        var l, r := TreeHash(h, tag, t.left), TreeHash(h, tag, t.right);
        if i % 2 == 0 {
          NodePreInjective(tag, acc, step.sibling, tag, l, r);
          AcceptedLeafIsInTree(h, t.left, leaf, index, steps, n - 1);
        } else {
          NodePreInjective(tag, step.sibling, acc, tag, l, r);
          AcceptedLeafIsInTree(h, t.right, leaf, index, steps, n - 1);
        }
      }
    }
  }

  lemma EntryTreesSound(entries: seq<TenantRoot>)
    requires entries != []
    ensures Separated(CHECKPOINT_INTERNAL_TAG, TopTree(EntryTrees(entries)))
    ensures forall m :: m in Leaves(TopTree(EntryTrees(entries))) ==>
              exists i :: 0 <= i < |entries| && m == LeafMessage(entries[i])
  {
    var ts := EntryTrees(entries);
    var msgs := set i | 0 <= i < |entries| :: LeafMessage(entries[i]);
    forall t | t in ts ensures Separated(CHECKPOINT_INTERNAL_TAG, t) && Leaves(t) <= msgs {
      var i :| 0 <= i < |ts| && ts[i] == t;
      assert t == Leaf(LeafMessage(entries[i]));
      assert LeafMessage(entries[i]) in msgs;
    }
    TopTreeSeparated(CHECKPOINT_INTERNAL_TAG, ts);
    TopTreeLeaves(ts, msgs);
  }

  /** Any accepted proof, whatever its index and number of steps, names a committed pair, or
      exhibits a collision. */
  lemma AcceptedIsCommitted(h: HashFn, entries: seq<TenantRoot>, proof: TenantRootProof)
    requires entries != [] && Accepts(h, RootOver(h, entries), proof)
    ensures || TenantRoot(proof.tenant, proof.root) in entries
            || IsCollision(h, ProofCollision(h, TopTree(EntryTrees(entries)),
                                             LeafMessage(TenantRoot(proof.tenant, proof.root)),
                                             proof.index, proof.steps, |proof.steps|))
  {
    var claim := TenantRoot(proof.tenant, proof.root);
    var leaf, t := LeafMessage(claim), TopTree(EntryTrees(entries));
    ClimbIsClimbTo(h, leaf, proof.index, proof.steps, 0);
    assert proof.steps[0..] == proof.steps;
    EntryTreesSound(entries);
    AcceptedLeafIsInTree(h, t, leaf, proof.index, proof.steps, |proof.steps|);
    if leaf in Leaves(t) {
      var i :| 0 <= i < |entries| && leaf == LeafMessage(entries[i]);
      LeafMessageInjective(claim, entries[i]);
    }
  }

  /** Two entry lists with one root are one list, or exhibit a collision. */
  lemma CheckpointBinds(h: HashFn, a: seq<TenantRoot>, b: seq<TenantRoot>)
    requires a != [] && b != [] && OneRootPerTenant(a) && OneRootPerTenant(b)
    requires RootOver(h, a) == RootOver(h, b)
    ensures || a == b
            || IsCollision(h, TreeCollision(h, CHECKPOINT_INTERNAL_TAG,
                                            TopTree(EntryTrees(a)), TopTree(EntryTrees(b))))
  {
    EntryTreesSound(a);
    EntryTreesSound(b);
    var ta, tb := EntryTrees(a), EntryTrees(b);
    TreeBinding(h, CHECKPOINT_INTERNAL_TAG, TopTree(ta), TopTree(tb));
    if TopTree(ta) == TopTree(tb) {
      EntryTreesDistinct(a);
      EntryTreesDistinct(b);
      TopTreeInjectiveDistinct(ta, tb, 0);
      forall i | 0 <= i < |a| ensures a[i] == b[i] {
        assert ta[i] == tb[i];
        LeafMessageInjective(a[i], b[i]);
      }
    }
  }

  lemma EntryTreesDistinct(entries: seq<TenantRoot>)
    requires OneRootPerTenant(entries)
    ensures Distinct(EntryTrees(entries)) && AllAt(EntryTrees(entries), 0)
  {
    var ts := EntryTrees(entries);
    forall i, j | 0 <= i < j < |ts| ensures ts[i] != ts[j] {
      if LeafMessage(entries[i]) == LeafMessage(entries[j]) { LeafMessageInjective(entries[i], entries[j]); }
    }
  }
}
