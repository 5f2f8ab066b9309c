/** The sparse Merkle accumulator (`crates/statechronicle-accumulator/src/sparse_merkle.rs`):
    root computation over the sorted leaves, the prover, and the path verifier, all measured
    against the dense tree that has one leaf for each of the 2^256 keys. */
module SparseMerkle {
  import opened Bytes
  import opened Ordering
  import opened StateKeys

  /** Tree depth in levels: one for each key bit. */
  const TREE_DEPTH: nat := KEY_BITS
  const INTERNAL_NODE_TAG: byte := 0x10
  const LEAF_NODE_TAG: byte := 0x11

  function InternalHash(h: HashFn, left: Digest, right: Digest): Digest {
    h(NodePre(INTERNAL_NODE_TAG, left, right))
  }

  function LeafHash(h: HashFn, key: Key, stateDigest: Digest): Digest {
    h(NodePre(LEAF_NODE_TAG, key, stateDigest))
  }

  function EmptyLeaf(h: HashFn): Digest { LeafHash(h, ZEROS, ZEROS) }

  /** `default[level]`, by the recurrence that defines the precomputed table. */
  function DefaultHash(h: HashFn, level: nat): Digest {
    if level == 0 || level > TREE_DEPTH then EmptyLeaf(h)
    else InternalHash(h, DefaultHash(h, level - 1), DefaultHash(h, level - 1))
  }

  type Leaves = map<Key, Digest>

  // ----- The dense tree -----

  /** What is hashed at a key's slot. */
  function LeafPre(m: Leaves, key: Key): Message {
    if key in m then NodePre(LEAF_NODE_TAG, key, m[key]) else NodePre(LEAF_NODE_TAG, ZEROS, ZEROS)
  }

  /** The node at `path` (root first) of the full tree: no subtree is skipped. */
  ghost function DenseNode(h: HashFn, m: Leaves, path: seq<bool>): Digest
    requires |path| <= TREE_DEPTH
    decreases TREE_DEPTH - |path|
  {
    if |path| == TREE_DEPTH then h(LeafPre(m, KeyAt(path)))
    else InternalHash(h, DenseNode(h, m, path + [false]), DenseNode(h, m, path + [true]))
  }

  ghost function DenseRoot(h: HashFn, m: Leaves): Digest { DenseNode(h, m, []) }

  lemma {:induction false} EmptyDense(h: HashFn, m: Leaves, path: seq<bool>)
    requires |path| <= TREE_DEPTH && forall k :: k in m ==> !(path <= Bits(k))
    ensures DenseNode(h, m, path) == DefaultHash(h, TREE_DEPTH - |path|)
    decreases TREE_DEPTH - |path|
  {
    if |path| == TREE_DEPTH {
      KeyOfPath(path);
    } else {
      EmptyDense(h, m, path + [false]);
      EmptyDense(h, m, path + [true]);
    }
  }

  // ----- Sorted entries -----

  type Entry = (Key, Digest)

  predicate InOrder(entries: seq<Entry>, i: nat, j: nat)
    requires i < |entries| && j < |entries|
  {
    KeyLe(entries[i].0, entries[j].0)
  }

  /** `entries` lists `m` in ascending key order. */
  ghost predicate Lists(m: Leaves, entries: seq<Entry>) {
    && (forall i :: 0 <= i < |entries| ==> entries[i].0 in m && m[entries[i].0] == entries[i].1)
    && (forall k :: k in m ==> exists i :: 0 <= i < |entries| && entries[i].0 == k)
    && (forall i, j {:trigger InOrder(entries, i, j)} :: 0 <= i < j < |entries| ==> InOrder(entries, i, j))
  }

  function SortedKeys(m: Leaves): (keys: seq<Key>)
    ensures Sorted(KeyLe, keys) && forall k :: k in keys <==> k in m
  {
    KeyLeIsTotalOrder();
    SortedSet(KeyLe, m.Keys)
  }

  function Pairs(m: Leaves, keys: seq<Key>): (entries: seq<Entry>)
    requires forall k :: k in keys ==> k in m
    ensures |entries| == |keys|
    ensures forall i :: 0 <= i < |keys| ==> entries[i] == (keys[i], m[keys[i]])
  {
    if keys == [] then [] else [(keys[0], m[keys[0]])] + Pairs(m, keys[1..])
  }

  /** `BTreeMap::iter`. */
  function EntriesOf(m: Leaves): (entries: seq<Entry>)
    ensures Lists(m, entries)
  {
    PairsList(m, SortedKeys(m));
    Pairs(m, SortedKeys(m))
  }

  lemma PairsList(m: Leaves, keys: seq<Key>)
    requires Sorted(KeyLe, keys) && forall k :: k in keys <==> k in m
    ensures Lists(m, Pairs(m, keys))
  {
    var entries := Pairs(m, keys);
    forall k | k in m ensures exists i :: 0 <= i < |entries| && entries[i].0 == k {
      assert k in keys;
      var i :| 0 <= i < |keys| && keys[i] == k;
      assert entries[i] == (keys[i], m[keys[i]]);
    }
    forall i | 0 <= i < |entries| ensures entries[i].0 in m && m[entries[i].0] == entries[i].1 {
      assert entries[i] == (keys[i], m[keys[i]]) && keys[i] in keys;
    }
    forall i, j | 0 <= i < j < |entries| ensures InOrder(entries, i, j) {
      assert entries[i] == (keys[i], m[keys[i]]) && entries[j] == (keys[j], m[keys[j]]);
    }
  }

  /** `entries[start..end]` are exactly the entries below `path`. */
  ghost predicate Within(entries: seq<Entry>, start: nat, end: nat, path: seq<bool>) {
    && start <= end <= |entries|
    && forall i :: 0 <= i < |entries| ==> (start <= i < end <==> path <= Bits(entries[i].0))
  }

  lemma RootRange(entries: seq<Entry>, key: Key)
    ensures Bits(key)[..0] == [] && Within(entries, 0, |entries|, [])
  {
  }

  /** `split_at`: the first entry of the range whose routing bit is set. */
  function SplitAt(entries: seq<Entry>, start: nat, end: nat, bit: nat): (split: nat)
    requires start <= end <= |entries|
    ensures start <= split <= end
    decreases end - start
  {
    if start == end || BitAt(entries[start].0, bit) then start
    else SplitAt(entries, start + 1, end, bit)
  }

  lemma {:induction false} SplitAtFirst(entries: seq<Entry>, start: nat, end: nat, bit: nat)
    requires start <= end <= |entries|
    ensures forall i :: start <= i < SplitAt(entries, start, end, bit) ==> !BitAt(entries[i].0, bit)
    ensures SplitAt(entries, start, end, bit) < end ==> BitAt(entries[SplitAt(entries, start, end, bit)].0, bit)
    decreases end - start
  {
    if !(start == end || BitAt(entries[start].0, bit)) { SplitAtFirst(entries, start + 1, end, bit); }
  }

  lemma ExtendPrefix(path: seq<bool>, b: bool, bits: seq<bool>)
    requires |path| < |bits|
    ensures path + [b] <= bits <==> path <= bits && bits[|path|] == b
  {
  }

  /** On every subrange the tree visits the routing bit is monotone. */
  lemma BitIsMonotone(m: Leaves, entries: seq<Entry>, start: nat, end: nat, path: seq<bool>, i: nat, j: nat)
    requires |path| < TREE_DEPTH && Lists(m, entries) && Within(entries, start, end, path)
    requires start <= i <= j < end
    ensures BitAt(entries[i].0, |path|) ==> BitAt(entries[j].0, |path|)
  {
    if i < j {
      var a, b := entries[i].0, entries[j].0;
      assert path <= Bits(a) && path <= Bits(b);
      assert Bits(a)[..|path|] == path == Bits(b)[..|path|];
      assert InOrder(entries, i, j);
      KeyOrderIsBitOrder(a, b, |path|);
    }
  }

  /** Both halves of a split are again such subranges. */
  lemma SplitIsMonotone(m: Leaves, entries: seq<Entry>, start: nat, end: nat, path: seq<bool>)
    requires |path| < TREE_DEPTH && Lists(m, entries) && Within(entries, start, end, path)
    ensures forall i :: SplitAt(entries, start, end, |path|) <= i < end ==> BitAt(entries[i].0, |path|)
    ensures Within(entries, start, SplitAt(entries, start, end, |path|), path + [false])
    ensures Within(entries, SplitAt(entries, start, end, |path|), end, path + [true])
  {
    var n := |path|;
    var split := SplitAt(entries, start, end, n);
    SplitAtFirst(entries, start, end, n);
    forall i | split <= i < end ensures BitAt(entries[i].0, n) {
      BitIsMonotone(m, entries, start, end, path, split, i);
    }
    forall i, b | 0 <= i < |entries|
      ensures path + [b] <= Bits(entries[i].0) <==> start <= i < end && BitAt(entries[i].0, n) == b
    {
      ExtendPrefix(path, b, Bits(entries[i].0));
    }
  }

  /** So `SplitAt` is the one index `partition_point` may return. */
  lemma SplitIsPartitionPoint(m: Leaves, entries: seq<Entry>, start: nat, end: nat, path: seq<bool>, p: nat)
    requires |path| < TREE_DEPTH && Lists(m, entries) && Within(entries, start, end, path)
    requires start <= p <= end
    ensures p == SplitAt(entries, start, end, |path|) <==>
            && (forall i :: start <= i < p ==> !BitAt(entries[i].0, |path|))
            && (forall i :: p <= i < end ==> BitAt(entries[i].0, |path|))
  {
    SplitIsMonotone(m, entries, start, end, path);
    SplitAtFirst(entries, start, end, |path|);
    var split := SplitAt(entries, start, end, |path|);
    if p < split { assert !BitAt(entries[p].0, |path|); }
    if split < p { assert BitAt(entries[split].0, |path|); }
  }

  /** `node_hash` over `entries[start..end]` at `height`. */
  function NodeHash(h: HashFn, entries: seq<Entry>, start: nat, end: nat, height: nat): Digest
    requires start <= end <= |entries| && height <= TREE_DEPTH
    decreases height
  {
    if start >= end then DefaultHash(h, height)
    else if height == 0 then LeafHash(h, entries[start].0, entries[start].1)
    else
      var split := SplitAt(entries, start, end, TREE_DEPTH - height);
      InternalHash(h, NodeHash(h, entries, start, split, height - 1),
                   NodeHash(h, entries, split, end, height - 1))
  }

  lemma NothingBelow(m: Leaves, entries: seq<Entry>, start: nat, end: nat, path: seq<bool>)
    requires Lists(m, entries) && Within(entries, start, end, path) && start >= end
    ensures forall k :: k in m ==> !(path <= Bits(k))
  {
    hide Bits;
  }

  lemma LeafIsDense(h: HashFn, m: Leaves, entries: seq<Entry>, start: nat, end: nat, path: seq<bool>)
    requires |path| == TREE_DEPTH && Lists(m, entries) && Within(entries, start, end, path) && start < end
    ensures NodeHash(h, entries, start, end, 0) == DenseNode(h, m, path)
  {
    var key := entries[start].0;
    hide Bits, KeyAt;
    assert path <= Bits(key) && path == Bits(key);
    PathOfKey(key);
  }

  /** Sparse refines dense, at every node. */
  lemma {:induction false} NodeHashIsDense(h: HashFn, m: Leaves, entries: seq<Entry>,
                                          start: nat, end: nat, path: seq<bool>)
    requires |path| <= TREE_DEPTH && Lists(m, entries) && Within(entries, start, end, path)
    ensures NodeHash(h, entries, start, end, TREE_DEPTH - |path|) == DenseNode(h, m, path)
    decreases TREE_DEPTH - |path|
  {
    assert start <= end <= |entries|;
    hide Bits, Lists, Within, LeafPre, KeyAt;
    if start >= end {
      NothingBelow(m, entries, start, end, path);
      EmptyDense(h, m, path);
    } else if |path| == TREE_DEPTH {
      LeafIsDense(h, m, entries, start, end, path);
    } else {
      hide SplitAt, DefaultHash;
      var split := SplitAt(entries, start, end, |path|);
      SplitIsMonotone(m, entries, start, end, path);
      NodeHashIsDense(h, m, entries, start, split, path + [false]);
      NodeHashIsDense(h, m, entries, split, end, path + [true]);
    }
  }

  /** `compute_root`. */
  function ComputeRoot(h: HashFn, m: Leaves): Digest {
    var entries := EntriesOf(m);
    NodeHash(h, entries, 0, |entries|, TREE_DEPTH)
  }

  /** The root is that of the dense tree, for every leaf map. */
  lemma SparseRefinesDense(h: HashFn, m: Leaves)
    ensures ComputeRoot(h, m) == DenseRoot(h, m)
  {
    var entries := EntriesOf(m);
    RootRange(entries, ZEROS);
    NodeHashIsDense(h, m, entries, 0, |entries|, []);
  }

  // ----- The prover -----

  datatype PathStep = PathStep(level: nat, sibling: Digest)

  /** The subtree beside the path to `key`, at `level` (0 is next to the leaf). */
  function SiblingPath(key: Key, level: nat): (path: seq<bool>)
    requires level < TREE_DEPTH
    ensures |path| == TREE_DEPTH - level
  {
    Bits(key)[..TREE_DEPTH - 1 - level] + [!Bits(key)[TREE_DEPTH - 1 - level]]
  }

  ghost function Sibling(h: HashFn, m: Leaves, key: Key, level: nat): Digest
    requires level < TREE_DEPTH
  {
    DenseNode(h, m, SiblingPath(key, level))
  }

  /** The step a proof must carry for `level`: none when the sibling is the default. */
  ghost function CanonicalStep(h: HashFn, m: Leaves, key: Key, level: nat): seq<PathStep>
    requires level < TREE_DEPTH
  {
    var sibling := Sibling(h, m, key, level);
    if sibling == DefaultHash(h, level) then [] else [PathStep(level, sibling)]
  }

  /** The canonical steps below `height`, leaf-adjacent first. */
  ghost function CanonicalSteps(h: HashFn, m: Leaves, key: Key, height: nat): seq<PathStep>
    requires height <= TREE_DEPTH
  {
    if height == 0 then []
    else CanonicalSteps(h, m, key, height - 1) + CanonicalStep(h, m, key, height - 1)
  }

  predicate LevelBefore(steps: seq<PathStep>, i: nat, j: nat)
    requires i < |steps| && j < |steps|
  {
    steps[i].level < steps[j].level
  }

  /** Strictly ascending levels. */
  ghost predicate Ascending(steps: seq<PathStep>) {
    forall i, j {:trigger LevelBefore(steps, i, j)} :: 0 <= i < j < |steps| ==> LevelBefore(steps, i, j)
  }

  lemma {:induction false} CanonicalStepsMember(h: HashFn, m: Leaves, key: Key, height: nat, s: PathStep)
    requires height <= TREE_DEPTH
    ensures s in CanonicalSteps(h, m, key, height) <==>
              && s.level < height
              && s.sibling == Sibling(h, m, key, s.level)
              && s.sibling != DefaultHash(h, s.level)
  {
    hide DenseNode, Bits;
    if height > 0 {
      var below, here := CanonicalSteps(h, m, key, height - 1), CanonicalStep(h, m, key, height - 1);
      CanonicalStepsMember(h, m, key, height - 1, s);
      assert s in below + here <==> s in below || s in here;
    }
  }

  lemma {:induction false} CanonicalStepsAscend(h: HashFn, m: Leaves, key: Key, height: nat)
    requires height <= TREE_DEPTH
    ensures Ascending(CanonicalSteps(h, m, key, height))
    ensures forall s :: s in CanonicalSteps(h, m, key, height) ==> s.level < height
  {
    hide DenseNode, Bits, Ascending;
    if height == 0 {
      NoStepsAscend();
    } else {
      CanonicalStepsAscend(h, m, key, height - 1);
      var below, here := CanonicalSteps(h, m, key, height - 1), CanonicalStep(h, m, key, height - 1);
      AscendingAppend(below, here, height - 1);
    }
  }

  lemma NoStepsAscend()
    ensures Ascending([])
  {
  }

  lemma AscendingAppend(below: seq<PathStep>, here: seq<PathStep>, level: nat)
    requires Ascending(below) && forall s :: s in below ==> s.level < level
    requires |here| <= 1 && forall s :: s in here ==> s.level == level
    ensures Ascending(below + here)
  {
    forall i, j | 0 <= i < j < |below + here| ensures LevelBefore(below + here, i, j) {
      assert i < |below| && below[i] in below;
      if j < |below| { assert LevelBefore(below, i, j); } else { assert here[j - |below|] in here; }
    }
  }

  /** Canonicity: strictly ascending levels, and a step exactly where the dense sibling is
      not the default. */
  lemma CanonicalStepsExact(h: HashFn, m: Leaves, key: Key, height: nat)
    requires height <= TREE_DEPTH
    ensures Ascending(CanonicalSteps(h, m, key, height))
    ensures forall s :: s in CanonicalSteps(h, m, key, height) <==>
              && s.level < height
              && s.sibling == Sibling(h, m, key, s.level)
              && s.sibling != DefaultHash(h, s.level)
  {
    forall s
      ensures s in CanonicalSteps(h, m, key, height) <==>
              && s.level < height
              && s.sibling == Sibling(h, m, key, s.level)
              && s.sibling != DefaultHash(h, s.level)
    {
      CanonicalStepsMember(h, m, key, height, s);
    }
    CanonicalStepsAscend(h, m, key, height);
  }

  function Reverse<T>(s: seq<T>): seq<T> {
    if s == [] then [] else Reverse(s[1..]) + [s[0]]
  }

  lemma {:induction false} ReverseConcat<T>(a: seq<T>, b: seq<T>)
    ensures Reverse(a + b) == Reverse(b) + Reverse(a)
  {
    if a == [] {
      assert a + b == b;
    } else {
      assert (a + b)[1..] == a[1..] + b;
      ReverseConcat(a[1..], b);
    }
  }

  lemma ReverseOfFew<T>(a: seq<T>)
    requires |a| <= 1
    ensures Reverse(a) == a
  {
    if a != [] { assert a[1..] == [] && a == [a[0]]; }
  }

  /** The step for one sibling range. */
  function RangeStep(h: HashFn, entries: seq<Entry>, start: nat, end: nat, level: nat): seq<PathStep>
    requires start <= end <= |entries| && level < TREE_DEPTH
  {
    if start < end && NodeHash(h, entries, start, end, level) != DefaultHash(h, level)
    then [PathStep(level, NodeHash(h, entries, start, end, level))] else []
  }

  /** What `collect_steps_inner` pushes, root first. */
  function StepsDown(h: HashFn, entries: seq<Entry>, start: nat, end: nat, height: nat, target: Key): seq<PathStep>
    requires start <= end <= |entries| && height <= TREE_DEPTH
    decreases height
  {
    if height == 0 then []
    else
      var split := SplitAt(entries, start, end, TREE_DEPTH - height);
      if BitAt(target, TREE_DEPTH - height)
      then RangeStep(h, entries, start, split, height - 1) + StepsDown(h, entries, split, end, height - 1, target)
      else RangeStep(h, entries, split, end, height - 1) + StepsDown(h, entries, start, split, height - 1, target)
  }

  /** `collect_steps_inner`: walks down from `height`, pushing onto `steps`. */
  method CollectStepsInner(h: HashFn, entries: seq<Entry>, start: nat, end: nat, height: nat, target: Key,
                           steps: seq<PathStep>)
    returns (out: seq<PathStep>)
    requires start <= end <= |entries| && height <= TREE_DEPTH
    ensures out == steps + StepsDown(h, entries, start, end, height, target)
    decreases height
  {
    hide Bits, NodeHash, DefaultHash, SplitAt;
    out := steps;
    if height == 0 { return; }
    var bit := TREE_DEPTH - height;
    var split := SplitAt(entries, start, end, bit);
    var pathStart, pathEnd, sibStart, sibEnd := start, split, split, end;
    if BitAt(target, bit) { pathStart, pathEnd, sibStart, sibEnd := split, end, start, split; }
    var childHeight := height - 1;
    if sibStart < sibEnd {
      var sibling := NodeHash(h, entries, sibStart, sibEnd, childHeight);
      if sibling != DefaultHash(h, childHeight) { out := out + [PathStep(childHeight, sibling)]; }
    }
    ghost var step := RangeStep(h, entries, sibStart, sibEnd, childHeight);
    ghost var below := StepsDown(h, entries, pathStart, pathEnd, childHeight, target);
    assert out == steps + step;
    out := CollectStepsInner(h, entries, pathStart, pathEnd, childHeight, target, out);
    assert StepsDown(h, entries, start, end, height, target) == step + below;
    ConcatAssoc(steps, step, below);
  }

  lemma RangeStepCanonical(h: HashFn, m: Leaves, entries: seq<Entry>, start: nat, end: nat, level: nat, target: Key)
    requires level < TREE_DEPTH && Lists(m, entries)
    requires Within(entries, start, end, SiblingPath(target, level))
    ensures RangeStep(h, entries, start, end, level) == CanonicalStep(h, m, target, level)
  {
    NodeHashIsDense(h, m, entries, start, end, SiblingPath(target, level));
  }

  /** The canonical steps below `height`, root first. */
  ghost function CanonicalDown(h: HashFn, m: Leaves, key: Key, height: nat): seq<PathStep>
    requires height <= TREE_DEPTH
  {
    if height == 0 then []
    else CanonicalStep(h, m, key, height - 1) + CanonicalDown(h, m, key, height - 1)
  }

  lemma {:induction false} CanonicalReversed(h: HashFn, m: Leaves, key: Key, height: nat)
    requires height <= TREE_DEPTH
    ensures Reverse(CanonicalDown(h, m, key, height)) == CanonicalSteps(h, m, key, height)
  {
    hide DenseNode, Bits, Sibling, DefaultHash, Reverse;
    if height == 0 {
      ReverseOfFew<PathStep>([]);
    } else {
      CanonicalReversed(h, m, key, height - 1);
      ReverseConcat(CanonicalStep(h, m, key, height - 1), CanonicalDown(h, m, key, height - 1));
      ReverseOfFew(CanonicalStep(h, m, key, height - 1));
    }
  }

  /** Routing one level down on the target's bit splits a range into the path's half and the
      sibling's half. */
  lemma RoutedHalves(m: Leaves, entries: seq<Entry>, start: nat, end: nat, height: nat, target: Key)
    requires 0 < height <= TREE_DEPTH && Lists(m, entries)
    requires Within(entries, start, end, Bits(target)[..TREE_DEPTH - height])
    ensures var bit := TREE_DEPTH - height;
            var split := SplitAt(entries, start, end, bit);
            if BitAt(target, bit)
            then Within(entries, start, split, SiblingPath(target, height - 1))
                 && Within(entries, split, end, Bits(target)[..bit + 1])
            else Within(entries, start, split, Bits(target)[..bit + 1])
                 && Within(entries, split, end, SiblingPath(target, height - 1))
  {
    var bit := TREE_DEPTH - height;
    var path := Bits(target)[..bit];
    SplitIsMonotone(m, entries, start, end, path);
    assert path + [BitAt(target, bit)] == Bits(target)[..bit + 1];
    assert path + [!BitAt(target, bit)] == SiblingPath(target, height - 1);
  }

  lemma {:induction false} StepsDownCanonical(h: HashFn, m: Leaves, entries: seq<Entry>, start: nat, end: nat,
                                             height: nat, target: Key)
    requires height <= TREE_DEPTH && Lists(m, entries)
    requires Within(entries, start, end, Bits(target)[..TREE_DEPTH - height])
    ensures StepsDown(h, entries, start, end, height, target) == CanonicalDown(h, m, target, height)
    decreases height
  {
    hide Bits, NodeHash, DenseNode, Within, Lists, SplitAt, RangeStep, CanonicalStep;
    if height > 0 {
      RoutedHalves(m, entries, start, end, height, target);
      var split := SplitAt(entries, start, end, TREE_DEPTH - height);
      if BitAt(target, TREE_DEPTH - height) {
        StepsDownCanonical(h, m, entries, split, end, height - 1, target);
        RangeStepCanonical(h, m, entries, start, split, height - 1, target);
      } else {
        StepsDownCanonical(h, m, entries, start, split, height - 1, target);
        RangeStepCanonical(h, m, entries, split, end, height - 1, target);
      }
    }
  }

  /** `collect_steps`: the prover emits exactly the canonical steps. */
  method CollectSteps(h: HashFn, m: Leaves, key: Key) returns (steps: seq<PathStep>)
    ensures steps == CanonicalSteps(h, m, key, TREE_DEPTH)
  {
    var entries := EntriesOf(m);
    RootRange(entries, key);
    StepsDownCanonical(h, m, entries, 0, |entries|, TREE_DEPTH, key);
    var down := CollectStepsInner(h, entries, 0, |entries|, TREE_DEPTH, key, []);
    assert down == StepsDown(h, entries, 0, |entries|, TREE_DEPTH, key);
    CanonicalReversed(h, m, key, TREE_DEPTH);
    steps := Reverse(down);
  }

  // ----- The verifier -----

  /** `steps` collected into a `BTreeMap`: a repeated level keeps its last sibling. */
  function LevelMap(steps: seq<PathStep>): map<nat, Digest> {
    if steps == [] then map[]
    else LevelMap(steps[..|steps| - 1])[steps[|steps| - 1].level := steps[|steps| - 1].sibling]
  }

  function SiblingAt(h: HashFn, look: map<nat, Digest>, level: nat): Digest {
    if level in look then look[level] else DefaultHash(h, level)
  }

  /** The two children hashed at `level`, given the node below on the path. */
  function JoinPre(h: HashFn, key: Key, look: map<nat, Digest>, level: nat, node: Digest): Message
    requires level < TREE_DEPTH
  {
    if BitAt(key, TREE_DEPTH - 1 - level) then NodePre(INTERNAL_NODE_TAG, SiblingAt(h, look, level), node)
    else NodePre(INTERNAL_NODE_TAG, node, SiblingAt(h, look, level))
  }

  /** The node a proof reconstructs at height `n` of the path to `key`. */
  function PathNode(h: HashFn, key: Key, leaf: Digest, look: map<nat, Digest>, n: nat): Digest
    requires n <= TREE_DEPTH
  {
    if n == 0 then leaf else h(JoinPre(h, key, look, n - 1, PathNode(h, key, leaf, look, n - 1)))
  }

  /** What it is for a path to lead to `root`. */
  predicate PathLeadsTo(h: HashFn, root: Digest, key: Key, leaf: Digest, steps: seq<PathStep>) {
    PathNode(h, key, leaf, LevelMap(steps), TREE_DEPTH) == root
  }

  /** `verify_path` of the accumulator crate. */
  method VerifyPath(h: HashFn, root: Digest, key: Key, leaf: Digest, steps: seq<PathStep>)
    returns (accepted: bool)
    ensures accepted == PathLeadsTo(h, root, key, leaf, steps)
  {
    var byLevel: map<nat, Digest> := map[];
    for i := 0 to |steps|
      invariant byLevel == LevelMap(steps[..i])
    {
      byLevel := byLevel[steps[i].level := steps[i].sibling];
      assert steps[..i + 1][..i] == steps[..i];
    }
    assert steps[..|steps|] == steps;
    var acc := leaf;
    var level := 0;
    while level < TREE_DEPTH
      invariant level <= TREE_DEPTH
      invariant acc == PathNode(h, key, leaf, byLevel, level)
    {
      var routingBit := TREE_DEPTH - 1 - level;
      var sibling := if level in byLevel then byLevel[level] else DefaultHash(h, level);
      acc := if BitAt(key, routingBit) then InternalHash(h, sibling, acc) else InternalHash(h, acc, sibling);
      level := level + 1;
    }
    accepted := acc == root;
  }

  lemma {:induction false} LevelMapDomain(steps: seq<PathStep>, l: nat)
    ensures l in LevelMap(steps) <==> exists i :: 0 <= i < |steps| && steps[i].level == l
  {
    if steps != [] {
      var front := steps[..|steps| - 1];
      LevelMapDomain(front, l);
      if i :| 0 <= i < |front| && front[i].level == l { assert steps[i].level == l; }
      if i :| 0 <= i < |steps| - 1 && steps[i].level == l { assert front[i].level == l; }
    }
  }

  lemma {:induction false} LevelMapOfAscending(steps: seq<PathStep>, i: nat)
    requires Ascending(steps) && i < |steps|
    ensures steps[i].level in LevelMap(steps) && LevelMap(steps)[steps[i].level] == steps[i].sibling
  {
    if i < |steps| - 1 {
      var front := steps[..|steps| - 1];
      assert LevelBefore(steps, i, |steps| - 1);
      forall j, k | 0 <= j < k < |front| ensures LevelBefore(front, j, k) {
        assert LevelBefore(steps, j, k);
      }
      LevelMapOfAscending(front, i);
    }
  }

  /** A canonical proof restores every dense sibling, omitted ones included. */
  lemma CanonicalSiblings(h: HashFn, m: Leaves, key: Key, level: nat)
    requires level < TREE_DEPTH
    ensures SiblingAt(h, LevelMap(CanonicalSteps(h, m, key, TREE_DEPTH)), level) == Sibling(h, m, key, level)
  {
    hide CanonicalSteps, DenseNode, Bits, LevelMap;
    var steps := CanonicalSteps(h, m, key, TREE_DEPTH);
    CanonicalStepsExact(h, m, key, TREE_DEPTH);
    LevelMapDomain(steps, level);
    if level in LevelMap(steps) {
      var i :| 0 <= i < |steps| && steps[i].level == level;
      LevelMapOfAscending(steps, i);
      assert steps[i] in steps;
    } else {
      var s := PathStep(level, Sibling(h, m, key, level));
      assert s !in steps;
    }
  }

  /** A dense node on the path to `key`, as its two children see it. */
  lemma DenseJoin(h: HashFn, m: Leaves, key: Key, level: nat)
    requires level < TREE_DEPTH
    ensures var bit := TREE_DEPTH - 1 - level;
            var below, sibling := DenseNode(h, m, Bits(key)[..bit + 1]), Sibling(h, m, key, level);
            DenseNode(h, m, Bits(key)[..bit])
            == if BitAt(key, bit) then InternalHash(h, sibling, below) else InternalHash(h, below, sibling)
  {
    var bit := TREE_DEPTH - 1 - level;
    var path := Bits(key)[..bit];
    assert path + [BitAt(key, bit)] == Bits(key)[..bit + 1];
    assert path + [!BitAt(key, bit)] == SiblingPath(key, level);
  }

  lemma DenseLeaf(h: HashFn, m: Leaves, key: Key)
    ensures DenseNode(h, m, Bits(key)[..TREE_DEPTH]) == h(LeafPre(m, key))
  {
    assert Bits(key)[..TREE_DEPTH] == Bits(key);
    PathOfKey(key);
  }

  /** Any lookup that restores the dense siblings walks along the dense tree. */
  lemma {:induction false} DensePath(h: HashFn, m: Leaves, key: Key, look: map<nat, Digest>, n: nat)
    requires n <= TREE_DEPTH
    requires forall level :: 0 <= level < n ==> SiblingAt(h, look, level) == Sibling(h, m, key, level)
    ensures PathNode(h, key, h(LeafPre(m, key)), look, n) == DenseNode(h, m, Bits(key)[..TREE_DEPTH - n])
  {
    hide Bits, DenseNode;
    if n == 0 {
      DenseLeaf(h, m, key);
    } else {
      DensePath(h, m, key, look, n - 1);
      DenseJoin(h, m, key, n - 1);
    }
  }

  /** Completeness: the canonical proof leads to the root, for present and absent keys. */
  lemma ProverComplete(h: HashFn, m: Leaves, key: Key)
    ensures PathLeadsTo(h, ComputeRoot(h, m), key, h(LeafPre(m, key)), CanonicalSteps(h, m, key, TREE_DEPTH))
  {
    var look := LevelMap(CanonicalSteps(h, m, key, TREE_DEPTH));
    forall level | 0 <= level < TREE_DEPTH ensures SiblingAt(h, look, level) == Sibling(h, m, key, level) {
      CanonicalSiblings(h, m, key, level);
    }
    DensePath(h, m, key, look, TREE_DEPTH);
    assert Bits(key)[..0] == [];
    SparseRefinesDense(h, m);
  }
}
