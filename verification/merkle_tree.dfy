/** Plain Merkle trees with odd-duplication, shared by the event root
    (`crates/statechronicle-commit/src/roots.rs`) and the checkpoint root
    (`crates/statechronicle-accumulator/src/checkpoint.rs`). Next to the level-by-level
    computation stands the tree it hashes, so that what a root binds can be said about trees. */
module MerkleTree {
  import opened Bytes
  import opened Ordering

  function Join(h: HashFn, tag: byte, left: Digest, right: Digest): Digest { h(NodePre(tag, left, right)) }

  /** One level up: pairs joined left to right, a last odd node joined with itself. */
  function NextLevel(h: HashFn, tag: byte, level: seq<Digest>): (next: seq<Digest>)
    ensures |level| > 1 ==> |next| < |level|
    ensures level != [] ==> next != []
  {
    if level == [] then []
    else if |level| == 1 then [Join(h, tag, level[0], level[0])]
    else [Join(h, tag, level[0], level[1])] + NextLevel(h, tag, level[2..])
  }

  function LevelRoot(h: HashFn, tag: byte, level: seq<Digest>): Digest
    requires level != []
    decreases |level|
  {
    if |level| == 1 then level[0] else LevelRoot(h, tag, NextLevel(h, tag, level))
  }

  /** The `chunks(2)` loop. */
  method ComputeNextLevel(h: HashFn, tag: byte, level: seq<Digest>) returns (next: seq<Digest>)
    ensures next == NextLevel(h, tag, level)
  {
    next := [];
    var rest := level;
    while rest != []
      invariant next + NextLevel(h, tag, rest) == NextLevel(h, tag, level)
      decreases |rest|
    {
      var left := rest[0];
      var right := if |rest| > 1 then rest[1] else left;
      ghost var above := NextLevel(h, tag, if |rest| > 1 then rest[2..] else []);
      assert NextLevel(h, tag, rest) == [Join(h, tag, left, right)] + above;
      assert next + ([Join(h, tag, left, right)] + above) == (next + [Join(h, tag, left, right)]) + above;
      next := next + [Join(h, tag, left, right)];
      rest := if |rest| > 1 then rest[2..] else [];
    }
  }

  // ----- Trees -----

  datatype Tree = Leaf(pre: Message) | Node(left: Tree, right: Tree)

  function TreeHash(h: HashFn, tag: byte, t: Tree): Digest {
    match t
    case Leaf(pre) => h(pre)
    case Node(l, r) => Join(h, tag, TreeHash(h, tag, l), TreeHash(h, tag, r))
  }

  function Hashes(h: HashFn, tag: byte, ts: seq<Tree>): (ds: seq<Digest>)
    ensures |ds| == |ts|
  {
    if ts == [] then [] else [TreeHash(h, tag, ts[0])] + Hashes(h, tag, ts[1..])
  }

  function NextTrees(ts: seq<Tree>): (next: seq<Tree>)
    ensures |ts| > 1 ==> |next| < |ts|
    ensures ts != [] ==> next != []
  {
    if ts == [] then []
    else if |ts| == 1 then [Node(ts[0], ts[0])]
    else [Node(ts[0], ts[1])] + NextTrees(ts[2..])
  }

  function TopTree(ts: seq<Tree>): Tree
    requires ts != []
    decreases |ts|
  {
    if |ts| == 1 then ts[0] else TopTree(NextTrees(ts))
  }

  lemma {:induction false} NextCommutes(h: HashFn, tag: byte, ts: seq<Tree>)
    ensures NextLevel(h, tag, Hashes(h, tag, ts)) == Hashes(h, tag, NextTrees(ts))
  {
    if |ts| == 1 {
      assert Hashes(h, tag, ts) == [TreeHash(h, tag, ts[0])];
      assert Hashes(h, tag, NextTrees(ts)) == [TreeHash(h, tag, Node(ts[0], ts[0]))];
    } else if |ts| > 1 {
      NextCommutes(h, tag, ts[2..]);
      assert ts[1..][1..] == ts[2..];
      var ds := Hashes(h, tag, ts);
      assert Hashes(h, tag, ts[1..]) == [TreeHash(h, tag, ts[1])] + Hashes(h, tag, ts[2..]);
      assert ds == [TreeHash(h, tag, ts[0]), TreeHash(h, tag, ts[1])] + Hashes(h, tag, ts[2..]);
      assert ds[2..] == Hashes(h, tag, ts[2..]);
      assert NextTrees(ts)[1..] == NextTrees(ts[2..]);
    }
  }

  /** The level-by-level root is the hash of the tree. */
  lemma {:induction false} RootIsTreeHash(h: HashFn, tag: byte, ts: seq<Tree>)
    requires ts != []
    ensures LevelRoot(h, tag, Hashes(h, tag, ts)) == TreeHash(h, tag, TopTree(ts))
    decreases |ts|
  {
    if |ts| > 1 {
      NextCommutes(h, tag, ts);
      RootIsTreeHash(h, tag, NextTrees(ts));
    }
  }

  // ----- Binding -----

  /** No leaf message can be taken for an inner node. */
  predicate Separated(tag: byte, t: Tree) {
    match t
    case Leaf(pre) => |pre.bytes| > 0 && pre.bytes[0] != tag
    case Node(l, r) => Separated(tag, l) && Separated(tag, r)
  }

  function TreePre(h: HashFn, tag: byte, t: Tree): Message {
    match t
    case Leaf(pre) => pre
    case Node(l, r) => NodePre(tag, TreeHash(h, tag, l), TreeHash(h, tag, r))
  }

  /** Where two trees with one hash first hash different messages. */
  function TreeCollision(h: HashFn, tag: byte, t: Tree, u: Tree): Preimages {
    if TreePre(h, tag, t) != TreePre(h, tag, u) || t.Leaf? || u.Leaf?
    then Preimages(TreePre(h, tag, t), TreePre(h, tag, u))
    else if t.left != u.left then TreeCollision(h, tag, t.left, u.left)
    else TreeCollision(h, tag, t.right, u.right)
  }

  lemma TagsDiffer(tag: byte, pre: Message, left: Digest, right: Digest)
    requires |pre.bytes| > 0 && pre.bytes[0] != tag
    ensures pre != NodePre(tag, left, right)
  {
    assert NodePre(tag, left, right).bytes[0] == tag;
  }

  /** Two trees with one hash are one tree, or exhibit a collision. */
  lemma {:induction false} TreeBinding(h: HashFn, tag: byte, t: Tree, u: Tree)
    requires Separated(tag, t) && Separated(tag, u) && TreeHash(h, tag, t) == TreeHash(h, tag, u)
    ensures t == u || IsCollision(h, TreeCollision(h, tag, t, u))
  {
    match (t, u) {
      case (Leaf(_), Leaf(_)) =>
      case (Leaf(pre), Node(l, r)) => TagsDiffer(tag, pre, TreeHash(h, tag, l), TreeHash(h, tag, r));
      case (Node(l, r), Leaf(pre)) => TagsDiffer(tag, pre, TreeHash(h, tag, l), TreeHash(h, tag, r));
      case (Node(l, r), Node(l', r')) =>
        if TreePre(h, tag, t) == TreePre(h, tag, u) {
          NodePreInjective(tag, TreeHash(h, tag, l), TreeHash(h, tag, r),
                           tag, TreeHash(h, tag, l'), TreeHash(h, tag, r'));
          TreeBinding(h, tag, l, l');
          TreeBinding(h, tag, r, r');
        }
    }
  }

  // ----- What the shape binds -----

  lemma {:induction false} NextTreesInjective(ts: seq<Tree>, us: seq<Tree>)
    requires |ts| == |us| && NextTrees(ts) == NextTrees(us)
    ensures ts == us
  {
    if |ts| > 1 {
      assert NextTrees(ts)[1..] == NextTrees(ts[2..]) && NextTrees(us)[1..] == NextTrees(us[2..]);
      assert NextTrees(ts)[0] == NextTrees(us)[0];
      NextTreesInjective(ts[2..], us[2..]);
      assert ts == [ts[0], ts[1]] + ts[2..] && us == [us[0], us[1]] + us[2..];
    } else if |ts| == 1 {
      assert NextTrees(ts)[0] == NextTrees(us)[0];
    }
  }

  lemma {:induction false} NextTreesLength(ts: seq<Tree>, us: seq<Tree>)
    requires |ts| == |us|
    ensures |NextTrees(ts)| == |NextTrees(us)|
  {
    if |ts| > 1 { NextTreesLength(ts[2..], us[2..]); }
  }

  /** Lists of one length are told apart by their tree. */
  lemma {:induction false} TopTreeInjective(ts: seq<Tree>, us: seq<Tree>)
    requires |ts| == |us| > 0 && TopTree(ts) == TopTree(us)
    ensures ts == us
    decreases |ts|
  {
    if |ts| > 1 {
      NextTreesLength(ts, us);
      TopTreeInjective(NextTrees(ts), NextTrees(us));
      NextTreesInjective(ts, us);
    } else {
      assert ts == [ts[0]] && us == [us[0]];
    }
  }

  /** Height along the left spine. */
  function Height(t: Tree): nat {
    match t
    case Leaf(_) => 0
    case Node(l, _) => 1 + Height(l)
  }

  ghost predicate AllAt(ts: seq<Tree>, k: nat) { forall t :: t in ts ==> Height(t) == k }

  lemma {:induction false} NextTreesRise(ts: seq<Tree>, k: nat)
    requires AllAt(ts, k)
    ensures AllAt(NextTrees(ts), k + 1)
  {
    if |ts| > 1 {
      NextTreesRise(ts[2..], k);
      forall t | t in NextTrees(ts) ensures Height(t) == k + 1 {
        assert t == Node(ts[0], ts[1]) || t in NextTrees(ts[2..]);
      }
    }
  }

  lemma {:induction false} TopTreeHeight(ts: seq<Tree>, k: nat)
    requires ts != [] && AllAt(ts, k)
    ensures Height(TopTree(ts)) >= k && (|ts| > 1 ==> Height(TopTree(ts)) > k)
    decreases |ts|
  {
    if |ts| > 1 {
      NextTreesRise(ts, k);
      TopTreeHeight(NextTrees(ts), k + 1);
    }
  }

  lemma {:induction false} NextTreesMember(ts: seq<Tree>, t: Tree) returns (i: nat)
    requires t in NextTrees(ts)
    ensures i < |ts| && t == Node(ts[i], if i + 1 < |ts| then ts[i + 1] else ts[i])
  {
    if |ts| == 1 {
      i := 0;
    } else if t == Node(ts[0], ts[1]) {
      i := 0;
    } else {
      i := NextTreesMember(ts[2..], t);
      i := i + 2;
    }
  }

  lemma {:induction false} NextTreesDistinct(ts: seq<Tree>)
    requires Distinct(ts)
    ensures Distinct(NextTrees(ts))
  {
    if |ts| > 1 {
      var next, rest := NextTrees(ts), NextTrees(ts[2..]);
      NextTreesDistinct(ts[2..]);
      forall j | 0 < j < |next| ensures next[0] != next[j] {
        assert next[j] == rest[j - 1] && rest[j - 1] in rest;
        var i := NextTreesMember(ts[2..], rest[j - 1]);
        assert ts[0] != ts[i + 2];
      }
      forall i, j | 0 <= i < j < |next| ensures next[i] != next[j] {
        if i > 0 { assert next[i] == rest[i - 1] && next[j] == rest[j - 1]; }
      }
    }
  }

  lemma {:induction false} NextTreesInjectiveDistinct(ts: seq<Tree>, us: seq<Tree>)
    requires Distinct(ts) && Distinct(us) && NextTrees(ts) == NextTrees(us)
    ensures ts == us
  {
    if ts != [] && us != [] {
      assert NextTrees(ts)[0] == NextTrees(us)[0];
      if |ts| > 1 && |us| > 1 {
        assert NextTrees(ts)[1..] == NextTrees(ts[2..]) && NextTrees(us)[1..] == NextTrees(us[2..]);
        NextTreesInjectiveDistinct(ts[2..], us[2..]);
        assert ts == [ts[0], ts[1]] + ts[2..] && us == [us[0], us[1]] + us[2..];
      } else if |ts| == 1 && |us| == 1 {
        assert ts == [ts[0]] && us == [us[0]];
      }
    }
  }

  /** Duplicate-free lists are told apart by their tree, whatever their lengths. */
  lemma {:induction false} TopTreeInjectiveDistinct(ts: seq<Tree>, us: seq<Tree>, k: nat)
    requires ts != [] && us != [] && AllAt(ts, k) && AllAt(us, k) && Distinct(ts) && Distinct(us)
    requires TopTree(ts) == TopTree(us)
    ensures ts == us
    decreases |ts|
  {
    TopTreeHeight(ts, k);
    TopTreeHeight(us, k);
    if |ts| > 1 && |us| > 1 {
      NextTreesRise(ts, k);
      NextTreesRise(us, k);
      NextTreesDistinct(ts);
      NextTreesDistinct(us);
      TopTreeInjectiveDistinct(NextTrees(ts), NextTrees(us), k + 1);
      NextTreesInjectiveDistinct(ts, us);
    } else {
      assert ts[0] in ts && us[0] in us;
      assert ts == [ts[0]] && us == [us[0]];
    }
  }

  // ----- Lists of leaves -----

  function LeafTrees(msgs: seq<Message>): (ts: seq<Tree>)
    ensures |ts| == |msgs| && forall i :: 0 <= i < |msgs| ==> ts[i] == Leaf(msgs[i])
  {
    if msgs == [] then [] else [Leaf(msgs[0])] + LeafTrees(msgs[1..])
  }

  lemma {:induction false} NextTreesSeparated(tag: byte, ts: seq<Tree>)
    requires forall t :: t in ts ==> Separated(tag, t)
    ensures forall t :: t in NextTrees(ts) ==> Separated(tag, t)
  {
    forall t | t in NextTrees(ts) ensures Separated(tag, t) {
      var i := NextTreesMember(ts, t);
      assert ts[i] in ts;
      if i + 1 < |ts| { assert ts[i + 1] in ts; }
    }
  }

  lemma {:induction false} TopTreeSeparated(tag: byte, ts: seq<Tree>)
    requires ts != [] && forall t :: t in ts ==> Separated(tag, t)
    ensures Separated(tag, TopTree(ts))
    decreases |ts|
  {
    if |ts| > 1 {
      NextTreesSeparated(tag, ts);
      TopTreeSeparated(tag, NextTrees(ts));
    }
  }

  /** The messages at the leaves. */
  function Leaves(t: Tree): set<Message> {
    match t
    case Leaf(pre) => {pre}
    case Node(l, r) => Leaves(l) + Leaves(r)
  }

  lemma {:induction false} TopTreeLeaves(ts: seq<Tree>, msgs: set<Message>)
    requires ts != [] && forall t :: t in ts ==> Leaves(t) <= msgs
    ensures Leaves(TopTree(ts)) <= msgs
    decreases |ts|
  {
    if |ts| > 1 {
      forall t | t in NextTrees(ts) ensures Leaves(t) <= msgs {
        var i := NextTreesMember(ts, t);
        assert ts[i] in ts;
        if i + 1 < |ts| { assert ts[i + 1] in ts; }
      }
      TopTreeLeaves(NextTrees(ts), msgs);
    }
  }

  // ----- Which lists share a tree -----

  /** `n` elements make `count` blocks. */
  predicate InBlocks(n: nat, block: nat, count: nat) { n == count * block }

  predicate IsOdd(n: nat) { n % 2 == 1 }

  /** The number of pairs that cover `n`. */
  function PairsIn(n: nat): (r: nat)
    ensures n >= 1 ==> r >= 1
    ensures n > 1 ==> r < n
  {
    n / 2 + n % 2
  }

  lemma PairsStep(n: nat)
    requires n >= 2
    ensures PairsIn(n) == 1 + PairsIn(n - 2) && (IsOdd(n) <==> IsOdd(n - 2))
  {
  }

  lemma BlocksPair(n: nat, block: nat, count: nat)
    requires count >= 1 && InBlocks(n, block, count)
    ensures block <= n && (count == 1 ==> n == block)
    ensures InBlocks(if IsOdd(count) then n + block else n, 2 * block, PairsIn(count))
  {
    var half := count / 2;
    if count % 2 == 0 { assert count == 2 * half; } else { assert count == 2 * half + 1; }
  }

  /** Repeats the last block when the number of blocks is odd, then doubles the block length,
      until one block is left: what odd-duplication makes of a list, said about the list alone. */
  function Completed<T>(s: seq<T>, block: nat, count: nat): seq<T>
    requires count >= 1 && InBlocks(|s|, block, count)
    decreases count
  {
    BlocksPair(|s|, block, count);
    if count == 1 then s
    else if IsOdd(count) then Completed(s + s[|s| - block..], 2 * block, PairsIn(count))
    else Completed(s, 2 * block, PairsIn(count))
  }

  lemma CompletedOne<T>(s: seq<T>, block: nat)
    requires InBlocks(|s|, block, 1)
    ensures Completed(s, block, 1) == s
  {
    hide InBlocks, IsOdd, PairsIn;
  }

  lemma CompletedStep<T>(s: seq<T>, block: nat, count: nat)
    requires count > 1 && InBlocks(|s|, block, count)
    ensures !IsOdd(count) ==>
              && InBlocks(|s|, 2 * block, PairsIn(count))
              && Completed(s, block, count) == Completed(s, 2 * block, PairsIn(count))
    ensures IsOdd(count) ==>
              && block <= |s| && InBlocks(|s| + block, 2 * block, PairsIn(count))
              && Completed(s, block, count) == Completed(s + s[|s| - block..], 2 * block, PairsIn(count))
  {
    BlocksPair(|s|, block, count);
    hide InBlocks, IsOdd, PairsIn;
  }

  /** A list completed to a power of two in length. */
  function Completion<T>(s: seq<T>): seq<T>
    requires s != []
  {
    Completed(s, 1, |s|)
  }

  function Frontier(t: Tree): seq<Message> {
    match t
    case Leaf(pre) => [pre]
    case Node(l, r) => Frontier(l) + Frontier(r)
  }

  /** All leaves at depth `k`. */
  predicate Perfect(t: Tree, k: nat) {
    match t
    case Leaf(_) => k == 0
    case Node(l, r) => k > 0 && Perfect(l, k - 1) && Perfect(r, k - 1)
  }

  function Width(k: nat): (w: nat)
    ensures w >= 1
  {
    if k == 0 then 1 else 2 * Width(k - 1)
  }

  lemma {:induction false} PerfectWidth(t: Tree, k: nat)
    requires Perfect(t, k)
    ensures |Frontier(t)| == Width(k)
  {
    match t
    case Leaf(_) =>
    case Node(l, r) =>
      PerfectWidth(l, k - 1);
      PerfectWidth(r, k - 1);
  }

  lemma {:induction false} WidthInjective(k: nat, l: nat)
    requires Width(k) == Width(l)
    ensures k == l
  {
    if k > 0 && l > 0 { WidthInjective(k - 1, l - 1); }
  }

  /** A perfect tree is determined by its frontier. */
  lemma {:induction false} PerfectUnique(t: Tree, k: nat, u: Tree, l: nat)
    requires Perfect(t, k) && Perfect(u, l) && Frontier(t) == Frontier(u)
    ensures t == u
  {
    PerfectWidth(t, k);
    PerfectWidth(u, l);
    WidthInjective(k, l);
    if t.Node? {
      PerfectWidth(t.left, k - 1);
      PerfectWidth(u.left, k - 1);
      var w := Width(k - 1);
      assert Frontier(t)[..w] == Frontier(t.left) && Frontier(u)[..w] == Frontier(u.left);
      assert Frontier(t)[w..] == Frontier(t.right) && Frontier(u)[w..] == Frontier(u.right);
      PerfectUnique(t.left, k - 1, u.left, k - 1);
      PerfectUnique(t.right, k - 1, u.right, k - 1);
    }
  }

  ghost predicate AllPerfect(ts: seq<Tree>, k: nat) { forall i :: 0 <= i < |ts| ==> Perfect(ts[i], k) }

  function Flat(ts: seq<Tree>): seq<Message> {
    if ts == [] then [] else Frontier(ts[0]) + Flat(ts[1..])
  }

  lemma OneMore(n: nat, w: nat, count: nat)
    requires InBlocks(n, w, count)
    ensures InBlocks(w + n, w, count + 1)
  {
  }

  /** The last tree holds the last block. */
  lemma {:induction false} LastBlock(ts: seq<Tree>, k: nat)
    requires ts != [] && AllPerfect(ts, k)
    ensures InBlocks(|Flat(ts)|, Width(k), |ts|) && |Flat(ts)| >= Width(k)
    ensures Flat(ts)[|Flat(ts)| - Width(k)..] == Frontier(ts[|ts| - 1])
  {
    PerfectWidth(ts[0], k);
    if |ts| == 1 {
      FlatSingle(ts[0]);
      assert ts == [ts[0]];
    } else {
      LastBlock(ts[1..], k);
      var rest := Flat(ts[1..]);
      assert Flat(ts) == Frontier(ts[0]) + rest;
      hide Flat, Frontier, InBlocks, Width, AllPerfect;
      OneMore(|rest|, Width(k), |ts| - 1);
      assert (Frontier(ts[0]) + rest)[Width(k) + (|rest| - Width(k))..] == rest[|rest| - Width(k)..];
    }
  }

  lemma FlatPair(l: Tree, r: Tree, rest: seq<Tree>)
    ensures Flat([l, r] + rest) == Frontier(Node(l, r)) + Flat(rest)
    ensures Flat([Node(l, r)] + rest) == Frontier(Node(l, r)) + Flat(rest)
  {
    assert ([l, r] + rest)[1..] == [r] + rest && ([r] + rest)[1..] == rest;
    assert ([Node(l, r)] + rest)[1..] == rest;
    assert Frontier(l) + (Frontier(r) + Flat(rest)) == (Frontier(l) + Frontier(r)) + Flat(rest);
  }

  lemma {:induction false} NextPerfect(ts: seq<Tree>, k: nat)
    requires ts != [] && AllPerfect(ts, k)
    ensures AllPerfect(NextTrees(ts), k + 1)
    ensures |NextTrees(ts)| == PairsIn(|ts|)
  {
    if |ts| >= 2 { PairsStep(|ts|); }
    if |ts| > 2 {
      hide PairsIn;
      NextPerfect(ts[2..], k);
    }
  }

  /** The block that odd-duplication repeats. */
  function OddBlock(ts: seq<Tree>): seq<Message> {
    if IsOdd(|ts|) then Frontier(ts[|ts| - 1]) else []
  }

  lemma OddBlockStays(ts: seq<Tree>)
    requires |ts| >= 2
    ensures OddBlock(ts[2..]) == OddBlock(ts)
  {
    PairsStep(|ts|);
    hide Frontier, IsOdd;
  }

  /** One level up the frontier is the same, or has its last block repeated. */
  lemma {:induction false} FlatNext(ts: seq<Tree>)
    ensures Flat(NextTrees(ts)) == Flat(ts) + OddBlock(ts)
  {
    if |ts| == 1 {
      FlatSingle(ts[0]);
      assert ts == [ts[0]];
    } else if |ts| > 1 {
      var rest := ts[2..];
      FlatNext(rest);
      OddBlockStays(ts);
      assert ts == [ts[0], ts[1]] + rest;
      assert NextTrees(ts) == [Node(ts[0], ts[1])] + NextTrees(rest);
      hide Flat, NextTrees, Frontier, OddBlock;
      FlatPair(ts[0], ts[1], rest);
      FlatPair(ts[0], ts[1], NextTrees(rest));
      ConcatAssoc(Frontier(Node(ts[0], ts[1])), Flat(rest), OddBlock(ts));
    }
  }

  lemma FlatSingle(t: Tree)
    ensures Flat([t]) == Frontier(t) && Flat(NextTrees([t])) == Frontier(t) + Frontier(t)
  {
    assert [t][1..] == [];
    assert Flat([Node(t, t)]) == Frontier(Node(t, t)) by { assert [Node(t, t)][1..] == []; }
  }

  /** The tree of a list is perfect, and its frontier is the list completed. */
  lemma {:induction false} TopFrontier(ts: seq<Tree>, k: nat) returns (m: nat)
    requires ts != [] && AllPerfect(ts, k)
    ensures InBlocks(|Flat(ts)|, Width(k), |ts|)
    ensures Perfect(TopTree(ts), m) && Frontier(TopTree(ts)) == Completed(Flat(ts), Width(k), |ts|)
    decreases |ts|
  {
    hide Flat, Frontier, NextTrees, Completed, InBlocks, IsOdd, PairsIn;
    LastBlock(ts, k);
    assert Perfect(ts[0], k) && Width(k + 1) == 2 * Width(k);
    if |ts| == 1 {
      hide Perfect, Width;
      m := k;
      FlatSingle(ts[0]);
      CompletedOne(Flat(ts), Width(k));
      assert ts == [ts[0]];
    } else {
      assert TopTree(ts) == TopTree(NextTrees(ts));
      hide TopTree, AllPerfect, Perfect, Width;
      FlatUp(ts, k);
      NextPerfect(ts, k);
      CompletedStep(Flat(ts), Width(k), |ts|);
      m := TopFrontier(NextTrees(ts), k + 1);
    }
  }

  lemma FlatUp(ts: seq<Tree>, k: nat)
    requires ts != [] && AllPerfect(ts, k)
    ensures |Flat(ts)| >= Width(k)
    ensures Flat(NextTrees(ts)) == if IsOdd(|ts|) then Flat(ts) + Flat(ts)[|Flat(ts)| - Width(k)..] else Flat(ts)
  {
    LastBlock(ts, k);
    FlatNext(ts);
    hide Flat, Frontier, NextTrees, Width, IsOdd;
    assert !IsOdd(|ts|) ==> Flat(ts) + OddBlock(ts) == Flat(ts);
  }

  lemma {:induction false} FlatLeaves(msgs: seq<Message>)
    ensures Flat(LeafTrees(msgs)) == msgs
  {
    if msgs != [] { FlatLeaves(msgs[1..]); }
  }

  /** Two lists share their tree exactly when their completions agree. */
  lemma SameTreeIff(a: seq<Message>, b: seq<Message>)
    requires a != [] && b != []
    ensures TopTree(LeafTrees(a)) == TopTree(LeafTrees(b)) <==> Completion(a) == Completion(b)
  {
    FlatLeaves(a);
    FlatLeaves(b);
    var m := TopFrontier(LeafTrees(a), 0);
    var n := TopFrontier(LeafTrees(b), 0);
    hide TopTree, Completed;
    if Completion(a) == Completion(b) { PerfectUnique(TopTree(LeafTrees(a)), m, TopTree(LeafTrees(b)), n); }
  }
}
