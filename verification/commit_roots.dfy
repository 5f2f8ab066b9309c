/** Roots of a commit (`crates/statechronicle-commit/src/roots.rs`) and the state-root chain
    (`crates/statechronicle-commit/src/builder.rs`). */
module CommitRoots {
  import opened Bytes
  import opened Options
  import opened Ordering
  import opened StateKeys
  import opened SparseMerkle
  import opened Accumulator
  import opened MerkleTree
  import opened Domain

  datatype CommitError = EmptyBatch | Core | StateRootMismatch(expected: Digest, actual: Digest)

  datatype Result<+T> = Ok(value: T) | Err(error: CommitError)

  // ----- Event root -----

  /** `H(0x11 || event_digest)`: no key, so the message is shorter than an accumulator leaf. */
  function EventLeafPre(digest: Digest): Message { Message([LEAF_NODE_TAG] + digest.bytes) }

  function EventMessages(digests: seq<Digest>): (msgs: seq<Message>)
    ensures |msgs| == |digests| && forall i :: 0 <= i < |msgs| ==> msgs[i] == EventLeafPre(digests[i])
  {
    if digests == [] then [] else [EventLeafPre(digests[0])] + EventMessages(digests[1..])
  }

  /** The tree over a list of event digests. */
  function EventTree(digests: seq<Digest>): Tree
    requires digests != []
  {
    TopTree(LeafTrees(EventMessages(digests)))
  }

  function EventRootOf(h: HashFn, digests: seq<Digest>): Digest
    requires digests != []
  {
    TreeHash(h, INTERNAL_NODE_TAG, EventTree(digests))
  }

  /** `canonicalize_and_digest` on each event in turn; `None` once one cannot be encoded. */
  function DigestAll<E>(canon: E -> Option<Digest>, events: seq<E>): (r: Option<seq<Digest>>)
    ensures r.Some? ==> |r.value| == |events|
  {
    if events == [] then Some([])
    else
      match (DigestAll(canon, events[..|events| - 1]), canon(events[|events| - 1]))
      case (Some(front), Some(d)) => Some(front + [d])
      case _ => None
  }

  lemma {:induction false} DigestAllPrefix<E>(canon: E -> Option<Digest>, events: seq<E>, i: nat)
    requires i < |events| && canon(events[i]).None?
    ensures DigestAll(canon, events).None?
  {
    if i < |events| - 1 { DigestAllPrefix(canon, events[..|events| - 1], i); }
  }

  /** `event_root`: hash every event, then halve the level until one node is left. */
  method EventRoot<E>(h: HashFn, canon: E -> Option<Digest>, events: seq<E>) returns (r: Result<Digest>)
    ensures events == [] ==> r == Err(EmptyBatch)
    ensures events != [] && DigestAll(canon, events).None? ==> r == Err(Core)
    ensures events != [] && DigestAll(canon, events).Some? ==>
            r == Ok(EventRootOf(h, DigestAll(canon, events).value))
  {
    if events == [] { return Err(EmptyBatch); }
    var level: seq<Digest> := [];
    ghost var digests: seq<Digest> := [];
    for i := 0 to |events|
      invariant DigestAll(canon, events[..i]) == Some(digests) && |digests| == i
      invariant level == Hashes(h, INTERNAL_NODE_TAG, LeafTrees(EventMessages(digests)))
    {
      assert events[..i + 1][..i] == events[..i];
      match canon(events[i]) {
        case None =>
          DigestAllPrefix(canon, events, i);
          return Err(Core);
        case Some(d) =>
          LeafHashesAppend(h, digests, d);
          digests := digests + [d];
          level := level + [h(Message([LEAF_NODE_TAG] + d.bytes))];
      }
    }
    assert events[..|events|] == events;
    RootIsTreeHash(h, INTERNAL_NODE_TAG, LeafTrees(EventMessages(digests)));
    ghost var root := LevelRoot(h, INTERNAL_NODE_TAG, level);
    while |level| > 1
      invariant level != [] && LevelRoot(h, INTERNAL_NODE_TAG, level) == root
      decreases |level|
    {
      level := ComputeNextLevel(h, INTERNAL_NODE_TAG, level);
    }
    r := Ok(level[0]);
  }

  lemma {:induction false} LeafHashesAppend(h: HashFn, digests: seq<Digest>, d: Digest)
    ensures Hashes(h, INTERNAL_NODE_TAG, LeafTrees(EventMessages(digests + [d])))
            == Hashes(h, INTERNAL_NODE_TAG, LeafTrees(EventMessages(digests))) + [h(EventLeafPre(d))]
  {
    var msgs := EventMessages(digests);
    assert EventMessages(digests + [d]) == msgs + [EventLeafPre(d)];
    assert LeafTrees(msgs + [EventLeafPre(d)]) == LeafTrees(msgs) + [Leaf(EventLeafPre(d))];
    HashesAppend(h, INTERNAL_NODE_TAG, LeafTrees(msgs), Leaf(EventLeafPre(d)));
  }

  lemma {:induction false} HashesAppend(h: HashFn, tag: byte, ts: seq<Tree>, t: Tree)
    ensures Hashes(h, tag, ts + [t]) == Hashes(h, tag, ts) + [TreeHash(h, tag, t)]
  {
    if ts == [] {
      assert ts + [t] == [t];
    } else {
      assert (ts + [t])[1..] == ts[1..] + [t];
      HashesAppend(h, tag, ts[1..], t);
    }
  }

  function EventCollision(h: HashFn, a: seq<Digest>, b: seq<Digest>): Preimages
    requires a != [] && b != []
  {
    TreeCollision(h, INTERNAL_NODE_TAG, EventTree(a), EventTree(b))
  }

  lemma EventLeafPreInjective(a: Digest, b: Digest)
    requires EventLeafPre(a) == EventLeafPre(b)
    ensures a == b
  {
    assert EventLeafPre(a).bytes[1..] == a.bytes && EventLeafPre(b).bytes[1..] == b.bytes;
  }

  lemma EventTreeSeparated(digests: seq<Digest>)
    requires digests != []
    ensures Separated(INTERNAL_NODE_TAG, EventTree(digests))
  {
    var ts := LeafTrees(EventMessages(digests));
    forall t | t in ts ensures Separated(INTERNAL_NODE_TAG, t) {
      var i :| 0 <= i < |ts| && ts[i] == t;
      assert t == Leaf(EventLeafPre(digests[i]));
    }
    TopTreeSeparated(INTERNAL_NODE_TAG, ts);
  }

  lemma SameLeaves(a: seq<Digest>, b: seq<Digest>)
    requires LeafTrees(EventMessages(a)) == LeafTrees(EventMessages(b))
    ensures a == b
  {
    var ts, us := LeafTrees(EventMessages(a)), LeafTrees(EventMessages(b));
    forall i | 0 <= i < |a| ensures a[i] == b[i] {
      assert ts[i] == us[i];
      EventLeafPreInjective(a[i], b[i]);
    }
  }

  /** With the declared count, the event root binds the list of event digests. */
  lemma EventRootBinds(h: HashFn, a: seq<Digest>, b: seq<Digest>)
    requires |a| == |b| > 0 && EventRootOf(h, a) == EventRootOf(h, b)
    ensures a == b || IsCollision(h, EventCollision(h, a, b))
  {
    EventTreeSeparated(a);
    EventTreeSeparated(b);
    TreeBinding(h, INTERNAL_NODE_TAG, EventTree(a), EventTree(b));
    if EventTree(a) == EventTree(b) {
      TopTreeInjective(LeafTrees(EventMessages(a)), LeafTrees(EventMessages(b)));
      SameLeaves(a, b);
    }
  }

  lemma EventLeavesDistinct(digests: seq<Digest>)
    requires Distinct(digests)
    ensures Distinct(LeafTrees(EventMessages(digests))) && AllAt(LeafTrees(EventMessages(digests)), 0)
  {
    var ts := LeafTrees(EventMessages(digests));
    forall i, j | 0 <= i < j < |ts| ensures ts[i] != ts[j] {
      if EventLeafPre(digests[i]) == EventLeafPre(digests[j]) { EventLeafPreInjective(digests[i], digests[j]); }
    }
    forall t | t in ts ensures Height(t) == 0 {
      var i :| 0 <= i < |ts| && ts[i] == t;
    }
  }

  /** For duplicate-free lists the root alone binds the list, across all lengths. */
  lemma EventRootBindsDistinct(h: HashFn, a: seq<Digest>, b: seq<Digest>)
    requires a != [] && b != [] && Distinct(a) && Distinct(b)
    requires EventRootOf(h, a) == EventRootOf(h, b)
    ensures a == b || IsCollision(h, EventCollision(h, a, b))
  {
    EventTreeSeparated(a);
    EventTreeSeparated(b);
    TreeBinding(h, INTERNAL_NODE_TAG, EventTree(a), EventTree(b));
    if EventTree(a) == EventTree(b) {
      EventLeavesDistinct(a);
      EventLeavesDistinct(b);
      TopTreeInjectiveDistinct(LeafTrees(EventMessages(a)), LeafTrees(EventMessages(b)), 0);
      SameLeaves(a, b);
    }
  }

  /** Without the count and with repetition it does not: odd-duplication makes these two meet. */
  lemma OddDuplicationMeets(h: HashFn, a: Digest, b: Digest, c: Digest)
    ensures EventRootOf(h, [a, b, c]) == EventRootOf(h, [a, b, c, c])
  {
    var x, y, z := Leaf(EventLeafPre(a)), Leaf(EventLeafPre(b)), Leaf(EventLeafPre(c));
    var three, four := LeafTrees(EventMessages([a, b, c])), LeafTrees(EventMessages([a, b, c, c]));
    assert three == [x, y, z] && four == [x, y, z, z];
    assert three[2..] == [z] && four[2..] == [z, z];
    assert NextTrees([z, z]) == [Node(z, z)] by { assert [z, z][2..] == []; }
    assert NextTrees(three) == [Node(x, y)] + NextTrees([z]) && NextTrees(four) == [Node(x, y)] + NextTrees([z, z]);
  }

  lemma MessagesConcat(a: seq<Digest>, b: seq<Digest>)
    ensures EventMessages(a + b) == EventMessages(a) + EventMessages(b)
  {
  }

  lemma MessagesInjective(a: seq<Digest>, b: seq<Digest>)
    requires EventMessages(a) == EventMessages(b)
    ensures a == b
  {
    assert |EventMessages(a)| == |a| && |EventMessages(b)| == |b|;
    forall i | 0 <= i < |a| ensures a[i] == b[i] {
      assert EventMessages(a)[i] == EventMessages(b)[i];
      EventLeafPreInjective(a[i], b[i]);
    }
  }

  lemma MessagesDrop(s: seq<Digest>, k: nat)
    requires k <= |s|
    ensures EventMessages(s[k..]) == EventMessages(s)[k..]
  {
  }

  lemma {:induction false} MessagesComplete(s: seq<Digest>, block: nat, count: nat)
    requires count >= 1 && InBlocks(|s|, block, count)
    ensures Completed(EventMessages(s), block, count) == EventMessages(Completed(s, block, count))
    decreases count
  {
    hide InBlocks, EventMessages, Completed, IsOdd, PairsIn;
    if count == 1 {
      CompletedOne(s, block);
      CompletedOne(EventMessages(s), block);
    } else {
      CompletedStep(s, block, count);
      CompletedStep(EventMessages(s), block, count);
      if !IsOdd(count) {
        MessagesComplete(s, 2 * block, PairsIn(count));
      } else {
        var last := s[|s| - block..];
        MessagesConcat(s, last);
        MessagesDrop(s, |s| - block);
        MessagesComplete(s + last, 2 * block, PairsIn(count));
      }
    }
  }

  /** Exactly which lists share an event root, across all lengths and repetitions: those whose
      completions agree, up to collisions. */
  lemma EventRootsMeetIff(h: HashFn, a: seq<Digest>, b: seq<Digest>)
    requires a != [] && b != []
    ensures EventTree(a) == EventTree(b) <==> Completion(a) == Completion(b)
    ensures Completion(a) == Completion(b) ==> EventRootOf(h, a) == EventRootOf(h, b)
    ensures EventRootOf(h, a) == EventRootOf(h, b) ==>
            Completion(a) == Completion(b) || IsCollision(h, EventCollision(h, a, b))
  {
    SameTreeIff(EventMessages(a), EventMessages(b));
    MessagesComplete(a, 1, |a|);
    MessagesComplete(b, 1, |b|);
    hide Completed, EventMessages, TopTree;
    if Completion(EventMessages(a)) == Completion(EventMessages(b)) { MessagesInjective(Completion(a), Completion(b)); }
    EventTreeSeparated(a);
    EventTreeSeparated(b);
    if EventRootOf(h, a) == EventRootOf(h, b) { TreeBinding(h, INTERNAL_NODE_TAG, EventTree(a), EventTree(b)); }
  }

  /** Under an injective event encoding the root binds the events themselves. */
  lemma EventRootBindsEvents<E(!new)>(h: HashFn, encode: E -> Message, a: seq<E>, b: seq<E>,
                                      da: seq<Digest>, db: seq<Digest>)
    requires forall x, y :: encode(x) == encode(y) ==> x == y
    requires |a| == |da| && |b| == |db| && |a| == |b| > 0
    requires forall i :: 0 <= i < |a| ==> da[i] == h(encode(a[i])) && db[i] == h(encode(b[i]))
    requires EventRootOf(h, da) == EventRootOf(h, db)
    ensures || a == b
            || IsCollision(h, EventCollision(h, da, db))
            || exists i :: 0 <= i < |a| && IsCollision(h, Preimages(encode(a[i]), encode(b[i])))
  {
    EventRootBinds(h, da, db);
    if da == db && a != b {
      var i :| 0 <= i < |a| && a[i] != b[i];
      assert encode(a[i]) != encode(b[i]);
      assert IsCollision(h, Preimages(encode(a[i]), encode(b[i])));
    }
  }

  // ----- State updates -----

  /** `infer_state_key`: an after-state with a subject is keyed by it. */
  function ScopeOf(e: Event): KeyScope {
    match e.after.state.Subject()
    case Some(subject) => ForSubject(e.tenantId.utf8, e.resourceId.utf8, subject.utf8)
    case None => ForResource(e.tenantId.utf8, e.resourceId.utf8)
  }

  function UpdateOf(h: HashFn, e: Event): StateUpdate {
    StateUpdate(KeyFor(h, ScopeOf(e)), e.after.stateHash)
  }

  /** Two events write one leaf exactly when they agree on tenant, resource and subject, up to
      collisions. An empty subject is a subject of its own, apart from none. */
  lemma EventsShareKeyIff(h: HashFn, a: Event, b: Event)
    ensures var same := a.tenantId == b.tenantId && a.resourceId == b.resourceId
                        && a.after.state.Subject() == b.after.state.Subject();
            && (same ==> UpdateOf(h, a).key == UpdateOf(h, b).key)
            && (UpdateOf(h, a).key == UpdateOf(h, b).key ==>
                  || same
                  || IsCollision(h, Preimages(Message(ScopePre(ScopeOf(a))), Message(ScopePre(ScopeOf(b))))))
  {
    if UpdateOf(h, a).key == UpdateOf(h, b).key { KeysNameOneScope(h, ScopeOf(a), ScopeOf(b)); }
    hide KeyFor, ScopePre;
  }

  /** The updates of a batch, in event order. */
  function UpdatesOf(h: HashFn, events: seq<Event>): (us: seq<StateUpdate>)
    ensures |us| == |events| && forall i :: 0 <= i < |us| ==> us[i] == UpdateOf(h, events[i])
  {
    if events == [] then [] else UpdatesOf(h, events[..|events| - 1]) + [UpdateOf(h, events[|events| - 1])]
  }

  predicate UpdateLe(a: StateUpdate, b: StateUpdate) { KeyLe(a.key, b.key) }

  lemma UpdateLeIsPreorder()
    ensures TotalPreorder(UpdateLe)
    ensures forall a: StateUpdate, b: StateUpdate :: Equiv(UpdateLe, a, b) <==> a.key == b.key
  {
    KeyLeIsTotalOrder();
  }

  /** `state_root_updates`. */
  method StateRootUpdates(h: HashFn, events: seq<Event>) returns (r: Result<seq<StateUpdate>>)
    ensures r == if events == [] then Err(EmptyBatch) else Ok(SortBy(UpdateLe, UpdatesOf(h, events)))
  {
    if events == [] { return Err(EmptyBatch); }
    var updates: seq<StateUpdate> := [];
    for i := 0 to |events|
      invariant updates == UpdatesOf(h, events[..i])
    {
      var key := KeyFor(h, ScopeOf(events[i]));
      updates := updates + [StateUpdate(key, events[i].after.stateHash)];
      assert events[..i + 1][..i] == events[..i];
    }
    assert events[..|events|] == events;
    r := Ok(SortBy(UpdateLe, updates));
  }

  // ----- Last write wins -----

  /** The leaf map a list of updates leaves behind. */
  function LeavesOf(updates: seq<StateUpdate>): SparseMerkle.Leaves { Apply(map[], updates) }

  lemma {:induction false} ApplyConcat(m: SparseMerkle.Leaves, a: seq<StateUpdate>, b: seq<StateUpdate>)
    ensures Apply(m, a + b) == Apply(Apply(m, a), b)
  {
    if b == [] {
      assert a + b == a;
    } else {
      var front := b[..|b| - 1];
      assert (a + b)[..|a + b| - 1] == a + front;
      ApplyConcat(m, a, front);
    }
  }

  lemma {:induction false} ClassSnoc<T(!new)>(le: (T, T) -> bool, k: T, s: seq<T>, x: T)
    ensures ClassOf(le, k, s + [x]) == ClassOf(le, k, s) + (if Equiv(le, k, x) then [x] else [])
  {
    if s == [] {
      assert s + [x] == [x] && [x][1..] == [];
    } else {
      assert (s + [x])[0] == s[0] && (s + [x])[1..] == s[1..] + [x];
      ClassSnoc(le, k, s[1..], x);
      ConcatAssoc(if Equiv(le, k, s[0]) then [s[0]] else [], ClassOf(le, k, s[1..]),
                  if Equiv(le, k, x) then [x] else []);
    }
  }

  /** Per key, only the order of that key's own updates matters: the last one wins. */
  lemma {:induction false} LastOfClassWins(updates: seq<StateUpdate>, key: Key)
    ensures var own := ClassOf(UpdateLe, StateUpdate(key, ZEROS), updates);
            && (key in LeavesOf(updates) <==> own != [])
            && (own != [] ==> LeavesOf(updates)[key] == own[|own| - 1].stateDigest)
  {
    if updates != [] {
      var front, last := updates[..|updates| - 1], updates[|updates| - 1];
      assert updates == front + [last];
      UpdateLeIsPreorder();
      LastOfClassWins(front, key);
      ClassSnoc(UpdateLe, StateUpdate(key, ZEROS), front, last);
    }
  }

  lemma SameClassSameLeaf(a: seq<StateUpdate>, b: seq<StateUpdate>, key: Key)
    requires ClassOf(UpdateLe, StateUpdate(key, ZEROS), a) == ClassOf(UpdateLe, StateUpdate(key, ZEROS), b)
    ensures key in LeavesOf(a) <==> key in LeavesOf(b)
    ensures key in LeavesOf(a) ==> LeavesOf(a)[key] == LeavesOf(b)[key]
  {
    LastOfClassWins(a, key);
    LastOfClassWins(b, key);
    hide ClassOf, LeavesOf, UpdateLe;
  }

  lemma SameClassesSameLeaves(a: seq<StateUpdate>, b: seq<StateUpdate>)
    requires forall u: StateUpdate :: ClassOf(UpdateLe, u, a) == ClassOf(UpdateLe, u, b)
    ensures LeavesOf(a) == LeavesOf(b)
  {
    hide ClassOf, LeavesOf, UpdateLe;
    forall key: Key ensures key in LeavesOf(a) <==> key in LeavesOf(b)
      ensures key in LeavesOf(a) ==> LeavesOf(a)[key] == LeavesOf(b)[key]
    {
      assert ClassOf(UpdateLe, StateUpdate(key, ZEROS), a) == ClassOf(UpdateLe, StateUpdate(key, ZEROS), b);
      SameClassSameLeaf(a, b, key);
    }
    assert LeavesOf(a).Keys == LeavesOf(b).Keys;
  }

  /** A stable sort by key never changes a winner. */
  lemma SortKeepsLeaves(updates: seq<StateUpdate>)
    ensures LeavesOf(SortBy(UpdateLe, updates)) == LeavesOf(updates)
  {
    UpdateLeIsPreorder();
    hide ClassOf, LeavesOf, UpdateLe, SortBy, TotalPreorder, Sorted;
    SortIsStable(UpdateLe, updates);
    SameClassesSameLeaves(SortBy(UpdateLe, updates), updates);
  }

  /** Updates that give each key one digest: any rearrangement has the same leaves. */
  lemma WellFormedSetIsOrderFree(a: seq<StateUpdate>, b: seq<StateUpdate>)
    requires multiset(a) == multiset(b)
    requires forall i, j :: 0 <= i < |a| && 0 <= j < |a| && a[i].key == a[j].key ==> a[i] == a[j]
    ensures LeavesOf(a) == LeavesOf(b)
  {
    forall key: Key ensures key in LeavesOf(a) <==> key in LeavesOf(b)
      ensures key in LeavesOf(a) ==> LeavesOf(a)[key] == LeavesOf(b)[key]
    {
      LeafComesFromUpdate(a, key);
      LeafComesFromUpdate(b, key);
      assert forall u :: u in a <==> u in multiset(a);
      assert forall u :: u in b <==> u in multiset(b);
    }
    assert LeavesOf(a).Keys == LeavesOf(b).Keys;
  }

  lemma {:induction false} LeafComesFromUpdate(updates: seq<StateUpdate>, key: Key)
    ensures key in LeavesOf(updates) ==> StateUpdate(key, LeavesOf(updates)[key]) in updates
    ensures forall u :: u in updates && u.key == key ==> key in LeavesOf(updates)
  {
    if updates != [] {
      var front := updates[..|updates| - 1];
      LeafComesFromUpdate(front, key);
      assert updates == front + [updates[|updates| - 1]];
    }
  }

  /** `compute_state_root`. */
  method ComputeStateRoot(h: HashFn, updates: seq<StateUpdate>) returns (root: Digest)
    ensures root == ComputeRoot(h, LeavesOf(updates))
  {
    var accumulator := new StateAccumulator(h);
    var _ := accumulator.InsertBatch(updates);
    SparseRefinesDense(h, accumulator.leaves);
    root := accumulator.Root();
  }

  // ----- Continuity and chaining -----

  /** The replay equation: prior updates give the previous root, and with the current ones the
      next root. */
  predicate Continues(h: HashFn, previous: Digest, prior: seq<StateUpdate>, current: seq<StateUpdate>, next: Digest) {
    ComputeRoot(h, LeavesOf(prior)) == previous && ComputeRoot(h, LeavesOf(prior + current)) == next
  }

  /** `verify_state_root_continuity`. */
  method VerifyContinuity(h: HashFn, previous: Digest, prior: seq<StateUpdate>, current: seq<StateUpdate>, next: Digest)
    returns (r: Result<()>)
    ensures r.Ok? <==> Continues(h, previous, prior, current, next)
    ensures r.Err? ==> r.error == if ComputeRoot(h, LeavesOf(prior)) != previous
                                 then StateRootMismatch(previous, ComputeRoot(h, LeavesOf(prior)))
                                 else StateRootMismatch(next, ComputeRoot(h, LeavesOf(prior + current)))
  {
    var priorRoot := ComputeStateRoot(h, prior);
    if priorRoot != previous { return Err(StateRootMismatch(previous, priorRoot)); }
    var all := SortBy(UpdateLe, prior + current);
    SortKeepsLeaves(prior + current);
    var nextRoot := ComputeStateRoot(h, all);
    if nextRoot != next { return Err(StateRootMismatch(next, nextRoot)); }
    r := Ok(());
  }

  /** The part of a commit body that carries roots. */
  datatype CommitRootsBody = CommitRootsBody(eventCount: nat, eventRoot: Digest, previous: Digest, next: Digest)

  /** `CommitBuilder::build`, from batch to roots. */
  method BuildRoots(h: HashFn, canon: Event -> Option<Digest>, events: seq<Event>,
                    previous: Digest, prior: seq<StateUpdate>)
    returns (r: Result<CommitRootsBody>)
    ensures r.Ok? <==> events != [] && DigestAll(canon, events).Some?
    ensures r.Err? ==> r.error == if events == [] then EmptyBatch else Core
    ensures r.Ok? ==> r.value == CommitRootsBody(|events|, EventRootOf(h, DigestAll(canon, events).value), previous,
                                                ComputeRoot(h, LeavesOf(prior + UpdatesOf(h, events))))
  {
    if events == [] { return Err(EmptyBatch); }
    var eventRoot := EventRoot(h, canon, events);
    if eventRoot.Err? { return Err(eventRoot.error); }
    var updates := StateRootUpdates(h, events);
    match updates {
      case Err(error) => r := Err(error);
      case Ok(current) =>
        var all := SortBy(UpdateLe, prior + current);
        SortedBatchKeepsLeaves(prior, UpdatesOf(h, events));
        SortKeepsLeaves(prior + current);
        var next := ComputeStateRoot(h, all);
        r := Ok(CommitRootsBody(|events|, eventRoot.value, previous, next));
    }
  }

  /** Sorting the later part alone changes nothing either. */
  lemma SortedBatchKeepsLeaves(prior: seq<StateUpdate>, current: seq<StateUpdate>)
    ensures LeavesOf(prior + SortBy(UpdateLe, current)) == LeavesOf(prior + current)
  {
    UpdateLeIsPreorder();
    hide ClassOf, LeavesOf, UpdateLe, SortBy, TotalPreorder, Sorted;
    var sorted := SortBy(UpdateLe, current);
    SortIsStable(UpdateLe, current);
    forall u: StateUpdate ensures ClassOf(UpdateLe, u, prior + sorted) == ClassOf(UpdateLe, u, prior + current) {
      ClassConcat(UpdateLe, u, prior, sorted);
      ClassConcat(UpdateLe, u, prior, current);
    }
    SameClassesSameLeaves(prior + sorted, prior + current);
  }

  lemma {:induction false} ClassConcat<T(!new)>(le: (T, T) -> bool, k: T, a: seq<T>, b: seq<T>)
    ensures ClassOf(le, k, a + b) == ClassOf(le, k, a) + ClassOf(le, k, b)
  {
    if a == [] {
      assert a + b == b;
    } else {
      assert (a + b)[0] == a[0] && (a + b)[1..] == a[1..] + b;
      ClassConcat(le, k, a[1..], b);
      ConcatAssoc(if Equiv(le, k, a[0]) then [a[0]] else [], ClassOf(le, k, a[1..]), ClassOf(le, k, b));
    }
  }

  function Flatten<T>(batches: seq<seq<T>>): seq<T> {
    if batches == [] then [] else Flatten(batches[..|batches| - 1]) + batches[|batches| - 1]
  }

  /** The full accumulated update list handed to the builder: every earlier commit's sorted
      updates, in commit order. */
  function PriorUpdates(h: HashFn, batches: seq<seq<Event>>): seq<StateUpdate> {
    if batches == [] then []
    else PriorUpdates(h, batches[..|batches| - 1]) + SortBy(UpdateLe, UpdatesOf(h, batches[|batches| - 1]))
  }

  /** The state after a history of events: per key, the last event wins. */
  function StateAfter(h: HashFn, events: seq<Event>): SparseMerkle.Leaves { LeavesOf(UpdatesOf(h, events)) }

  lemma {:induction false} UpdatesConcat(h: HashFn, a: seq<Event>, b: seq<Event>)
    ensures UpdatesOf(h, a + b) == UpdatesOf(h, a) + UpdatesOf(h, b)
  {
  }

  /** The last event for a key decides its leaf, whatever happened before. */
  lemma {:induction false} LastEventWins(h: HashFn, events: seq<Event>, i: nat)
    requires i < |events|
    requires forall j :: i < j < |events| ==> UpdateOf(h, events[j]).key != UpdateOf(h, events[i]).key
    ensures UpdateOf(h, events[i]).key in StateAfter(h, events)
    ensures StateAfter(h, events)[UpdateOf(h, events[i]).key] == events[i].after.stateHash
  {
    if i < |events| - 1 {
      var front := events[..|events| - 1];
      LastEventWins(h, front, i);
      assert UpdatesOf(h, events)[..|events| - 1] == UpdatesOf(h, front);
    }
  }

  /** Sorting each batch before accumulating it never disturbs the history's outcome. */
  lemma {:induction false} PriorIsHistory(h: HashFn, batches: seq<seq<Event>>)
    ensures LeavesOf(PriorUpdates(h, batches)) == StateAfter(h, Flatten(batches))
  {
    if batches != [] {
      var front, last := batches[..|batches| - 1], batches[|batches| - 1];
      PriorIsHistory(h, front);
      SortedBatchKeepsLeaves(PriorUpdates(h, front), UpdatesOf(h, last));
      ApplyConcat(map[], PriorUpdates(h, front), UpdatesOf(h, last));
      UpdatesConcat(h, Flatten(front), last);
      ApplyConcat(map[], UpdatesOf(h, Flatten(front)), UpdatesOf(h, last));
    }
  }

  /** Commit chaining: on any prior updates that reach the state of a history, the next root is the
      root of the state after the longer history, and the continuity check accepts the link. */
  lemma ChainLink(h: HashFn, history: seq<Event>, prior: seq<StateUpdate>, batch: seq<Event>)
    requires LeavesOf(prior) == StateAfter(h, history)
    ensures LeavesOf(prior + UpdatesOf(h, batch)) == StateAfter(h, history + batch)
    ensures Continues(h, ComputeRoot(h, StateAfter(h, history)), prior, SortBy(UpdateLe, UpdatesOf(h, batch)),
                      ComputeRoot(h, StateAfter(h, history + batch)))
  {
    UpdatesConcat(h, history, batch);
    ApplyConcat(map[], prior, UpdatesOf(h, batch));
    ApplyConcat(map[], UpdatesOf(h, history), UpdatesOf(h, batch));
    SortedBatchKeepsLeaves(prior, UpdatesOf(h, batch));
    hide UpdatesOf, SortBy, Apply, ComputeRoot;
  }

  /** The updates accumulated over all earlier commits, each batch sorted by itself, are such a
      prior: every link of the chain is accepted. */
  lemma EveryLinkIsAccepted(h: HashFn, batches: seq<seq<Event>>, batch: seq<Event>)
    ensures Continues(h, ComputeRoot(h, StateAfter(h, Flatten(batches))), PriorUpdates(h, batches),
                      SortBy(UpdateLe, UpdatesOf(h, batch)), ComputeRoot(h, StateAfter(h, Flatten(batches + [batch]))))
  {
    var all := batches + [batch];
    assert all[..|all| - 1] == batches && all[|all| - 1] == batch;
    PriorIsHistory(h, batches);
    ChainLink(h, Flatten(batches), PriorUpdates(h, batches), batch);
  }

  /** A link accepted against the root of a map that differs anywhere is a collision. */
  lemma ContinuityBinds(h: HashFn, previous: Digest, prior: seq<StateUpdate>, current: seq<StateUpdate>,
                        claimed: SparseMerkle.Leaves, key: Key)
    requires Continues(h, previous, prior, current, ComputeRoot(h, claimed))
    requires DiffersAt(LeavesOf(prior + current), claimed, key)
    ensures IsCollision(h, RootCollision(h, LeavesOf(prior + current), claimed, key))
  {
    RootBindsMap(h, LeavesOf(prior + current), claimed, key);
  }
}
