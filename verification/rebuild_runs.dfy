/** Runs of any number of overlapping rebuild processes
    (`crates/statechronicle-index/src/rebuild.rs`). */
module RebuildRuns {
  import opened Domain
  import opened Options
  import opened Rebuild

  // ----- Processes and moves -----

  /** A process between chunks, or one with rows of a chunk left to upsert. */
  datatype Process =
    | Resting(key: Id, offset: nat)
    | Writing(key: Id, offset: nat, end: nat, left: set<Scope>)

  /** The sink, the saved checkpoints and the live processes. */
  datatype Cluster = Cluster(store: map<Scope, Projection>, saved: map<Id, nat>, processes: map<nat, Process>)

  /** A process loads its checkpoint, takes its next chunk, has a row upserted, saves the end of
      its chunk, or leaves (done or dead). A call that fails ends the process and may or may not have taken hold. */
  datatype Move =
    | Load(i: nat, key: Id)
    | Take(i: nat, end: nat)
    | Upsert(i: nat, scope: Scope, store: map<Scope, Projection>, ok: bool)
    | Save(i: nat, written: bool, ok: bool)
    | Leave(i: nat)

  /** The rows of a chunk. */
  function Rows(es: seq<Entry>, start: nat, end: nat): map<Scope, Projection>
    requires start <= end <= |es|
  {
    Latest(es[start..end])
  }

  ghost predicate Enabled(es: seq<Entry>, w: Cluster, m: Move) {
    match m
    case Load(i, key) => i !in w.processes && OffsetOf(w.saved, key) <= |es|
    case Take(i, end) => i in w.processes && w.processes[i].Resting? && w.processes[i].offset < end <= |es|
    case Upsert(i, s, store, ok) =>
      && i in w.processes && w.processes[i].Writing?
      && var p := w.processes[i];
      && p.offset <= p.end <= |es| && s in p.left && s in Rows(es, p.offset, p.end)
      && (Upserted(w.store, Rows(es, p.offset, p.end)[s], store) || (!ok && store == w.store))
    case Save(i, written, ok) =>
      i in w.processes && w.processes[i].Writing? && w.processes[i].left == {} && (ok ==> written)
    case Leave(i) => i in w.processes
  }

  ghost function Next(es: seq<Entry>, w: Cluster, m: Move): Cluster
    requires Enabled(es, w, m)
  {
    match m
    case Load(i, key) => w.(processes := w.processes[i := Resting(key, OffsetOf(w.saved, key))])
    case Take(i, end) =>
      var p := w.processes[i];
      w.(processes := w.processes[i := Writing(p.key, p.offset, end, Rows(es, p.offset, end).Keys)])
    case Upsert(i, s, store, ok) =>
      var p := w.processes[i];
      Cluster(store, w.saved, if ok then w.processes[i := p.(left := p.left - {s})] else w.processes - {i})
    case Save(i, written, ok) =>
      var p := w.processes[i];
      Cluster(w.store, if written then w.saved[p.key := p.end] else w.saved,
              if ok then w.processes[i := Resting(p.key, p.end)] else w.processes - {i})
    case Leave(i) => w.(processes := w.processes - {i})
  }

  /** Where a run of moves leads, if every move is enabled in turn. */
  ghost function RunAll(es: seq<Entry>, w: Cluster, moves: seq<Move>): Option<Cluster> {
    if moves == [] then Some(w)
    else
      match RunAll(es, w, moves[..|moves| - 1])
      case None => None
      case Some(v) => if Enabled(es, v, moves[|moves| - 1]) then Some(Next(es, v, moves[|moves| - 1])) else None
  }

  // ----- What every move keeps -----

  ghost predicate ProcessOk(es: seq<Entry>, store: map<Scope, Projection>, p: Process) {
    && Progress(es, store, p.offset)
    && (p.Writing? ==> p.offset <= p.end <= |es| && Arrived(Rows(es, p.offset, p.end), p.left, store))
  }

  /** Every checkpoint and every process is backed by rows that have arrived. */
  ghost predicate Sound(es: seq<Entry>, w: Cluster) {
    && (forall key :: Progress(es, w.store, OffsetOf(w.saved, key)))
    && (forall i :: i in w.processes ==> ProcessOk(es, w.store, w.processes[i]))
  }

  /** What a move does to the store is upserting rows of some chunk. */
  lemma MoveIsChunk(es: seq<Entry>, w: Cluster, m: Move) returns (start: nat, end: nat)
    requires Sound(es, w) && Enabled(es, w, m)
    ensures start <= end <= |es| && Moved(w.store, Rows(es, start, end), Next(es, w, m).store)
  {
    if m.Upsert? {
      var p := w.processes[m.i];
      start, end := p.offset, p.end;
      LatestIsKeyed(es[start..end]);
      hide Latest, Upserted, Moved, Progress, Arrived;
      NothingMoved(Rows(es, start, end), w.store);
      if m.store != w.store { UpsertIsMove(Rows(es, start, end), m.scope, w.store, m.store); }
    } else {
      start, end := 0, 0;
      NothingMoved(Rows(es, 0, 0), w.store);
    }
  }

  /** A move keeps the rows up with every offset they were up with, and other rows as they were. */
  lemma MoveKeeps(es: seq<Entry>, w: Cluster, m: Move, offset: nat)
    requires Sound(es, w) && Enabled(es, w, m) && Progress(es, w.store, offset)
    ensures Progress(es, Next(es, w, m).store, offset) && OthersKept(es, w.store, Next(es, w, m).store)
  {
    var start, end := MoveIsChunk(es, w, m);
    hide Enabled, Next, Sound, Progress, OthersKept, Moved, Latest;
    ChunkKeepsProgress(es, w.store, Next(es, w, m).store, offset, start, end);
  }

  /** A process that a move does not concern stays sound. */
  lemma OthersStay(es: seq<Entry>, w: Cluster, m: Move, p: Process)
    requires Sound(es, w) && Enabled(es, w, m) && ProcessOk(es, w.store, p)
    ensures ProcessOk(es, Next(es, w, m).store, p)
  {
    var start, end := MoveIsChunk(es, w, m);
    hide Enabled, Next, Sound, Progress, Moved, Arrived, Rows;
    MoveKeeps(es, w, m, p.offset);
    if p.Writing? {
      ArrivedStays(Rows(es, p.offset, p.end), p.left, Rows(es, start, end), w.store, Next(es, w, m).store);
    }
  }

  /** A chunk whose rows have all arrived carries the progress to its end. */
  lemma ChunkIsDone(es: seq<Entry>, store: map<Scope, Projection>, p: Process)
    requires ProcessOk(es, store, p) && p.Writing? && p.left == {}
    ensures Progress(es, store, p.end)
  {
    assert Reached(Latest(es[p.offset..p.end]), store);
    hide Progress, Reached, Latest, Arrived;
    ChunkAdvancesProgress(es, store, p.offset, p.end);
  }

  /** The process a move concerns stays sound, if it lives. */
  lemma MoverStays(es: seq<Entry>, w: Cluster, m: Move)
    requires Sound(es, w) && Enabled(es, w, m) && m.i in Next(es, w, m).processes
    ensures ProcessOk(es, Next(es, w, m).store, Next(es, w, m).processes[m.i])
  {
    hide Progress, Latest, Upserted;
    match m
    case Load(i, key) => assert Progress(es, w.store, OffsetOf(w.saved, key));
    case Take(i, end) => assert ProcessOk(es, w.store, w.processes[i]);
    case Upsert(i, s, store, ok) => RowArrives(es, w, i, s, store);
    case Save(i, written, ok) =>
      assert ProcessOk(es, w.store, w.processes[i]);
      ChunkIsDone(es, w.store, w.processes[i]);
    case Leave(i) =>
  }

  lemma RowArrives(es: seq<Entry>, w: Cluster, i: nat, s: Scope, store: map<Scope, Projection>)
    requires Sound(es, w) && Enabled(es, w, Upsert(i, s, store, true))
    ensures var p := w.processes[i]; ProcessOk(es, store, p.(left := p.left - {s}))
  {
    var p, m := w.processes[i], Upsert(i, s, store, true);
    assert ProcessOk(es, w.store, p);
    OthersStay(es, w, m, p);
    LatestIsKeyed(es[p.offset..p.end]);
    var rows := Rows(es, p.offset, p.end);
    hide Progress, Upserted, Latest, Arrived, Rows, Sound;
    OneMoreArrives(rows, p.left, s, w.store, store);
  }

  lemma CheckpointsStay(es: seq<Entry>, w: Cluster, m: Move, key: Id)
    requires Sound(es, w) && Enabled(es, w, m)
    ensures Progress(es, Next(es, w, m).store, OffsetOf(Next(es, w, m).saved, key))
  {
    assert Progress(es, w.store, OffsetOf(w.saved, key));
    MoveKeeps(es, w, m, OffsetOf(w.saved, key));
    hide Progress, Latest, Upserted;
    if m.Save? && m.written && w.processes[m.i].key == key {
      assert ProcessOk(es, w.store, w.processes[m.i]);
      ChunkIsDone(es, w.store, w.processes[m.i]);
    }
  }

  lemma MoveIsSound(es: seq<Entry>, w: Cluster, m: Move)
    requires Sound(es, w) && Enabled(es, w, m)
    ensures Sound(es, Next(es, w, m))
  {
    var w' := Next(es, w, m);
    forall key ensures Progress(es, w'.store, OffsetOf(w'.saved, key)) { CheckpointsStay(es, w, m, key); }
    forall i | i in w'.processes ensures ProcessOk(es, w'.store, w'.processes[i]) {
      if i == m.i {
        MoverStays(es, w, m);
      } else {
        OthersAreKept(es, w, m, i);
        OthersStay(es, w, m, w.processes[i]);
      }
    }
    hide Enabled, Next, Progress, ProcessOk;
  }

  lemma OthersAreKept(es: seq<Entry>, w: Cluster, m: Move, i: nat)
    requires Enabled(es, w, m) && i != m.i && i in Next(es, w, m).processes
    ensures i in w.processes && Next(es, w, m).processes[i] == w.processes[i]
  {
    hide Upserted, Rows;
  }

  // ----- Every run -----

  lemma {:induction false} RunIsSound(es: seq<Entry>, w: Cluster, moves: seq<Move>, offset: nat)
    requires Sound(es, w) && RunAll(es, w, moves).Some?
    ensures var v := RunAll(es, w, moves).value;
            && Sound(es, v) && OthersKept(es, w.store, v.store)
            && (Progress(es, w.store, offset) ==> Progress(es, v.store, offset))
  {
    hide Sound, Enabled, Next, Progress, OthersKept;
    if moves == [] {
      NothingKept(es, w.store);
    } else {
      var front, m := moves[..|moves| - 1], moves[|moves| - 1];
      RunIsSound(es, w, front, offset);
      var v := RunAll(es, w, front).value;
      MoveIsSound(es, v, m);
      SomeProgress(es, v);
      MoveKeeps(es, v, m, OffsetOf(v.saved, Id([])));
      if Progress(es, w.store, offset) { MoveKeeps(es, v, m, offset); }
      OthersKeptTransitive(es, w.store, v.store, Next(es, v, m).store);
    }
  }

  lemma SomeProgress(es: seq<Entry>, w: Cluster)
    requires Sound(es, w)
    ensures forall key :: Progress(es, w.store, OffsetOf(w.saved, key))
  {
  }

  /** A fresh sink without checkpoints and processes is sound. */
  lemma EmptyClusterIsSound(es: seq<Entry>)
    ensures Sound(es, Cluster(map[], map[], map[]))
  {
    forall key ensures Progress(es, map[], OffsetOf(map[], key)) { FreshStart(es, key); }
  }

  /** Over every run of processes that overlap, crash and fail in any way, with any chunk ends and
      any checkpoint keys, even where one that fell behind moves a checkpoint back: the rows keep
      up with every checkpoint and process, they keep up with every checkpoint there was at any
      earlier point, and once one has reached the end the rebuild is complete and stays so. */
  lemma EveryRunIsSafe(rules: Rules, es: seq<Entry>, w: Cluster, before: seq<Move>, after: seq<Move>, key: Id)
    requires StreamOk(rules, es) && Sound(es, w)
    requires RunAll(es, w, before).Some? && RunAll(es, RunAll(es, w, before).value, after).Some?
    ensures var mid := RunAll(es, w, before).value;
            var end := RunAll(es, mid, after).value;
            && Sound(es, end) && OthersKept(es, w.store, end.store)
            && Progress(es, end.store, OffsetOf(mid.saved, key))
            && (OffsetOf(mid.saved, key) == |es| ==> Finished(es, end.store))
  {
    var mid := RunAll(es, w, before).value;
    var end := RunAll(es, mid, after).value;
    var offset := OffsetOf(mid.saved, key);
    RunIsSound(es, w, before, 0);
    SomeProgress(es, mid);
    hide Sound, Progress, RunAll, OthersKept, Finished, StreamOk;
    RunIsSound(es, mid, after, offset);
    OthersKeptTransitive(es, w.store, mid.store, end.store);
    if offset == |es| { ProgressAtEnd(rules, es, end.store); }
  }

  // ----- One process at a time -----

  /** No two processes share a checkpoint key. */
  ghost predicate Alone(w: Cluster) {
    forall i, j :: i in w.processes && j in w.processes && i != j ==> w.processes[i].key != w.processes[j].key
  }

  /** Every process stands where its checkpoint does. */
  ghost predicate InStep(w: Cluster) {
    forall i :: i in w.processes ==> w.processes[i].offset == OffsetOf(w.saved, w.processes[i].key)
  }

  ghost predicate OneAtATime(es: seq<Entry>, w: Cluster, moves: seq<Move>) {
    && RunAll(es, w, moves).Some? && Alone(RunAll(es, w, moves).value)
    && (moves != [] ==> OneAtATime(es, w, moves[..|moves| - 1]))
  }

  lemma MoveAdvances(es: seq<Entry>, w: Cluster, m: Move, key: Id)
    requires Sound(es, w) && Enabled(es, w, m) && Alone(w) && InStep(w)
    ensures InStep(Next(es, w, m)) && OffsetOf(w.saved, key) <= OffsetOf(Next(es, w, m).saved, key)
  {
    hide Upserted, Progress, Latest, Arrived;
    if m.Save? { assert ProcessOk(es, w.store, w.processes[m.i]); }
    hide Sound, ProcessOk, Rows;
  }

  /** With one process per key at a time no checkpoint ever moves back. */
  lemma {:induction false} CheckpointsAdvance(es: seq<Entry>, w: Cluster, moves: seq<Move>, key: Id)
    requires Sound(es, w) && InStep(w) && OneAtATime(es, w, moves)
    ensures var v := RunAll(es, w, moves).value; InStep(v) && OffsetOf(w.saved, key) <= OffsetOf(v.saved, key)
  {
    hide Sound, Enabled, Next, InStep, Alone;
    if moves != [] {
      var front := moves[..|moves| - 1];
      CheckpointsAdvance(es, w, front, key);
      RunIsSound(es, w, front, 0);
      MoveAdvances(es, RunAll(es, w, front).value, moves[|moves| - 1], key);
    }
  }
}
