/** Projection rebuild from canonical events (`crates/statechronicle-index/src/rebuild.rs`):
    validation, one-shot rebuild, and the chunked rebuild that survives crashes. */
module Rebuild {
  import opened Bytes
  import opened Options
  import opened Domain

  datatype RebuildError = Invariant | Sink

  datatype Result<+T> = Ok(value: T) | Err(error: RebuildError)

  /** A canonical event with the commit that carried it. */
  datatype Entry = Entry(event: Event, commitId: Id)

  /** Projections are grouped by `(tenant, resource)`. */
  datatype Scope = Scope(tenant: Id, resource: Id)

  function ScopeOf(e: Entry): Scope { Scope(e.event.tenantId, e.event.resourceId) }

  function ProjectionOf(e: Entry): Projection {
    Projection(e.event.tenantId, e.event.resourceId, e.event.after.version, e.event.eventId, e.commitId,
               e.event.after.stateHash, e.event.after.state)
  }

  // ----- Validation -----

  /** What the rebuild takes from elsewhere: the canonical digest, the commit-id grammar and the
      event schema name. */
  datatype Rules = Rules(canon: ResourceState -> Option<Digest>, commitIdOk: Id -> bool, eventSchema: Id)

  /** `validate_event_for_rebuild`, then the scope check. */
  predicate EventOk(rules: Rules, e: Entry) {
    && e.event.schema == rules.eventSchema
    && rules.commitIdOk(e.commitId)
    && e.event.before.version + 1 < U64_BOUND
    && e.event.after.version == e.event.before.version + 1
    && rules.canon(e.event.before.state) == Some(e.event.before.stateHash)
    && rules.canon(e.event.after.state) == Some(e.event.after.stateHash)
    && e.event.before.state.SameType(e.event.after.state)
    && !IsEmpty(e.event.tenantId) && !IsEmpty(e.event.resourceId)
  }

  /** The last projection of each scope. */
  function Latest(es: seq<Entry>): map<Scope, Projection> {
    if es == [] then map[]
    else Latest(es[..|es| - 1])[ScopeOf(es[|es| - 1]) := ProjectionOf(es[|es| - 1])]
  }

  function EventIds(es: seq<Entry>): set<Id> { set i | 0 <= i < |es| :: es[i].event.eventId }

  /** An event continues the last one of its scope. */
  predicate Links(latest: map<Scope, Projection>, e: Entry) {
    ScopeOf(e) in latest ==>
      && e.event.before.version == latest[ScopeOf(e)].version
      && e.event.before.stateHash == latest[ScopeOf(e)].stateHash
  }

  /** What the validator accepts. */
  predicate StreamOk(rules: Rules, es: seq<Entry>) {
    es == [] ||
    var front, last := es[..|es| - 1], es[|es| - 1];
    && StreamOk(rules, front)
    && EventOk(rules, last)
    && last.event.eventId !in EventIds(front)
    && Links(Latest(front), last)
  }

  lemma {:induction false} StreamOkPrefix(rules: Rules, es: seq<Entry>, n: nat)
    requires StreamOk(rules, es) && n <= |es|
    ensures StreamOk(rules, es[..n])
  {
    if n < |es| {
      StreamOkPrefix(rules, es[..|es| - 1], n);
      assert es[..|es| - 1][..n] == es[..n];
    } else {
      assert es[..n] == es;
    }
  }

  /** Rejection is permanent: an accepted stream has only accepted prefixes. */
  lemma RejectedPrefix(rules: Rules, es: seq<Entry>, n: nat)
    requires n <= |es| && !StreamOk(rules, es[..n])
    ensures !StreamOk(rules, es)
  {
    if StreamOk(rules, es) { StreamOkPrefix(rules, es, n); }
  }

  /** The version and hash of the last projection of each scope. */
  predicate Mirrors(previous: map<Scope, (nat, Digest)>, latest: map<Scope, Projection>) {
    && previous.Keys == latest.Keys
    && forall s :: s in previous ==> previous[s] == (latest[s].version, latest[s].stateHash)
  }

  lemma MirrorsLinks(previous: map<Scope, (nat, Digest)>, latest: map<Scope, Projection>, e: Entry)
    requires Mirrors(previous, latest)
    ensures Links(latest, e) <==>
            (ScopeOf(e) in previous ==> previous[ScopeOf(e)] == (e.event.before.version, e.event.before.stateHash))
    ensures Mirrors(previous[ScopeOf(e) := (e.event.after.version, e.event.after.stateHash)],
                    latest[ScopeOf(e) := ProjectionOf(e)])
  {
  }

  /** `validate_rebuild_stream`. */
  method ValidateStream(rules: Rules, es: seq<Entry>) returns (ok: bool)
    ensures ok == StreamOk(rules, es)
  {
    var eventIds: set<Id> := {};
    var previous: map<Scope, (nat, Digest)> := map[];
    for i := 0 to |es|
      invariant StreamOk(rules, es[..i])
      invariant eventIds == EventIds(es[..i])
      invariant Mirrors(previous, Latest(es[..i]))
    {
      var e := es[i];
      assert es[..i + 1][..i] == es[..i];
      MirrorsLinks(previous, Latest(es[..i]), e);
      hide EventOk, EventIds, Mirrors, Links;
      if !EventOk(rules, e) || e.event.eventId in eventIds {
        RejectedPrefix(rules, es, i + 1);
        return false;
      }
      var scope := ScopeOf(e);
      if scope in previous &&
         (e.event.before.version != previous[scope].0 || e.event.before.stateHash != previous[scope].1) {
        RejectedPrefix(rules, es, i + 1);
        return false;
      }
      EventIdsAppend(es[..i], e);
      assert es[..i + 1] == es[..i] + [e];
      eventIds := eventIds + {e.event.eventId};
      previous := previous[scope := (e.event.after.version, e.event.after.stateHash)];
    }
    assert es[..|es|] == es;
    ok := true;
  }

  lemma EventIdsAppend(es: seq<Entry>, e: Entry)
    ensures EventIds(es + [e]) == EventIds(es) + {e.event.eventId}
  {
    var all := es + [e];
    forall i | 0 <= i < |es| ensures es[i].event.eventId in EventIds(all) { assert all[i] == es[i]; }
    assert all[|es|].event.eventId in EventIds(all);
    forall id | id in EventIds(all) ensures id in EventIds(es) + {e.event.eventId} {
      var i :| 0 <= i < |all| && all[i].event.eventId == id;
      assert i < |es| ==> all[i] == es[i];
    }
  }

  // ----- Versions -----

  lemma {:induction false} LatestIsLast(es: seq<Entry>, s: Scope) returns (i: nat)
    requires s in Latest(es)
    ensures i < |es| && ScopeOf(es[i]) == s && Latest(es)[s] == ProjectionOf(es[i])
    ensures forall j :: i < j < |es| ==> ScopeOf(es[j]) != s
  {
    if ScopeOf(es[|es| - 1]) == s { i := |es| - 1; } else { i := LatestIsLast(es[..|es| - 1], s); }
  }

  lemma {:induction false} LatestCovers(es: seq<Entry>, i: nat)
    requires i < |es|
    ensures ScopeOf(es[i]) in Latest(es)
  {
    if i < |es| - 1 { LatestCovers(es[..|es| - 1], i); }
  }

  /** In an accepted stream no event of a scope is newer than the last one. */
  lemma {:induction false} LatestIsNewest(rules: Rules, es: seq<Entry>, i: nat)
    requires StreamOk(rules, es) && i < |es|
    ensures ScopeOf(es[i]) in Latest(es)
    ensures es[i].event.after.version <= Latest(es)[ScopeOf(es[i])].version
    ensures es[i].event.after.version == Latest(es)[ScopeOf(es[i])].version ==>
            ProjectionOf(es[i]) == Latest(es)[ScopeOf(es[i])]
  {
    if i < |es| - 1 { LatestIsNewest(rules, es[..|es| - 1], i); }
  }

  /** Per scope, versions rise strictly along an accepted stream. */
  lemma VersionsRise(rules: Rules, es: seq<Entry>, i: nat, j: nat)
    requires StreamOk(rules, es) && i < j < |es| && ScopeOf(es[i]) == ScopeOf(es[j])
    ensures es[i].event.after.version < es[j].event.after.version
  {
    StreamOkPrefix(rules, es, j + 1);
    StreamOkPrefix(rules, es, j);
    assert es[..j + 1][..j] == es[..j];
    LatestIsNewest(rules, es[..j], i);
  }

  // ----- Slices -----

  lemma {:induction false} LatestOfTail(es: seq<Entry>, s: Scope)
    requires es != [] && s in Latest(es[1..])
    ensures s in Latest(es) && Latest(es)[s] == Latest(es[1..])[s]
  {
    var front := es[..|es| - 1];
    if |es| > 1 {
      assert es[1..][..|es[1..]| - 1] == front[1..];
      if ScopeOf(es[|es| - 1]) != s { LatestOfTail(front, s); }
    }
  }

  lemma EventIdsOfTail(es: seq<Entry>)
    requires es != []
    ensures EventIds(es[1..]) <= EventIds(es)
  {
    forall id | id in EventIds(es[1..]) ensures id in EventIds(es) {
      var i :| 0 <= i < |es[1..]| && es[1..][i].event.eventId == id;
      assert es[i + 1].event.eventId == id;
    }
  }

  lemma {:induction false} StreamOkTail(rules: Rules, es: seq<Entry>)
    requires StreamOk(rules, es) && es != []
    ensures StreamOk(rules, es[1..])
  {
    if |es| > 1 {
      var front, last := es[..|es| - 1], es[|es| - 1];
      StreamOkTail(rules, front);
      assert es[1..][..|es[1..]| - 1] == front[1..];
      EventIdsOfTail(front);
      if ScopeOf(last) in Latest(front[1..]) { LatestOfTail(front, ScopeOf(last)); }
    }
  }

  /** No chunk of an accepted stream is rejected. */
  lemma {:induction false} ChunkAccepted(rules: Rules, es: seq<Entry>, start: nat, end: nat)
    requires StreamOk(rules, es) && start <= end <= |es|
    ensures StreamOk(rules, es[start..end])
    decreases start
  {
    if start == 0 {
      StreamOkPrefix(rules, es, end);
      assert es[..end] == es[0..end];
    } else {
      ChunkAccepted(rules, es, start - 1, end);
      StreamOkTail(rules, es[start - 1..end]);
      assert es[start - 1..end][1..] == es[start..end];
    }
  }

  lemma {:induction false} LatestOfConcat(a: seq<Entry>, b: seq<Entry>)
    ensures Latest(a + b) == Latest(a) + Latest(b)
  {
    if b == [] {
      assert a + b == a;
    } else {
      var front := b[..|b| - 1];
      assert (a + b)[..|a + b| - 1] == a + front;
      LatestOfConcat(a, front);
    }
  }

  // ----- The sink -----

  /** One upsert that keeps versions monotone; at equal versions either row may stay. */
  ghost predicate Upserted(old': map<Scope, Projection>, p: Projection, new': map<Scope, Projection>) {
    var s := Scope(p.tenantId, p.resourceId);
    if s !in old' || old'[s].version < p.version then new' == old'[s := p]
    else if p.version < old'[s].version then new' == old'
    else new' == old' || new' == old'[s := p]
  }

  class ProjectionSink {
    var store: map<Scope, Projection>

    /** A failing call may or may not have written. */
    method UpsertProjection(p: Projection) returns (ok: bool)
      modifies this
      ensures Upserted(old(store), p, store) || (!ok && store == old(store))
    {
      var s := Scope(p.tenantId, p.resourceId);
      ok := *;
      var reached := *;
      if ok || reached {
        if s !in store || store[s].version < p.version { store := store[s := p]; }
      }
    }
  }

  class CheckpointStore {
    var saved: map<Id, nat>

    method Load(key: Id) returns (r: Result<Option<nat>>)
      ensures r.Ok? ==> r.value == if key in saved then Some(saved[key]) else None
      ensures r.Err? ==> r.error == Sink
    {
      if * { return Err(Sink); }
      r := Ok(if key in saved then Some(saved[key]) else None);
    }

    /** A failing save may or may not have reached the store. */
    method Save(key: Id, next: nat) returns (ok: bool)
      modifies this
      ensures saved == old(saved)[key := next] || (!ok && saved == old(saved))
    {
      ok := *;
      var reached := *;
      if ok || reached { saved := saved[key := next]; }
    }
  }

  /** `new'` is `old'` with some of `batch` upserted. */
  ghost predicate Moved(old': map<Scope, Projection>, batch: map<Scope, Projection>, new': map<Scope, Projection>) {
    && (forall s :: s in old' ==> s in new' && old'[s].version <= new'[s].version)
    && (forall s :: s in new' ==> (s in old' && new'[s] == old'[s]) || (s in batch && new'[s] == batch[s]))
  }

  /** The rows of a batch that are no longer left are in the store, or newer ones are. */
  ghost predicate Arrived(batch: map<Scope, Projection>, left: set<Scope>, store: map<Scope, Projection>) {
    forall s :: s in batch && s !in left ==> s in store && batch[s].version <= store[s].version
  }

  /** Every row of a batch has arrived. */
  ghost predicate Reached(batch: map<Scope, Projection>, store: map<Scope, Projection>) {
    Arrived(batch, {}, store)
  }

  ghost predicate Keyed(batch: map<Scope, Projection>) {
    forall s :: s in batch ==> s == Scope(batch[s].tenantId, batch[s].resourceId)
  }

  lemma {:induction false} LatestIsKeyed(es: seq<Entry>)
    ensures Keyed(Latest(es))
  {
    if es != [] { LatestIsKeyed(es[..|es| - 1]); }
  }

  datatype Placement = Skip | Conflict | Insert

  /** The three-way version test against the projection already collected for a scope. */
  function Place(existing: Option<Projection>, p: Projection): Placement {
    match existing
    case Some(x) =>
      if p.version < x.version then Skip
      else if p.version == x.version && (p.stateHash != x.stateHash || p.lastEventId != x.lastEventId) then Conflict
      else Insert
    case None => Insert
  }

  /** Within an accepted stream the test always inserts: neither the stale nor the conflict
      branch can be reached. */
  lemma AlwaysInserts(rules: Rules, es: seq<Entry>, i: nat)
    requires StreamOk(rules, es) && i < |es|
    ensures var front, e := Latest(es[..i]), es[i];
            Place(if ScopeOf(e) in front then Some(front[ScopeOf(e)]) else None, ProjectionOf(e)) == Insert
  {
    StreamOkPrefix(rules, es, i + 1);
    assert es[..i + 1][..i] == es[..i];
  }

  /** `rebuild_projections`. On an accepted stream the version branches never fire: the map
      collected is `Latest`, and the only failure left is the sink's. */
  method RebuildProjections(rules: Rules, es: seq<Entry>, sink: ProjectionSink) returns (r: Result<nat>)
    modifies sink
    ensures !StreamOk(rules, es) ==> r == Err(Invariant) && sink.store == old(sink.store)
    ensures StreamOk(rules, es) ==> Moved(old(sink.store), Latest(es), sink.store)
    ensures StreamOk(rules, es) && r.Ok? ==> r.value == |Latest(es)| && Reached(Latest(es), sink.store)
    ensures StreamOk(rules, es) && r.Err? ==> r.error == Sink
  {
    var ok := ValidateStream(rules, es);
    if !ok { return Err(Invariant); }
    var latest: map<Scope, Projection> := map[];
    for i := 0 to |es|
      invariant sink.store == old(sink.store)
      invariant latest == Latest(es[..i])
    {
      var e := es[i];
      AlwaysInserts(rules, es, i);
      assert es[..i + 1][..i] == es[..i];
      var p, scope := ProjectionOf(e), ScopeOf(e);
      match Place(if scope in latest then Some(latest[scope]) else None, p) {
        case Skip =>
        case Conflict => return Err(Invariant);
        case Insert => latest := latest[scope := p];
      }
    }
    assert es[..|es|] == es;
    LatestIsKeyed(es);
    r := UpsertAll(latest, sink);
  }

  lemma NothingMoved(batch: map<Scope, Projection>, store: map<Scope, Projection>)
    ensures Moved(store, batch, store)
  {
  }

  lemma UpsertIsMove(batch: map<Scope, Projection>, s: Scope,
                     old': map<Scope, Projection>, new': map<Scope, Projection>)
    requires Keyed(batch) && s in batch && Upserted(old', batch[s], new')
    ensures Moved(old', batch, new') && s in new' && batch[s].version <= new'[s].version
  {
  }

  lemma MovedOn(batch: map<Scope, Projection>,
                a: map<Scope, Projection>, b: map<Scope, Projection>, c: map<Scope, Projection>)
    requires Moved(a, batch, b) && Moved(b, batch, c)
    ensures Moved(a, batch, c)
  {
  }

  lemma ArrivedStays(rows: map<Scope, Projection>, left: set<Scope>, batch: map<Scope, Projection>,
                     old': map<Scope, Projection>, new': map<Scope, Projection>)
    requires Arrived(rows, left, old') && Moved(old', batch, new')
    ensures Arrived(rows, left, new')
  {
  }

  lemma OneMoreArrives(batch: map<Scope, Projection>, left: set<Scope>, s: Scope,
                       old': map<Scope, Projection>, new': map<Scope, Projection>)
    requires Keyed(batch) && s in batch && Upserted(old', batch[s], new') && Arrived(batch, left, old')
    ensures Arrived(batch, left - {s}, new')
  {
    UpsertIsMove(batch, s, old', new');
    ArrivedStays(batch, left, batch, old', new');
    hide Upserted, Moved;
  }

  /** The upsert loop, in whatever order the map yields its values. */
  method UpsertAll(latest: map<Scope, Projection>, sink: ProjectionSink) returns (r: Result<nat>)
    requires Keyed(latest)
    modifies sink
    ensures Moved(old(sink.store), latest, sink.store)
    ensures r.Ok? ==> r.value == |latest| && Reached(latest, sink.store)
    ensures r.Err? ==> r.error == Sink
  {
    var todo := latest.Keys;
    NothingMoved(latest, sink.store);
    assert Arrived(latest, todo, sink.store);
    hide Moved, Arrived, Upserted, Keyed;
    while todo != {}
      invariant todo <= latest.Keys
      invariant Moved(old(sink.store), latest, sink.store) && Arrived(latest, todo, sink.store)
      decreases todo
    {
      var s :| s in todo;
      ghost var before := sink.store;
      var ok := sink.UpsertProjection(latest[s]);
      if sink.store != before {
        UpsertIsMove(latest, s, before, sink.store);
        MovedOn(latest, old(sink.store), before, sink.store);
      }
      if !ok { return Err(Sink); }
      OneMoreArrives(latest, todo, s, before, sink.store);
      todo := todo - {s};
    }
    r := Ok(|latest|);
  }

  datatype RebuildCheckpoint = RebuildCheckpoint(nextEvent: nat, projectionsWritten: nat)

  function ChunkEnd(es: seq<Entry>, start: nat, max: nat): nat { if start + max < |es| then start + max else |es| }

  /** `rebuild_projections_chunk`. */
  method RebuildChunk(rules: Rules, es: seq<Entry>, start: nat, max: nat, sink: ProjectionSink)
    returns (r: Result<RebuildCheckpoint>)
    modifies sink
    ensures (max == 0 || start > |es|) ==> r == Err(Invariant) && sink.store == old(sink.store)
    ensures max > 0 && start <= |es| && StreamOk(rules, es) ==>
              var batch := Latest(es[start..ChunkEnd(es, start, max)]);
              && Moved(old(sink.store), batch, sink.store)
              && (r.Ok? ==>
                    r.value == RebuildCheckpoint(ChunkEnd(es, start, max), |batch|) && Reached(batch, sink.store))
              && (r.Err? ==> r.error == Sink)
  {
    if max == 0 || start > |es| { return Err(Invariant); }
    var end := ChunkEnd(es, start, max);
    if StreamOk(rules, es) { ChunkAccepted(rules, es, start, end); }
    var written := RebuildProjections(rules, es[start..end], sink);
    match written {
      case Err(error) => r := Err(error);
      case Ok(n) => r := Ok(RebuildCheckpoint(end, n));
    }
  }

  // ----- The resumable rebuild -----

  /** Every row of a scope of the stream came from the stream. */
  ghost predicate FromStream(es: seq<Entry>, store: map<Scope, Projection>) {
    forall s :: s in store && s in Latest(es) ==>
      exists i :: 0 <= i < |es| && ScopeOf(es[i]) == s && store[s] == ProjectionOf(es[i])
  }

  /** What holds between any two durable effects: the rows come from the stream and are at
      least as new as the checkpoint says. */
  ghost predicate Progress(es: seq<Entry>, store: map<Scope, Projection>, offset: nat) {
    offset <= |es| && FromStream(es, store) && Reached(Latest(es[..offset]), store)
  }

  function OffsetOf(saved: map<Id, nat>, key: Id): nat { if key in saved then saved[key] else 0 }

  /** The finished rebuild: exactly the one-shot result on the stream's scopes. */
  ghost predicate Finished(es: seq<Entry>, store: map<Scope, Projection>) {
    forall s :: s in Latest(es) ==> s in store && store[s] == Latest(es)[s]
  }

  /** Rows of other scopes are none of the rebuild's business. */
  ghost predicate OthersKept(es: seq<Entry>, old': map<Scope, Projection>, new': map<Scope, Projection>) {
    forall s :: s !in Latest(es) ==> (s in new' <==> s in old') && (s in old' ==> new'[s] == old'[s])
  }

  /** At the end of the stream, progress is completion. */
  lemma ProgressAtEnd(rules: Rules, es: seq<Entry>, store: map<Scope, Projection>)
    requires StreamOk(rules, es) && Progress(es, store, |es|)
    ensures Finished(es, store)
  {
    assert es[..|es|] == es;
    forall s | s in Latest(es) ensures s in store && store[s] == Latest(es)[s] {
      var i :| 0 <= i < |es| && ScopeOf(es[i]) == s && store[s] == ProjectionOf(es[i]);
      LatestIsNewest(rules, es, i);
    }
  }

  /** A chunk's latest rows are rows of the stream. */
  lemma ChunkRow(es: seq<Entry>, start: nat, end: nat, s: Scope) returns (i: nat)
    requires start <= end <= |es| && s in Latest(es[start..end])
    ensures i < |es| && ScopeOf(es[i]) == s && Latest(es[start..end])[s] == ProjectionOf(es[i])
    ensures s in Latest(es)
  {
    var j := LatestIsLast(es[start..end], s);
    i := start + j;
    assert es[start..end][j] == es[i];
    LatestCovers(es, i);
  }

  /** Partial or repeated replay of a chunk keeps progress at the old checkpoint. */
  lemma ChunkKeepsProgress(es: seq<Entry>, old': map<Scope, Projection>, new': map<Scope, Projection>,
                           offset: nat, start: nat, end: nat)
    requires Progress(es, old', offset) && start <= end <= |es| && Moved(old', Latest(es[start..end]), new')
    ensures Progress(es, new', offset) && OthersKept(es, old', new')
  {
    var batch := Latest(es[start..end]);
    forall s | s in new' && s in Latest(es)
      ensures exists i :: 0 <= i < |es| && ScopeOf(es[i]) == s && new'[s] == ProjectionOf(es[i])
    {
      if !(s in old' && new'[s] == old'[s]) {
        var i := ChunkRow(es, start, end, s);
      }
    }
    forall s | s !in Latest(es) ensures (s in new' <==> s in old') && (s in old' ==> new'[s] == old'[s]) {
      if s in batch { var i := ChunkRow(es, start, end, s); }
    }
  }

  /** Once all of a chunk reached the sink, the checkpoint may move over it. */
  lemma ChunkAdvancesProgress(es: seq<Entry>, store: map<Scope, Projection>, start: nat, end: nat)
    requires Progress(es, store, start) && start <= end <= |es| && Reached(Latest(es[start..end]), store)
    ensures Progress(es, store, end)
  {
    assert es[..end] == es[..start] + es[start..end];
    LatestOfConcat(es[..start], es[start..end]);
  }

  /** Rows written by an undisturbed run from `offset`. */
  function RowsFrom(es: seq<Entry>, offset: nat, chunk: nat): nat
    decreases |es| - offset
  {
    if chunk == 0 || offset >= |es| then 0
    else |Latest(es[offset..ChunkEnd(es, offset, chunk)])| + RowsFrom(es, ChunkEnd(es, offset, chunk), chunk)
  }

  lemma OthersKeptTransitive(es: seq<Entry>, a: map<Scope, Projection>, b: map<Scope, Projection>,
                             c: map<Scope, Projection>)
    requires OthersKept(es, a, b) && OthersKept(es, b, c)
    ensures OthersKept(es, a, c)
  {
    forall s | s !in Latest(es) ensures (s in c <==> s in a) && (s in a ==> c[s] == a[s]) {
      assert s in b <==> s in a;
    }
  }

  /** Only `key`'s checkpoint changed, and not backwards. */
  ghost predicate OnlyAdvanced(key: Id, old': map<Id, nat>, new': map<Id, nat>) {
    && old'.Keys <= new'.Keys <= old'.Keys + {key}
    && (forall k :: k in old' && k != key ==> new'[k] == old'[k])
    && OffsetOf(old', key) <= OffsetOf(new', key)
  }

  /** What a run may do to the durable state, however it ends. */
  ghost predicate Safe(es: seq<Entry>, key: Id, store: map<Scope, Projection>, saved: map<Id, nat>,
                       store': map<Scope, Projection>, saved': map<Id, nat>) {
    && Progress(es, store', OffsetOf(saved', key))
    && OthersKept(es, store, store')
    && OnlyAdvanced(key, saved, saved')
  }

  /** Replaying some of a chunk is safe. */
  lemma SafeAfterChunk(es: seq<Entry>, key: Id, store: map<Scope, Projection>, saved: map<Id, nat>,
                       store': map<Scope, Projection>, saved': map<Id, nat>, store'': map<Scope, Projection>, end: nat)
    requires Safe(es, key, store, saved, store', saved') && OffsetOf(saved', key) <= end <= |es|
    requires Moved(store', Latest(es[OffsetOf(saved', key)..end]), store'')
    ensures Safe(es, key, store, saved, store'', saved')
  {
    ChunkKeepsProgress(es, store', store'', OffsetOf(saved', key), OffsetOf(saved', key), end);
    OthersKeptTransitive(es, store, store', store'');
  }

  /** Moving the checkpoint over a chunk that reached the sink is safe. */
  lemma SafeAfterSave(es: seq<Entry>, key: Id, store: map<Scope, Projection>, saved: map<Id, nat>,
                      store': map<Scope, Projection>, saved': map<Id, nat>, end: nat)
    requires Safe(es, key, store, saved, store', saved') && OffsetOf(saved', key) <= end <= |es|
    requires Reached(Latest(es[OffsetOf(saved', key)..end]), store')
    ensures Safe(es, key, store, saved, store', saved'[key := end])
  {
    ChunkAdvancesProgress(es, store', OffsetOf(saved', key), end);
  }

  /** `rebuild_projections_resumable`. Whatever call fails, and wherever the process dies, the
      durable state keeps `Progress`; a run that returns success has finished the rebuild. Past
      validation the only errors are those of the ports. */
  method RebuildResumable(rules: Rules, es: seq<Entry>, key: Id, chunk: nat,
                          sink: ProjectionSink, checkpoints: CheckpointStore)
    returns (r: Result<nat>)
    modifies sink, checkpoints
    ensures IsEmpty(key) || chunk == 0 || !StreamOk(rules, es) ==>
              r == Err(Invariant) && sink.store == old(sink.store) && checkpoints.saved == old(checkpoints.saved)
    ensures OffsetOf(old(checkpoints.saved), key) > |es| ==>
              r.Err? && sink.store == old(sink.store) && checkpoints.saved == old(checkpoints.saved)
    ensures Progress(es, old(sink.store), OffsetOf(old(checkpoints.saved), key)) ==>
              Safe(es, key, old(sink.store), old(checkpoints.saved), sink.store, checkpoints.saved)
    ensures !IsEmpty(key) && chunk > 0 && StreamOk(rules, es)
            && OffsetOf(old(checkpoints.saved), key) <= |es| && r.Err? ==>
              r.error == Sink
    ensures Progress(es, old(sink.store), OffsetOf(old(checkpoints.saved), key)) && r.Ok? ==> Finished(es, sink.store)
    ensures r.Ok? ==>
              && OffsetOf(checkpoints.saved, key) == |es|
              && r.value == SaturatingAdd(0, RowsFrom(es, OffsetOf(old(checkpoints.saved), key), chunk))
  {
    hide StreamOk, Latest, Progress, Moved, Reached, Finished, Safe;
    ghost var store, saved := sink.store, checkpoints.saved;
    ghost var sound := Progress(es, store, OffsetOf(saved, key));
    if sound { NothingDone(es, key, store, saved); }
    if IsEmpty(key) || chunk == 0 { return Err(Invariant); }
    var ok := ValidateStream(rules, es);
    if !ok { return Err(Invariant); }
    var loaded := checkpoints.Load(key);
    if loaded.Err? { return Err(loaded.error); }
    var offset := match loaded.value case Some(n) => n case None => 0;
    if offset > |es| { return Err(Invariant); }
    ghost var rows: nat := 0;
    var written: nat := 0;
    while offset < |es|
      invariant OffsetOf(checkpoints.saved, key) == offset <= |es|
      invariant sound ==> Safe(es, key, store, saved, sink.store, checkpoints.saved)
      invariant rows + RowsFrom(es, offset, chunk) == RowsFrom(es, OffsetOf(saved, key), chunk)
      invariant written == SaturatingAdd(0, rows)
      decreases |es| - offset
    {
      ghost var store', saved' := sink.store, checkpoints.saved;
      var checkpoint := RebuildChunk(rules, es, offset, chunk, sink);
      ghost var end := ChunkEnd(es, offset, chunk);
      if sound { SafeAfterChunk(es, key, store, saved, store', saved', sink.store, end); }
      if checkpoint.Err? { return Err(checkpoint.error); }
      if sound { SafeAfterSave(es, key, store, saved, sink.store, saved', end); }
      var ok' := checkpoints.Save(key, checkpoint.value.nextEvent);
      if !ok' { return Err(Sink); }
      rows := rows + checkpoint.value.projectionsWritten;
      written := SaturatingAdd(written, checkpoint.value.projectionsWritten);
      offset := checkpoint.value.nextEvent;
    }
    if sound { SafeAtEnd(rules, es, key, store, saved, sink.store, checkpoints.saved); }
    r := Ok(written);
  }

  lemma SafeAtEnd(rules: Rules, es: seq<Entry>, key: Id, store: map<Scope, Projection>, saved: map<Id, nat>,
                  store': map<Scope, Projection>, saved': map<Id, nat>)
    requires StreamOk(rules, es) && Safe(es, key, store, saved, store', saved') && OffsetOf(saved', key) == |es|
    ensures Finished(es, store')
  {
    ProgressAtEnd(rules, es, store');
  }

  lemma ProgressBound(es: seq<Entry>, store: map<Scope, Projection>, offset: nat)
    requires Progress(es, store, offset)
    ensures offset <= |es|
  {
  }

  lemma NothingDone(es: seq<Entry>, key: Id, store: map<Scope, Projection>, saved: map<Id, nat>)
    requires Progress(es, store, OffsetOf(saved, key))
    ensures Safe(es, key, store, saved, store, saved)
  {
  }

  /** Restarting after every failure, with any chunk size each time, converges: as soon as one
      run succeeds the sink holds exactly the one-shot result, and later runs keep it so. */
  method RestartUntilDone(rules: Rules, es: seq<Entry>, key: Id, chunks: seq<nat>,
                          sink: ProjectionSink, checkpoints: CheckpointStore)
    returns (done: bool)
    requires StreamOk(rules, es) && !IsEmpty(key)
    requires Progress(es, sink.store, OffsetOf(checkpoints.saved, key))
    modifies sink, checkpoints
    ensures done ==> Finished(es, sink.store)
    ensures Progress(es, sink.store, OffsetOf(checkpoints.saved, key)) && OthersKept(es, old(sink.store), sink.store)
  {
    hide StreamOk, Latest, Progress, OthersKept, Finished;
    done := false;
    NothingDone(es, key, sink.store, checkpoints.saved);
    for i := 0 to |chunks|
      invariant Progress(es, sink.store, OffsetOf(checkpoints.saved, key))
      invariant OthersKept(es, old(sink.store), sink.store)
      invariant done ==> Finished(es, sink.store) && OffsetOf(checkpoints.saved, key) >= |es|
    {
      ghost var before := sink.store;
      var r := RebuildResumable(rules, es, key, chunks[i], sink, checkpoints);
      OthersKeptTransitive(es, old(sink.store), before, sink.store);
      ProgressBound(es, sink.store, OffsetOf(checkpoints.saved, key));
      if OffsetOf(checkpoints.saved, key) == |es| { ProgressAtEnd(rules, es, sink.store); }
      done := done || r.Ok?;
    }
  }

  /** A fresh sink and no checkpoint start in progress. */
  lemma FreshStart(es: seq<Entry>, key: Id)
    ensures Progress(es, map[], OffsetOf(map[], key))
  {
  }

  /** From an empty sink, the one-shot rebuild leaves exactly the last projection per scope. */
  lemma OneShotExact(es: seq<Entry>, store: map<Scope, Projection>)
    requires Moved(map[], Latest(es), store) && Reached(Latest(es), store)
    ensures store == Latest(es)
  {
    assert store.Keys == Latest(es).Keys;
  }

  /** And so does any finished chunked rebuild that began with an empty sink. */
  lemma ResumedEqualsOneShot(es: seq<Entry>, store: map<Scope, Projection>)
    requires Finished(es, store) && OthersKept(es, map[], store)
    ensures store == Latest(es)
  {
    assert store.Keys == Latest(es).Keys;
  }

  lemma NothingKept(es: seq<Entry>, store: map<Scope, Projection>)
    ensures OthersKept(es, store, store)
  {
  }
}
