/** Incremental ingestion and rebuild of the trade index
    (`crates/statechronicle-index/src/service.rs`). */
module TradeService {
  import opened Ordering
  import opened Options
  import opened Domain
  import opened ValueLegs
  import opened TradeIndex
  import opened TradeRecords
  import opened WorkSets

  // ----- A batch stays within its trade ids -----

  lemma {:induction false} LegTradesOf(legs: seq<Attributed>, t: Id)
    ensures t in LegTrades(legs) <==> exists i :: 0 <= i < |legs| && legs[i].tradeId == t
  {
    if legs != [] { LegTradesOf(legs[..|legs| - 1], t); }
  }

  lemma {:induction false} ZippedTrades(ds: seq<Declared>, ps: seq<Pair>, ref: CommitRef, i: nat)
    requires i < |Zipped(ds, ps, ref)|
    ensures exists d :: d in ds && d.tradeId == Zipped(ds, ps, ref)[i].tradeId
  {
    hide PairKey;
    assert ds[0] in ds;
    var n := if ds[0].key == PairKey(ps[0]) then 1 else 0;
    if i >= n {
      ZippedTrades(ds[1..], ps[1..], ref, i - n);
      var d :| d in ds[1..] && d.tradeId == Zipped(ds[1..], ps[1..], ref)[i - n].tradeId;
      assert d in ds;
    }
  }

  lemma {:induction false} DeclaredTrades(intents: seq<Intent>, d: Declared)
    requires DeclarationsOf(intents).Fine? && d in DeclarationsOf(intents).value
    ensures d.tradeId in IntentTrades(intents)
  {
    hide DeclarationOf;
    var front, last := intents[..|intents| - 1], intents[|intents| - 1];
    if d in DeclarationsOf(front).value { DeclaredTrades(front, d); } else { DeclaredTrade(last); }
  }

  lemma DeclaredTrade(i: Intent)
    requires DeclarationOf(i).Fine?
    ensures InputStr(i.tradeId) == Some(DeclarationOf(i).value.tradeId)
  {
  }

  lemma LegsWithin(intents: seq<Intent>, ps: seq<Pair>, ref: CommitRef, t: Id)
    requires DeclarationsOf(intents).Fine? && t in LegTrades(MatchedLegs(DeclarationsOf(intents).value, ps, ref))
    ensures t in IntentTrades(intents)
  {
    var ds := DeclarationsOf(intents).value;
    LegOrders();
    SortIsStable(DeclaredLe, ds);
    hide DeclarationsOf, SortBy, Zipped, DeclaredLe, PairLe;
    var sd, sp := SortBy(DeclaredLe, ds), SortBy(PairLe, ps);
    var legs := Zipped(sd, sp, ref);
    LegTradesOf(legs, t);
    var i :| 0 <= i < |legs| && legs[i].tradeId == t;
    ZippedTrades(sd, sp, ref, i);
    var d :| d in sd && d.tradeId == t;
    assert d in multiset(sd);
    DeclaredTrades(intents, d);
  }

  /** An accepted batch touches only the records `batch_trade_ids` names. */
  lemma TouchedWithin(b: Batch)
    requires BatchOutcome(b).Fine?
    ensures Touched(b, BatchOutcome(b).value) <= TradeIds(b)
  {
    var effect, pairs := BatchOutcome(b).value, PairsOf(b.events).value;
    hide PairsOf, TradeIdsOk, SettlesOk, DeclarationsOf, MatchedLegs, LegTrades, EventTrades, IntentTrades;
    forall t | t in LegTrades(effect.legs) ensures t in IntentTrades(b.intents) {
      LegsWithin(b.intents, pairs, effect.ref, t);
    }
  }

  /** The records of an index that a batch may read. */
  function Seeded(index: Index, ids: set<Id>): Index { map t | t in index.Keys * ids :: index[t] }

  /** What `apply` does to the named records depends only on them, and it does nothing to the
      others. */
  lemma AppliedFrame(x: Index, y: Index, b: Batch)
    requires BatchOutcome(b).Fine? && Seeded(x, TradeIds(b)) == Seeded(y, TradeIds(b))
    ensures Seeded(Applied(x, b), TradeIds(b)) == Seeded(Applied(y, b), TradeIds(b))
    ensures forall t :: t !in TradeIds(b) ==> (t in Applied(x, b) <==> t in x) && (t in x ==> Applied(x, b)[t] == x[t])
  {
    TouchedWithin(b);
    var effect := BatchOutcome(b).value;
    hide BatchOutcome, TradeIds, RecordAfter, Touched;
    FrameWith(x, y, b, effect);
  }

  lemma FrameWith(x: Index, y: Index, b: Batch, effect: Effect)
    requires Touched(b, effect) <= TradeIds(b) && Seeded(x, TradeIds(b)) == Seeded(y, TradeIds(b))
    ensures Seeded(AppliedWith(x, b, effect), TradeIds(b)) == Seeded(AppliedWith(y, b, effect), TradeIds(b))
    ensures forall t :: t !in TradeIds(b) ==>
              && (t in AppliedWith(x, b, effect) <==> t in x)
              && (t in x ==> AppliedWith(x, b, effect)[t] == x[t])
  {
    hide TradeIds, RecordAfter, Touched;
    var ids := TradeIds(b);
    forall t | t in ids ensures (t in x <==> t in y) && RecordIn(x, t) == RecordIn(y, t) {
      assert t in Seeded(x, ids) <==> t in Seeded(y, ids);
      if t in Seeded(x, ids) { assert Seeded(x, ids)[t] == Seeded(y, ids)[t]; }
    }
  }

  // ----- Ingestion -----

  /** Seed, apply, put back. */
  ghost function Ingested(index: Index, b: Batch): Index {
    match BatchOutcome(b)
    case Bad(_) => index
    case Fine(effect) => index + AppliedWith(Seeded(index, TradeIds(b)), b, effect)
  }

  lemma SeedingIsEnough(index: Index, b: Batch, effect: Effect)
    requires Touched(b, effect) <= TradeIds(b)
    ensures index + AppliedWith(Seeded(index, TradeIds(b)), b, effect) == AppliedWith(index, b, effect)
  {
    hide TradeIds, RecordAfter, Touched;
    var seed := Seeded(index, TradeIds(b));
    var part, whole := AppliedWith(seed, b, effect), AppliedWith(index, b, effect);
    assert (index + part).Keys == whole.Keys;
    forall t | t in whole ensures (index + part)[t] == whole[t] {
      if t in TradeIds(b) { assert RecordIn(seed, t) == RecordIn(index, t); }
    }
  }

  /** For every index, ingesting an accepted batch through its seed is applying it to the whole
      index. */
  lemma IngestIsApply(index: Index, b: Batch)
    ensures Ingested(index, b) == if BatchOutcome(b).Fine? then Applied(index, b) else index
  {
    if BatchOutcome(b).Fine? {
      TouchedWithin(b);
      var effect := BatchOutcome(b).value;
      hide BatchOutcome, TradeIds, RecordAfter, Touched, AppliedWith, Seeded;
      SeedingIsEnough(index, b, effect);
    }
  }

  ghost function IngestedAll(index: Index, batches: seq<Batch>): Index {
    if batches == [] then index else Ingested(IngestedAll(index, batches[..|batches| - 1]), batches[|batches| - 1])
  }

  /** The batches the builder accepts. */
  function AcceptedOnly(batches: seq<Batch>): (r: seq<Batch>)
    ensures forall i :: 0 <= i < |r| ==> BatchOutcome(r[i]).Fine?
  {
    if batches == [] then []
    else
      var last := batches[|batches| - 1];
      AcceptedOnly(batches[..|batches| - 1]) + if BatchOutcome(last).Fine? then [last] else []
  }

  /** Replaying accepted batches into an empty index. */
  function Replayed(batches: seq<Batch>): Index
    requires forall i :: 0 <= i < |batches| ==> BatchOutcome(batches[i]).Fine?
  {
    if batches == [] then map[] else Applied(Replayed(batches[..|batches| - 1]), batches[|batches| - 1])
  }

  /** Incremental ingestion equals rebuild: over every sequence of batches, the index grown one
      seeded batch at a time is the replay of the accepted ones from nothing. */
  lemma {:induction false} IncrementalIsRebuild(batches: seq<Batch>)
    ensures IngestedAll(map[], batches) == Replayed(AcceptedOnly(batches))
  {
    hide BatchOutcome, Applied, Ingested;
    if batches != [] {
      var front, last := batches[..|batches| - 1], batches[|batches| - 1];
      IncrementalIsRebuild(front);
      IngestIsApply(IngestedAll(map[], front), last);
      var accepted := AcceptedOnly(front);
      if BatchOutcome(last).Fine? {
        assert (accepted + [last])[..|accepted|] == accepted;
      } else {
        assert accepted + [] == accepted;
      }
    }
  }

  /** Every record of every index that replay can produce is sound. */
  lemma {:induction false} EveryReplayIsSound(batches: seq<Batch>)
    requires forall i :: 0 <= i < |batches| ==> BatchOutcome(batches[i]).Fine?
    ensures IndexOk(Replayed(batches))
  {
    hide BatchOutcome, IndexOk, AppliedWith;
    if batches == [] {
      EmptyOk();
    } else {
      EveryReplayIsSound(batches[..|batches| - 1]);
      var front, last := batches[..|batches| - 1], batches[|batches| - 1];
      AppliedKeeps(Replayed(front), last, BatchOutcome(last).value);
    }
  }

  lemma EmptyOk()
    ensures IndexOk(map[])
  {
  }

  // ----- The service -----

  datatype ServiceResult = Done | Rejected(error: IndexError) | Unavailable

  /** Records are stored under their own ids. */
  ghost predicate KeysOk(index: Index) { forall t :: t in index ==> index[t].tradeId == t }

  lemma {:induction false} LegsKeepId(r: Record, legs: seq<Attributed>, t: Id)
    ensures WithLegs(r, legs, t).tradeId == r.tradeId
  {
    if legs != [] { LegsKeepId(r, legs[..|legs| - 1], t); }
  }

  lemma AppliedKeysOk(index: Index, b: Batch, effect: Effect)
    requires KeysOk(index)
    ensures KeysOk(AppliedWith(index, b, effect))
  {
    forall t | t in index.Keys + Touched(b, effect) ensures AppliedWith(index, b, effect)[t].tradeId == t {
      LegsKeepId(AfterEvents(RecordIn(index, t), b, effect.ref, t), effect.legs, t);
      hide WithLegs, Touched, TradeEvents, SettlesOk;
    }
  }

  /** Some of the new records have been put, and nothing else has changed. */
  ghost predicate PartlyPut(index: Index, state: Index, put: set<Id>, now: Index) {
    put <= state.Keys && now == index + Seeded(state, put)
  }

  /** An accepted batch was ingested in part. */
  ghost predicate CutShort(index: Index, b: Batch, now: Index) {
    && BatchOutcome(b).Fine?
    && exists put ::
         PartlyPut(index, AppliedWith(Seeded(index, TradeIds(b)), b, BatchOutcome(b).value), put, now)
  }

  lemma PutOne(index: Index, state: Index, put: set<Id>, t: Id)
    requires t in state && put <= state.Keys
    ensures (index + Seeded(state, put))[t := state[t]] == index + Seeded(state, put + {t})
  {
  }

  lemma PutNone(index: Index, state: Index)
    ensures index + Seeded(state, {}) == index && index + Seeded(state, state.Keys) == index + state
  {
    assert Seeded(state, state.Keys) == state;
  }

  class Service {
    var index: Index

    constructor ()
      ensures index == map[]
    {
      index := map[];
    }

    /** The port may be unreachable at every call; a failed put may or may not have written. */
    method GetTrade(t: Id) returns (ok: bool, found: Option<Record>)
      ensures ok ==> found == if t in index then Some(index[t]) else None
    {
      ok := *;
      found := if t in index then Some(index[t]) else None;
    }

    method PutTrade(r: Record) returns (ok: bool)
      modifies this
      ensures ok ==> index == old(index)[r.tradeId := r]
      ensures !ok ==> index == old(index) || index == old(index)[r.tradeId := r]
    {
      ok := *;
      var written: bool := *;
      if ok || written { index := index[r.tradeId := r]; }
    }

    method Seed(ids: seq<Id>) returns (ok: bool, state: Index)
      ensures ok ==> state == Seeded(index, set t | t in ids)
    {
      state := map[];
      for i := 0 to |ids|
        invariant state == Seeded(index, set t | t in ids[..i])
      {
        var got, found := GetTrade(ids[i]);
        if !got { return false, map[]; }
        assert ids[..i + 1] == ids[..i] + [ids[i]];
        if found.Some? { state := state[ids[i] := found.value]; }
      }
      assert ids[..|ids|] == ids;
      ok := true;
    }

    /** Puts every record of a state. */
    method PutAll(state: Index) returns (ok: bool)
      requires KeysOk(state)
      modifies this
      ensures ok ==> index == old(index) + state
      ensures !ok ==> exists put :: PartlyPut(old(index), state, put, index)
    {
      var todo := state.Keys;
      ghost var put: set<Id> := {};
      AllLeft(todo);
      PutNone(index, state);
      hide Split, Seeded;
      while todo != {}
        invariant Split(state.Keys, put, todo)
        invariant put <= state.Keys && index == old(index) + Seeded(state, put)
        decreases todo
      {
        var t :| t in todo;
        TakeOne(state.Keys, put, todo, t);
        PutOne(old(index), state, put, t);
        ok := PutTrade(state[t]);
        if !ok {
          assert PartlyPut(old(index), state, put, index) || PartlyPut(old(index), state, put + {t}, index);
          return;
        }
        todo, put := todo - {t}, put + {t};
      }
      NoneLeft(state.Keys, put);
      PutNone(old(index), state);
      ok := true;
    }

    /** `ingest_batch`: on success the index is the one `apply` describes, and a rejected batch
        puts nothing. */
    method IngestBatch(b: Batch) returns (r: ServiceResult)
      requires KeysOk(index)
      modifies this
      ensures KeysOk(index)
      ensures r.Done? ==> BatchOutcome(b).Fine? && index == Applied(old(index), b)
      ensures r.Rejected? ==> BatchOutcome(b) == Bad(r.error) && index == old(index)
      ensures r.Unavailable? ==> index == old(index) || CutShort(old(index), b, index)
    {
      var ids := BatchTradeIds(b);
      var ok, state := Seed(ids);
      if !ok { return Unavailable; }
      assert (set t | t in ids) == TradeIds(b);
      SeededKeysOk(index, TradeIds(b));
      hide BatchOutcome, TradeIds, AppliedWith, Seeded;
      IngestIsApply(index, b);
      var applied := Apply(state, b);
      if applied.Bad? { return Rejected(applied.error); }
      AppliedKeysOk(state, b, BatchOutcome(b).value);
      ok := PutAll(applied.value);
      ghost var was := old(index);
      if ok { MergeKeysOk(was, applied.value); } else { PartKeysOk(was, applied.value, index); }
      r := if ok then Done else Unavailable;
    }

    /** `rebuild`: the replay of the batches, put over what was there. */
    method Rebuild(batches: seq<Batch>) returns (r: ServiceResult)
      requires KeysOk(index)
      modifies this
      ensures r.Done? ==>
                && (forall i :: 0 <= i < |batches| ==> BatchOutcome(batches[i]).Fine?)
                && index == old(index) + Replayed(batches)
      ensures KeysOk(index)
      ensures r.Rejected? ==>
                && index == old(index)
                && exists i :: 0 <= i < |batches| && BatchOutcome(batches[i]) == Bad(r.error)
      ensures r.Unavailable? ==>
                && (forall i :: 0 <= i < |batches| ==> BatchOutcome(batches[i]).Fine?)
                && exists put :: PartlyPut(old(index), Replayed(batches), put, index)
    {
      hide BatchOutcome, AppliedWith, KeysOk, PartlyPut;
      var state: Index := map[];
      EmptyKeysOk();
      for i := 0 to |batches|
        invariant index == old(index) && KeysOk(state)
        invariant (forall j :: 0 <= j < i ==> BatchOutcome(batches[j]).Fine?) && state == Replayed(batches[..i])
      {
        var applied := Apply(state, batches[i]);
        if applied.Bad? { return Rejected(applied.error); }
        AppliedKeysOk(state, batches[i], BatchOutcome(batches[i]).value);
        assert batches[..i + 1][..i] == batches[..i];
        state := applied.value;
      }
      assert batches[..|batches|] == batches;
      var ok := PutAll(state);
      if ok { MergeKeysOk(old(index), state); } else { PartKeysOk(old(index), state, index); }
      r := if ok then Done else Unavailable;
    }
  }

  lemma EmptyKeysOk()
    ensures KeysOk(map[])
  {
  }

  lemma SeededKeysOk(index: Index, ids: set<Id>)
    requires KeysOk(index)
    ensures KeysOk(Seeded(index, ids))
  {
  }

  lemma MergeKeysOk(index: Index, state: Index)
    requires KeysOk(index) && KeysOk(state)
    ensures KeysOk(index + state)
  {
  }

  lemma PartKeysOk(index: Index, state: Index, now: Index)
    requires KeysOk(index) && KeysOk(state) && exists put :: PartlyPut(index, state, put, now)
    ensures KeysOk(now)
  {
    var put :| PartlyPut(index, state, put, now);
    SeededKeysOk(state, put);
    MergeKeysOk(index, Seeded(state, put));
  }

  /** A rebuild repairs an ingestion that was cut short: over the history with its batch it ends
      where a clean rebuild does, and so it does after rebuilds that were themselves cut short. */
  lemma RebuildRepairs(batches: seq<Batch>, b: Batch, now: Index)
    requires forall i :: 0 <= i < |batches| ==> BatchOutcome(batches[i]).Fine?
    requires CutShort(Replayed(batches), b, now)
    ensures forall i :: 0 <= i < |batches + [b]| ==> BatchOutcome((batches + [b])[i]).Fine?
    ensures var whole := Replayed(batches + [b]);
            && now + whole == whole
            && (forall again, later :: PartlyPut(now, whole, again, later) ==> later + whole == whole)
  {
    hide BatchOutcome, Applied, AppliedWith, TradeIds, PartlyPut;
    assert (batches + [b])[..|batches|] == batches;
    assert Replayed(batches + [b]) == Applied(Replayed(batches), b);
    hide Replayed;
    CutShortWithin(Replayed(batches), b, now);
    PutOverIsAll(now, Replayed(batches + [b]));
  }

  lemma CutShortWithin(index: Index, b: Batch, now: Index)
    requires CutShort(index, b, now)
    ensures now.Keys <= Applied(index, b).Keys
  {
    IngestIsApply(index, b);
    hide BatchOutcome, Applied, AppliedWith, TradeIds;
  }

  /** What is put over a part of itself is all there is, even if it was cut short before. */
  lemma PutOverIsAll(index: Index, state: Index)
    requires index.Keys <= state.Keys
    ensures index + state == state
    ensures forall put, now :: PartlyPut(index, state, put, now) ==> now + state == state
  {
    assert (index + state).Keys == state.Keys;
    forall put, now | PartlyPut(index, state, put, now) ensures now + state == state {
      assert (now + state).Keys == state.Keys;
    }
  }

  /** A rebuild into an empty index and incremental ingestion from an empty index agree. */
  lemma RebuildAgrees(batches: seq<Batch>)
    requires forall i :: 0 <= i < |batches| ==> BatchOutcome(batches[i]).Fine?
    ensures IngestedAll(map[], batches) == Replayed(batches)
  {
    hide BatchOutcome, Replayed, IngestedAll, AcceptedOnly;
    IncrementalIsRebuild(batches);
    AllAccepted(batches);
  }

  lemma {:induction false} AllAccepted(batches: seq<Batch>)
    requires forall i :: 0 <= i < |batches| ==> BatchOutcome(batches[i]).Fine?
    ensures AcceptedOnly(batches) == batches
  {
    hide BatchOutcome;
    if batches != [] { AllAccepted(batches[..|batches| - 1]); }
  }
}
