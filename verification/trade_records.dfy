/** What every trade record keeps over every run of the builder
    (`crates/statechronicle-index/src/build.rs`). */
module TradeRecords {
  import opened Ordering
  import opened Domain
  import opened ValueLegs
  import opened TradeIndex

  function SettleId(x: EventRef, tenant: Id): seq<Id> {
    if x.operation == TRADE_SETTLE && x.tenantId == tenant then [x.eventId] else []
  }

  /** The record's settle references of one tenant, in order. */
  function SettleIds(refs: seq<EventRef>, tenant: Id): seq<Id> {
    if refs == [] then [] else SettleIds(refs[..|refs| - 1], tenant) + SettleId(refs[|refs| - 1], tenant)
  }

  function TenantOf(s: Side): Id { s.tenant }

  /** Assets without repetition, one pinned commit each, and the tenant's settles in order. */
  ghost predicate SideOk(s: Side, refs: seq<EventRef>) {
    && Distinct(s.assets) && (forall a :: a in s.assets <==> a in s.commitsByAsset)
    && s.settleEventIds == SettleIds(refs, s.tenant)
  }

  ghost predicate HasSide(sides: seq<Side>, tenant: Id) { exists i :: 0 <= i < |sides| && sides[i].tenant == tenant }

  ghost predicate OneEach(sides: seq<Side>) {
    forall i, j :: 0 <= i < j < |sides| ==> sides[i].tenant != sides[j].tenant
  }

  /** One sound side per tenant that settled. */
  ghost predicate SidesOk(sides: seq<Side>, refs: seq<EventRef>) {
    && OneEach(sides)
    && (forall i :: 0 <= i < |sides| ==> SideOk(sides[i], refs))
    && (forall tenant :: SettleIds(refs, tenant) != [] ==> HasSide(sides, tenant))
  }

  ghost predicate RecordOk(t: Id, r: Record) {
    && r.tradeId == t
    && Sorted(TenantLe, r.sides) && SidesOk(r.sides, r.events)
    && (r.status == Settled ==> r.sides != [])
  }

  // ----- References that are not settles -----

  ghost predicate NoSettles(refs: seq<EventRef>) { forall i :: 0 <= i < |refs| ==> refs[i].operation != TRADE_SETTLE }

  lemma {:induction false} SettleIdsAppend(a: seq<EventRef>, b: seq<EventRef>, tenant: Id)
    requires NoSettles(b)
    ensures SettleIds(a + b, tenant) == SettleIds(a, tenant)
  {
    if b == [] {
      assert a + b == a;
    } else {
      assert (a + b)[..|a + b| - 1] == a + b[..|b| - 1];
      SettleIdsAppend(a, b[..|b| - 1], tenant);
      assert SettleIds(a, tenant) + [] == SettleIds(a, tenant);
    }
  }

  lemma OtherRefsKeep(sides: seq<Side>, refs: seq<EventRef>, more: seq<EventRef>)
    requires SidesOk(sides, refs) && NoSettles(more)
    ensures SidesOk(sides, refs + more)
  {
    forall tenant ensures SettleIds(refs + more, tenant) == SettleIds(refs, tenant) {
      SettleIdsAppend(refs, more, tenant);
    }
  }

  // ----- Settles -----

  lemma SettleIdsStep(refs: seq<EventRef>, x: EventRef, tenant: Id)
    ensures SettleIds(refs + [x], tenant) == SettleIds(refs, tenant) + SettleId(x, tenant)
  {
    assert (refs + [x])[..|refs|] == refs;
  }

  lemma JoinedOk(s: Side, refs: seq<EventRef>, e: Event, ref: CommitRef)
    requires SideOk(s, refs) && s.tenant == e.tenantId && e.operation == TRADE_SETTLE
    ensures SideOk(Joined(s, e, ref), refs + [RefOf(e)])
  {
    SettleIdsStep(refs, RefOf(e), s.tenant);
  }

  lemma NewSideOk(refs: seq<EventRef>, e: Event, ref: CommitRef)
    requires OwnersOk(e) && e.operation == TRADE_SETTLE && SettleIds(refs, e.tenantId) == []
    ensures SideOk(NewSide(e, ref), refs + [RefOf(e)])
  {
    SettleIdsStep(refs, RefOf(e), e.tenantId);
  }

  lemma OtherSideOk(s: Side, refs: seq<EventRef>, e: Event)
    requires SideOk(s, refs) && s.tenant != e.tenantId
    ensures SideOk(s, refs + [RefOf(e)])
  {
    SettleIdsStep(refs, RefOf(e), s.tenant);
    assert SettleIds(refs, s.tenant) + [] == SettleIds(refs, s.tenant);
  }

  lemma UpsertKeeps(sides: seq<Side>, refs: seq<EventRef>, e: Event, ref: CommitRef)
    requires SidesOk(sides, refs) && OwnersOk(e) && e.operation == TRADE_SETTLE
    ensures SidesOk(UpsertSide(sides, e, ref), refs + [RefOf(e)])
  {
    var next, i, refs' := UpsertSide(sides, e, ref), SideOf(sides, e.tenantId), refs + [RefOf(e)];
    hide SettleIds, Joined, NewSide, OwnersOk, SideOk;
    UpsertTenants(sides, e, ref);
    forall j | 0 <= j < |next| ensures SideOk(next[j], refs') {
      if j == i < |sides| {
        JoinedOk(sides[i], refs, e, ref);
      } else if j == i {
        assert !HasSide(sides, e.tenantId);
        NewSideOk(refs, e, ref);
      } else {
        OtherSideOk(sides[j], refs, e);
      }
    }
    forall tenant | SettleIds(refs', tenant) != [] ensures HasSide(next, tenant) {
      SettleIdsStep(refs, RefOf(e), tenant);
      if tenant == e.tenantId {
        assert next[i].tenant == tenant;
      } else {
        var k :| 0 <= k < |sides| && sides[k].tenant == tenant;
        assert next[k].tenant == tenant;
      }
    }
  }

  lemma UpsertTenants(sides: seq<Side>, e: Event, ref: CommitRef)
    requires OwnersOk(e) && OneEach(sides)
    ensures var next, i := UpsertSide(sides, e, ref), SideOf(sides, e.tenantId);
            && OneEach(next) && i < |next| && next[i].tenant == e.tenantId
            && forall k :: 0 <= k < |sides| && k != i ==> next[k] == sides[k]
  {
    var next := UpsertSide(sides, e, ref);
    var i := SideOf(sides, e.tenantId);
    assert forall k :: 0 <= k < |sides| ==> next[k].tenant == sides[k].tenant;
  }

  lemma {:induction false} SettlesKeep(sides: seq<Side>, refs: seq<EventRef>, settles: seq<Event>, ref: CommitRef)
    requires SidesOk(sides, refs)
    requires forall i :: 0 <= i < |settles| ==> OwnersOk(settles[i]) && settles[i].operation == TRADE_SETTLE
    ensures SidesOk(SidesAfter(sides, settles, ref), refs + Map(RefOf, settles))
    ensures |SidesAfter(sides, settles, ref)| >= |sides| && (settles != [] ==> SidesAfter(sides, settles, ref) != [])
  {
    hide OwnersOk, UpsertSide;
    if settles == [] {
      assert refs + Map(RefOf, settles) == refs;
    } else {
      var front, e := settles[..|settles| - 1], settles[|settles| - 1];
      SettlesKeep(sides, refs, front, ref);
      UpsertKeeps(SidesAfter(sides, front, ref), refs + Map(RefOf, front), e, ref);
      assert refs + Map(RefOf, front) + [RefOf(e)] == refs + Map(RefOf, settles);
      UpsertGrows(SidesAfter(sides, front, ref), e, ref);
    }
  }

  lemma UpsertGrows(sides: seq<Side>, e: Event, ref: CommitRef)
    requires OwnersOk(e)
    ensures |UpsertSide(sides, e, ref)| >= |sides| && UpsertSide(sides, e, ref) != []
  {
  }

  // ----- Sorting -----

  lemma OneEachIsDistinct(sides: seq<Side>)
    ensures OneEach(sides) <==> Distinct(Map(TenantOf, sides))
  {
    forall i | 0 <= i < |sides| ensures Map(TenantOf, sides)[i] == sides[i].tenant { MapAt(TenantOf, sides, i); }
  }

  lemma OneEachPermutes(a: seq<Side>, b: seq<Side>)
    requires OneEach(a) && multiset(a) == multiset(b)
    ensures OneEach(b)
  {
    hide OneEach, Distinct, Map;
    OneEachIsDistinct(a);
    OneEachIsDistinct(b);
    MapPermutes(TenantOf, a, b);
    DistinctPermutes(Map(TenantOf, a), Map(TenantOf, b));
  }

  lemma SortKeeps(sides: seq<Side>, refs: seq<EventRef>)
    requires SidesOk(sides, refs)
    ensures SidesOk(SortBy(TenantLe, sides), refs) && Sorted(TenantLe, SortBy(TenantLe, sides))
    ensures |SortBy(TenantLe, sides)| == |sides|
  {
    TenantLeIsTotalPreorder();
    SortIsStable(TenantLe, sides);
    var sorted := SortBy(TenantLe, sides);
    hide SortBy, TenantLe, SideOk, SettleIds;
    PermutationLength(sorted, sides);
    OneEachPermutes(sides, sorted);
    forall i | 0 <= i < |sorted| ensures SideOk(sorted[i], refs) {
      var j := PermutationIndex(sorted, sides, i);
    }
    forall tenant | SettleIds(refs, tenant) != [] ensures HasSide(sorted, tenant) {
      var i :| 0 <= i < |sides| && sides[i].tenant == tenant;
      var j := PermutationIndex(sides, sorted, i);
    }
  }

  // ----- Records and indexes -----

  lemma NotSettleRefs(events: seq<Event>, op: Id)
    requires op != TRADE_SETTLE
    ensures NoSettles(Map(RefOf, OfOp(events, op)))
  {
    var found := OfOp(events, op);
    forall i | 0 <= i < |found| ensures Map(RefOf, found)[i].operation != TRADE_SETTLE { MapAt(RefOf, found, i); }
  }

  lemma WithEventsKeeps(r: Record, events: seq<Event>, ref: CommitRef)
    requires SettlesOk(events) && SidesOk(r.sides, r.events) && (r.status == Settled ==> r.sides != [])
    ensures var r' := WithEvents(r, events, ref);
            r'.tradeId == r.tradeId && SidesOk(r'.sides, r'.events) && (r'.status == Settled ==> r'.sides != [])
  {
    OperationsDiffer();
    var locks, settles, unlocks := OfOp(events, TRADE_LOCK), OfOp(events, TRADE_SETTLE), OfOp(events, TRADE_UNLOCK);
    NotSettleRefs(events, TRADE_LOCK);
    NotSettleRefs(events, TRADE_UNLOCK);
    hide SidesOk, NoSettles, OwnersOk, OfOp, SidesAfter, Map;
    OtherRefsKeep(r.sides, r.events, Map(RefOf, locks));
    var locked := Marked(r, locks, Open);
    SettlesKeep(locked.sides, locked.events, settles, ref);
    var settled := SettledBy(locked, settles, ref);
    OtherRefsKeep(settled.sides, settled.events, Map(RefOf, unlocks));
  }

  lemma AfterEventsKeeps(r: Record, b: Batch, ref: CommitRef, t: Id)
    requires RecordOk(t, r)
    ensures RecordOk(t, AfterEvents(r, b, ref, t))
  {
    var events := TradeEvents(b.events, t);
    if t in EventTrades(b.events) && SettlesOk(events) {
      hide SidesOk, WithEvents, SettlesOk, SortBy;
      WithEventsKeeps(r, events, ref);
      var r' := WithEvents(r, events, ref);
      SortKeeps(r'.sides, r'.events);
    }
  }

  lemma {:induction false} WithLegsKeeps(r: Record, legs: seq<Attributed>, t: Id)
    requires RecordOk(t, r)
    ensures RecordOk(t, WithLegs(r, legs, t))
  {
    if legs != [] {
      WithLegsKeeps(r, legs[..|legs| - 1], t);
      OperationsDiffer();
      var r', leg := WithLegs(r, legs[..|legs| - 1], t), legs[|legs| - 1].leg;
      assert NoSettles(LegRefs(leg));
      hide SidesOk, NoSettles, LegRefs;
      OtherRefsKeep(r'.sides, r'.events, LegRefs(leg));
    }
  }

  lemma FreshOk(t: Id)
    ensures RecordOk(t, FreshRecord(t))
  {
  }

  ghost predicate IndexOk(index: Index) { forall t :: t in index ==> RecordOk(t, index[t]) }

  /** One accepted batch keeps every record sound. */
  lemma AppliedKeeps(index: Index, b: Batch, effect: Effect)
    requires IndexOk(index)
    ensures IndexOk(AppliedWith(index, b, effect))
  {
    hide RecordOk, AfterEvents, WithLegs, Touched;
    var next := AppliedWith(index, b, effect);
    forall t | t in next ensures RecordOk(t, next[t]) {
      FreshOk(t);
      AfterEventsKeeps(RecordIn(index, t), b, effect.ref, t);
      WithLegsKeeps(AfterEvents(RecordIn(index, t), b, effect.ref, t), effect.legs, t);
    }
  }

  /** Sides are in strictly increasing tenant order. */
  lemma SidesAreStrict(t: Id, r: Record, i: nat, j: nat)
    requires RecordOk(t, r) && i < j < |r.sides|
    ensures IdLe(r.sides[i].tenant, r.sides[j].tenant) && r.sides[i].tenant != r.sides[j].tenant
  {
    assert TenantLe(r.sides[i], r.sides[j]);
  }

  // ----- What a batch does to a record -----

  ghost predicate Has(events: seq<Event>, op: Id) { exists i :: 0 <= i < |events| && events[i].operation == op }

  /** The last kind of trade event in canonical order decides the status: an unlock cancels, else
      a settle settles, else a lock reopens. */
  lemma StatusRule(r: Record, b: Batch, ref: CommitRef, t: Id)
    requires t in EventTrades(b.events) && SettlesOk(TradeEvents(b.events, t))
    ensures var events := TradeEvents(b.events, t);
            AfterEvents(r, b, ref, t).status ==
            if Has(events, TRADE_UNLOCK) then Cancelled else if Has(events, TRADE_SETTLE) then Settled else Open
  {
    var events := TradeEvents(b.events, t);
    NotInTrade(b.events, t);
    TradeEventsAreTrade(b.events, t);
    HasIsOfOp(events, TRADE_UNLOCK);
    HasIsOfOp(events, TRADE_SETTLE);
    HasIsOfOp(events, TRADE_LOCK);
    assert events[0] in events;
    hide OfOp, SidesAfter, TradeEvents, EventTrades, SortBy;
  }

  lemma HasIsOfOp(events: seq<Event>, op: Id)
    ensures Has(events, op) <==> OfOp(events, op) != []
  {
    if Has(events, op) {
      var i :| 0 <= i < |events| && events[i].operation == op;
      assert events[i] in OfOp(events, op);
    }
    if OfOp(events, op) != [] {
      var e := OfOp(events, op)[0];
      var i :| 0 <= i < |events| && events[i] == e;
    }
  }

  lemma {:induction false} TradeEventsAreTrade(events: seq<Event>, t: Id)
    ensures forall e :: e in TradeEvents(events, t) ==>
                        e.operation == TRADE_LOCK || e.operation == TRADE_SETTLE || e.operation == TRADE_UNLOCK
  {
    if events != [] { TradeEventsAreTrade(events[..|events| - 1], t); }
  }

  /** A record's references and legs are only ever added to. */
  lemma HistoryGrows(r: Record, b: Batch, effect: Effect, t: Id)
    ensures r.events <= RecordAfter(r, b, effect, t).events
    ensures r.valueLegs <= RecordAfter(r, b, effect, t).valueLegs
  {
    LegsGrow(AfterEvents(r, b, effect.ref, t), effect.legs, t);
    hide WithLegs, OfOp, SidesAfter, TradeEvents, EventTrades, SettlesOk, SortBy, Map;
  }

  lemma {:induction false} LegsGrow(r: Record, legs: seq<Attributed>, t: Id)
    ensures r.events <= WithLegs(r, legs, t).events && r.valueLegs <= WithLegs(r, legs, t).valueLegs
  {
    if legs != [] { LegsGrow(r, legs[..|legs| - 1], t); }
  }

  /** Some side of the event's tenant pins the event's asset to `ref`. */
  ghost predicate Pinned(sides: seq<Side>, e: Event, ref: CommitRef) {
    exists k :: 0 <= k < |sides| && sides[k].tenant == e.tenantId
                && e.resourceId in sides[k].commitsByAsset && sides[k].commitsByAsset[e.resourceId] == ref
  }

  lemma UpsertPins(sides: seq<Side>, e: Event, ref: CommitRef)
    requires OwnersOk(e)
    ensures Pinned(UpsertSide(sides, e, ref), e, ref)
    ensures forall e' :: Pinned(sides, e', ref) ==> Pinned(UpsertSide(sides, e, ref), e', ref)
  {
    var next, i := UpsertSide(sides, e, ref), SideOf(sides, e.tenantId);
    assert next[i].tenant == e.tenantId && next[i].commitsByAsset[e.resourceId] == ref;
    forall e' | Pinned(sides, e', ref) ensures Pinned(next, e', ref) {
      var k :| 0 <= k < |sides| && sides[k].tenant == e'.tenantId
               && e'.resourceId in sides[k].commitsByAsset && sides[k].commitsByAsset[e'.resourceId] == ref;
      assert next[k].tenant == e'.tenantId && next[k].commitsByAsset[e'.resourceId] == ref;
    }
  }

  lemma {:induction false} SettlesPin(sides: seq<Side>, settles: seq<Event>, ref: CommitRef, e: Event)
    requires e in settles && forall i :: 0 <= i < |settles| ==> OwnersOk(settles[i])
    ensures Pinned(SidesAfter(sides, settles, ref), e, ref)
  {
    hide OwnersOk, UpsertSide, Pinned;
    var front, last := settles[..|settles| - 1], settles[|settles| - 1];
    UpsertPins(SidesAfter(sides, front, ref), last, ref);
    if e in front { SettlesPin(sides, front, ref, e); }
  }

  /** Every asset settled in a batch is pinned to that batch's commit on its tenant's side, even
      when an earlier commit settled other assets of the side. */
  lemma SettledAssetsArePinned(r: Record, b: Batch, ref: CommitRef, t: Id, e: Event)
    requires t in EventTrades(b.events) && SettlesOk(TradeEvents(b.events, t))
    requires e in TradeEvents(b.events, t) && e.operation == TRADE_SETTLE
    ensures Pinned(AfterEvents(r, b, ref, t).sides, e, ref)
  {
    var events := TradeEvents(b.events, t);
    var settles := OfOp(events, TRADE_SETTLE);
    var locked := Marked(r, OfOp(events, TRADE_LOCK), Open);
    SettlesPin(locked.sides, settles, ref, e);
    var sides := SidesAfter(locked.sides, settles, ref);
    TenantLeIsTotalPreorder();
    SortIsStable(TenantLe, sides);
    hide OfOp, SidesAfter, TradeEvents, EventTrades, SortBy, TenantLe, SettlesOk;
    var k :| 0 <= k < |sides| && sides[k].tenant == e.tenantId
             && e.resourceId in sides[k].commitsByAsset && sides[k].commitsByAsset[e.resourceId] == ref;
    var j := PermutationIndex(sides, SortBy(TenantLe, sides), k);
  }
}
