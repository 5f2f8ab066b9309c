/** The trade index builder (`crates/statechronicle-index/src/build.rs`, records from
    `crates/statechronicle-domain/src/trade.rs`). */
module TradeIndex {
  import opened Bytes
  import opened Ordering
  import opened Options
  import opened Domain
  import opened ValueLegs
  import opened WorkSets

  // ----- Records -----

  datatype TradeStatus = Open | Settled | Cancelled

  datatype EventRef = EventRef(eventId: Id, tenantId: Id, operation: Id)

  datatype Side = Side(
    tenant: Id,
    assets: seq<Id>,
    fromOwner: Id,
    toOwner: Id,
    commit: CommitRef,
    commitsByAsset: map<Id, CommitRef>,
    settleEventIds: seq<Id>)

  datatype Record = Record(
    tradeId: Id,
    status: TradeStatus,
    sides: seq<Side>,
    valueLegs: seq<ValueLeg>,
    events: seq<EventRef>)

  function FreshRecord(t: Id): Record { Record(t, Open, [], [], []) }

  datatype Commit = Commit(
    tenantScope: bool,
    tenantId: Option<Id>,
    commitId: Id,
    sequence: nat,
    nextStateRoot: Digest,
    signature: Id)

  datatype Batch = Batch(events: seq<Event>, intents: seq<Intent>, commit: Commit)

  /** `commit_ref_from_signed`. */
  function CommitRefOf(c: Commit): Outcome<CommitRef> {
    if !c.tenantScope || c.tenantId.None? then Bad(NonTenantCommit)
    else Fine(CommitRef(c.commitId, c.sequence, c.nextStateRoot, c.signature))
  }

  // ----- Trade ids -----

  /** `trade.lock`, `trade.settle`, `trade.unlock`. */
  const TRADE_LOCK: Id := Id([116, 114, 97, 100, 101, 46, 108, 111, 99, 107])
  const TRADE_SETTLE: Id := Id([116, 114, 97, 100, 101, 46, 115, 101, 116, 116, 108, 101])
  const TRADE_UNLOCK: Id := Id([116, 114, 97, 100, 101, 46, 117, 110, 108, 111, 99, 107])

  lemma OperationsDiffer()
    ensures TRADE_LOCK != TRADE_SETTLE && TRADE_UNLOCK != TRADE_SETTLE && BALANCE_TRANSFER != TRADE_SETTLE
    ensures TRADE_LOCK != TRADE_UNLOCK
  {
    assert |TRADE_LOCK.utf8| == 10 && |TRADE_SETTLE.utf8| == |TRADE_UNLOCK.utf8| == 12 && |BALANCE_TRANSFER.utf8| == 16;
    assert TRADE_SETTLE.utf8[6] == 115 && TRADE_UNLOCK.utf8[6] == 117;
  }

  function TradeIdIn(s: ResourceState): Option<Id> { if s.UniqueAsset? then NonEmpty(s.tradeId) else None }

  /** `trade_id_of`. */
  function TradeIdOf(e: Event): Outcome<Option<Id>> {
    if e.operation == TRADE_LOCK then Required(TradeIdIn(e.after.state))
    else if e.operation == TRADE_SETTLE || e.operation == TRADE_UNLOCK then Required(TradeIdIn(e.before.state))
    else Fine(None)
  }

  function Required(t: Option<Id>): Outcome<Option<Id>> { if t.Some? then Fine(t) else Bad(MissingTradeId) }

  predicate InTrade(e: Event, t: Id) { TradeIdOf(e) == Fine(Some(t)) }

  function EventTrade(e: Event): set<Id> {
    match TradeIdOf(e)
    case Fine(Some(t)) => {t}
    case _ => {}
  }

  function EventTrades(events: seq<Event>): set<Id> {
    if events == [] then {} else EventTrades(events[..|events| - 1]) + EventTrade(events[|events| - 1])
  }

  function IntentTrade(i: Intent): set<Id> {
    if DeclaresValueLeg(i) && InputStr(i.tradeId).Some? then {InputStr(i.tradeId).value} else {}
  }

  function IntentTrades(intents: seq<Intent>): set<Id> {
    if intents == [] then {} else IntentTrades(intents[..|intents| - 1]) + IntentTrade(intents[|intents| - 1])
  }

  /** The ids `batch_trade_ids` promises: a batch touches no other record. */
  function TradeIds(b: Batch): set<Id> { EventTrades(b.events) + IntentTrades(b.intents) }

  /** `batch_trade_ids`. */
  method BatchTradeIds(b: Batch) returns (ids: seq<Id>)
    ensures forall t :: t in ids <==> t in TradeIds(b)
    ensures Sorted(IdLe, ids) && Distinct(ids)
  {
    var found: set<Id> := {};
    for i := 0 to |b.events|
      invariant found == EventTrades(b.events[..i])
    {
      assert b.events[..i + 1][..i] == b.events[..i];
      match TradeIdOf(b.events[i]) {
        case Fine(Some(t)) => found := found + {t};
        case _ =>
      }
    }
    assert b.events[..|b.events|] == b.events;
    for i := 0 to |b.intents|
      invariant found == EventTrades(b.events) + IntentTrades(b.intents[..i])
    {
      assert b.intents[..i + 1][..i] == b.intents[..i];
      if DeclaresValueLeg(b.intents[i]) {
        match InputStr(b.intents[i].tradeId) {
          case Some(t) => found := found + {t};
          case None =>
        }
      }
    }
    assert b.intents[..|b.intents|] == b.intents;
    IdLeIsTotalOrder();
    ids := SortedSet(IdLe, found);
  }

  // ----- Settling -----

  predicate OwnersOk(e: Event) {
    NonEmpty(e.before.state.Owner()).Some? && NonEmpty(e.after.state.Owner()).Some?
  }

  /** The first side of a tenant, or the number of sides. */
  function SideOf(sides: seq<Side>, tenant: Id): (i: nat)
    ensures i <= |sides| && (i < |sides| ==> sides[i].tenant == tenant)
    ensures forall j :: 0 <= j < i ==> sides[j].tenant != tenant
  {
    if sides == [] || sides[0].tenant == tenant then 0 else 1 + SideOf(sides[1..], tenant)
  }

  function Joined(s: Side, e: Event, ref: CommitRef): Side {
    s.(assets := if e.resourceId in s.assets then s.assets else s.assets + [e.resourceId],
       commitsByAsset := s.commitsByAsset[e.resourceId := ref],
       settleEventIds := s.settleEventIds + [e.eventId])
  }

  function NewSide(e: Event, ref: CommitRef): Side
    requires OwnersOk(e)
  {
    Side(e.tenantId, [e.resourceId], e.before.state.Owner().value, e.after.state.Owner().value, ref,
         map[e.resourceId := ref], [e.eventId])
  }

  /** `upsert_side`. */
  function UpsertSide(sides: seq<Side>, e: Event, ref: CommitRef): seq<Side>
    requires OwnersOk(e)
  {
    var i := SideOf(sides, e.tenantId);
    if i < |sides| then sides[i := Joined(sides[i], e, ref)] else sides + [NewSide(e, ref)]
  }

  predicate SettlesOk(events: seq<Event>) {
    forall i :: 0 <= i < |events| && events[i].operation == TRADE_SETTLE ==> OwnersOk(events[i])
  }

  function OfOp(events: seq<Event>, op: Id): (r: seq<Event>)
    ensures forall i :: 0 <= i < |r| ==> r[i].operation == op && r[i] in events
    ensures forall e :: e in events && e.operation == op ==> e in r
  {
    if events == [] then []
    else OfOp(events[..|events| - 1], op) + if events[|events| - 1].operation == op then [events[|events| - 1]] else []
  }

  function RefOf(e: Event): EventRef { EventRef(e.eventId, e.tenantId, e.operation) }

  /** The sides after a list of settles. */
  function SidesAfter(sides: seq<Side>, settles: seq<Event>, ref: CommitRef): seq<Side>
    requires forall i :: 0 <= i < |settles| ==> OwnersOk(settles[i])
  {
    if settles == [] then sides
    else UpsertSide(SidesAfter(sides, settles[..|settles| - 1], ref), settles[|settles| - 1], ref)
  }

  predicate TenantLe(a: Side, b: Side) { IdLe(a.tenant, b.tenant) }

  lemma TenantLeIsTotalPreorder()
    ensures TotalPreorder(TenantLe)
  {
    IdLeIsTotalOrder();
    hide IdLe;
  }

  function Marked(r: Record, events: seq<Event>, status: TradeStatus): Record {
    r.(status := if events == [] then r.status else status, events := r.events + Map(RefOf, events))
  }

  function SettledBy(r: Record, settles: seq<Event>, ref: CommitRef): Record
    requires forall i :: 0 <= i < |settles| ==> OwnersOk(settles[i])
  {
    Marked(r, settles, Settled).(sides := SidesAfter(r.sides, settles, ref))
  }

  /** A record after the events of one trade in one batch: locks, then settles, then unlocks. */
  function WithEvents(r: Record, events: seq<Event>, ref: CommitRef): Record
    requires SettlesOk(events)
  {
    var locked := Marked(r, OfOp(events, TRADE_LOCK), Open);
    var settled := SettledBy(locked, OfOp(events, TRADE_SETTLE), ref);
    Marked(settled, OfOp(events, TRADE_UNLOCK), Cancelled)
  }

  /** `apply_trade_events`. */
  method ApplyTradeEvents(record: Record, events: seq<Event>, ref: CommitRef) returns (r: Outcome<Record>)
    ensures SettlesOk(events) ==> r == Fine(WithEvents(record, events, ref))
    ensures !SettlesOk(events) ==> r == Bad(MalformedValue)
  {
    hide Marked, OwnersOk, SidesAfter;
    var locks, settles, unlocks := PartitionEvents(events);
    var rec := MarkAll(record, locks, Open);
    var settled := SettleAll(rec, settles, ref);
    match settled {
      case Bad(e) => r := Bad(e);
      case Fine(next) =>
        rec := MarkAll(next, unlocks, Cancelled);
        r := Fine(rec);
    }
  }

  method MarkAll(record: Record, events: seq<Event>, status: TradeStatus) returns (rec: Record)
    ensures rec == Marked(record, events, status)
  {
    rec := record;
    for i := 0 to |events|
      invariant rec == Marked(record, events[..i], status)
    {
      MapAppend(record.events, events, i);
      rec := rec.(status := status, events := rec.events + [RefOf(events[i])]);
    }
    assert events[..|events|] == events;
  }

  method SettleAll(record: Record, settles: seq<Event>, ref: CommitRef) returns (r: Outcome<Record>)
    ensures (forall i :: 0 <= i < |settles| ==> OwnersOk(settles[i])) ==> r == Fine(SettledBy(record, settles, ref))
    ensures !(forall i :: 0 <= i < |settles| ==> OwnersOk(settles[i])) ==> r == Bad(MalformedValue)
  {
    hide OwnersOk, UpsertSide;
    var rec := record;
    for i := 0 to |settles|
      invariant forall j :: 0 <= j < i ==> OwnersOk(settles[j])
      invariant rec == SettledBy(record, settles[..i], ref)
    {
      if !OwnersOk(settles[i]) { return Bad(MalformedValue); }
      MapAppend(record.events, settles, i);
      assert settles[..i + 1][..i] == settles[..i];
      rec := rec.(status := Settled, sides := UpsertSide(rec.sides, settles[i], ref),
                  events := rec.events + [RefOf(settles[i])]);
    }
    assert settles[..|settles|] == settles;
    r := Fine(rec);
  }

  lemma MapAppend(front: seq<EventRef>, events: seq<Event>, i: nat)
    requires i < |events|
    ensures front + Map(RefOf, events[..i]) + [RefOf(events[i])] == front + Map(RefOf, events[..i + 1])
  {
    assert Map(RefOf, events[..i + 1]) == Map(RefOf, events[..i]) + [RefOf(events[i])];
  }

  method PartitionEvents(events: seq<Event>) returns (locks: seq<Event>, settles: seq<Event>, unlocks: seq<Event>)
    ensures locks == OfOp(events, TRADE_LOCK) && settles == OfOp(events, TRADE_SETTLE)
            && unlocks == OfOp(events, TRADE_UNLOCK)
  {
    OperationsDiffer();
    locks, settles, unlocks := [], [], [];
    for i := 0 to |events|
      invariant locks == OfOp(events[..i], TRADE_LOCK)
      invariant settles == OfOp(events[..i], TRADE_SETTLE)
      invariant unlocks == OfOp(events[..i], TRADE_UNLOCK)
    {
      assert events[..i + 1][..i] == events[..i];
      if events[i].operation == TRADE_LOCK { locks := locks + [events[i]]; }
      else if events[i].operation == TRADE_SETTLE { settles := settles + [events[i]]; }
      else if events[i].operation == TRADE_UNLOCK { unlocks := unlocks + [events[i]]; }
    }
    assert events[..|events|] == events;
  }

  // ----- Applying a batch -----

  type Index = map<Id, Record>

  /** The trade events of one trade, in batch order. */
  function TradeEvents(events: seq<Event>, t: Id): seq<Event> {
    if events == [] then []
    else TradeEvents(events[..|events| - 1], t)
         + if InTrade(events[|events| - 1], t) then [events[|events| - 1]] else []
  }

  predicate TradeIdsOk(events: seq<Event>) { forall i :: 0 <= i < |events| ==> TradeIdOf(events[i]).Fine? }

  /** What a batch contributes: its commit reference and its value legs. */
  datatype Effect = Effect(ref: CommitRef, legs: seq<Attributed>)

  /** Whether a batch is accepted is a matter of the batch alone. */
  function BatchOutcome(b: Batch): Outcome<Effect> {
    match CommitRefOf(b.commit)
    case Bad(e) => Bad(e)
    case Fine(ref) =>
      match PairsOf(b.events)
      case Bad(e) => Bad(e)
      case Fine(pairs) =>
        if !TradeIdsOk(b.events) then Bad(MissingTradeId)
        else if !SettlesOk(b.events) then Bad(MalformedValue)
        else
          match DeclarationsOf(b.intents)
          case Bad(e) => Bad(e)
          case Fine(ds) => Fine(Effect(ref, MatchedLegs(ds, pairs, ref)))
  }

  function LegRefs(leg: ValueLeg): seq<EventRef> {
    seq(|leg.pairEventIds|, i requires 0 <= i < |leg.pairEventIds| =>
        EventRef(leg.pairEventIds[i], leg.tenant, BALANCE_TRANSFER))
  }

  function WithLeg(r: Record, leg: ValueLeg): Record {
    r.(events := r.events + LegRefs(leg), valueLegs := r.valueLegs + [leg])
  }

  /** A record after the legs attributed to its trade, in order. */
  function WithLegs(r: Record, legs: seq<Attributed>, t: Id): Record {
    if legs == [] then r
    else
      var r' := WithLegs(r, legs[..|legs| - 1], t);
      if legs[|legs| - 1].tradeId == t then WithLeg(r', legs[|legs| - 1].leg) else r'
  }

  function LegTrades(legs: seq<Attributed>): set<Id> {
    if legs == [] then {} else LegTrades(legs[..|legs| - 1]) + {legs[|legs| - 1].tradeId}
  }

  function RecordIn(index: Index, t: Id): Record { if t in index then index[t] else FreshRecord(t) }

  function SortSides(r: Record): Record { r.(sides := SortBy(TenantLe, r.sides)) }

  lemma {:induction false} TradeSettlesOk(events: seq<Event>, t: Id)
    requires SettlesOk(events)
    ensures SettlesOk(TradeEvents(events, t))
  {
    if events != [] {
      TradeSettlesOk(events[..|events| - 1], t);
      assert events[|events| - 1] in events;
    }
  }

  /** One record after the trade events of a batch, none of which is malformed. */
  function AfterEvents(r: Record, b: Batch, ref: CommitRef, t: Id): Record {
    var events := TradeEvents(b.events, t);
    if t in EventTrades(b.events) && SettlesOk(events) then SortSides(WithEvents(r, events, ref)) else r
  }

  function Touched(b: Batch, effect: Effect): set<Id> { EventTrades(b.events) + LegTrades(effect.legs) }

  /** A touched record after the batch: a function of its own old value. */
  function RecordAfter(r: Record, b: Batch, effect: Effect, t: Id): Record {
    WithLegs(AfterEvents(r, b, effect.ref, t), effect.legs, t)
  }

  /** The index after a batch, record by record. */
  function AppliedWith(index: Index, b: Batch, effect: Effect): Index {
    map t | t in index.Keys + Touched(b, effect) ::
      if t in Touched(b, effect) then RecordAfter(RecordIn(index, t), b, effect, t) else index[t]
  }

  function Applied(index: Index, b: Batch): Index
    requires BatchOutcome(b).Fine?
  {
    AppliedWith(index, b, BatchOutcome(b).value)
  }

  method GroupTrades(events: seq<Event>) returns (r: Outcome<map<Id, seq<Event>>>)
    ensures TradeIdsOk(events) ==>
              && r.Fine? && r.value.Keys == EventTrades(events)
              && forall t :: t in r.value ==> r.value[t] == TradeEvents(events, t)
    ensures !TradeIdsOk(events) ==> r == Bad(MissingTradeId)
  {
    hide TradeIdOf;
    var groups: map<Id, seq<Event>> := map[];
    for i := 0 to |events|
      invariant TradeIdsOk(events[..i]) && groups.Keys == EventTrades(events[..i])
      invariant forall t :: t in groups ==> groups[t] == TradeEvents(events[..i], t)
    {
      assert events[..i + 1][..i] == events[..i];
      TradeIdError(events[i]);
      match TradeIdOf(events[i]) {
        case Bad(e) => return Bad(e);
        case Fine(None) =>
        case Fine(Some(t)) =>
          NotInTrade(events[..i], t);
          groups := groups[t := (if t in groups then groups[t] else []) + [events[i]]];
      }
    }
    assert events[..|events|] == events;
    r := Fine(groups);
  }

  lemma TradeIdError(e: Event)
    ensures TradeIdOf(e).Bad? ==> TradeIdOf(e).error == MissingTradeId
  {
  }

  lemma {:induction false} NotInTrade(events: seq<Event>, t: Id)
    ensures t in EventTrades(events) <==> TradeEvents(events, t) != []
  {
    hide TradeIdOf;
    if events != [] { NotInTrade(events[..|events| - 1], t); }
  }

  /** The index once the trades in `done` have their events. */
  ghost function PartTrades(index: Index, b: Batch, ref: CommitRef, done: set<Id>): Index {
    map t | t in index.Keys + done :: if t in done then AfterEvents(RecordIn(index, t), b, ref, t) else index[t]
  }

  lemma TradeStep(index: Index, b: Batch, ref: CommitRef, done: set<Id>, t: Id)
    requires t !in done
    ensures RecordIn(PartTrades(index, b, ref, done), t) == RecordIn(index, t)
    ensures PartTrades(index, b, ref, done)[t := AfterEvents(RecordIn(index, t), b, ref, t)]
            == PartTrades(index, b, ref, done + {t})
  {
    hide AfterEvents;
  }

  lemma {:induction false} TradeMember(events: seq<Event>, i: nat, t: Id)
    requires i < |events| && InTrade(events[i], t)
    ensures t in EventTrades(events) && events[i] in TradeEvents(events, t)
  {
    hide TradeIdOf;
    if i < |events| - 1 { TradeMember(events[..|events| - 1], i, t); }
  }

  /** If every trade's settles are well formed, the batch's are. */
  lemma AllSettlesOk(events: seq<Event>)
    requires TradeIdsOk(events) && forall t :: t in EventTrades(events) ==> SettlesOk(TradeEvents(events, t))
    ensures SettlesOk(events)
  {
    OperationsDiffer();
    forall i | 0 <= i < |events| && events[i].operation == TRADE_SETTLE ensures OwnersOk(events[i]) {
      var t := TradeIdOf(events[i]).value.value;
      TradeMember(events, i, t);
      var j :| 0 <= j < |TradeEvents(events, t)| && TradeEvents(events, t)[j] == events[i];
    }
  }

  lemma NothingApplied(index: Index, b: Batch, ref: CommitRef)
    ensures PartTrades(index, b, ref, {}) == index
  {
  }

  /** One trade of the batch: its record gets its events and has its sides sorted. */
  method ApplyGroup(index: Index, ghost b: Batch, t: Id, events: seq<Event>, ref: CommitRef) returns (r: Outcome<Index>)
    requires t in EventTrades(b.events) && events == TradeEvents(b.events, t)
    ensures SettlesOk(events) ==> r == Fine(index[t := AfterEvents(RecordIn(index, t), b, ref, t)])
    ensures !SettlesOk(events) ==> r == Bad(MalformedValue)
  {
    hide SettlesOk, WithEvents, TradeEvents, EventTrades;
    var applied := ApplyTradeEvents(RecordIn(index, t), events, ref);
    match applied {
      case Bad(e) => r := Bad(e);
      case Fine(record) => r := Fine(index[t := SortSides(record)]);
    }
  }

  /** The middle loop of `apply`, over the trades of the batch. */
  method ApplyGroups(index0: Index, ghost b: Batch, groups: map<Id, seq<Event>>, ref: CommitRef)
    returns (r: Outcome<Index>)
    requires TradeIdsOk(b.events) && groups.Keys == EventTrades(b.events)
    requires forall t :: t in groups ==> groups[t] == TradeEvents(b.events, t)
    ensures SettlesOk(b.events) ==> r == Fine(PartTrades(index0, b, ref, EventTrades(b.events)))
    ensures !SettlesOk(b.events) ==> r == Bad(MalformedValue)
  {
    hide Split, PartTrades, SettlesOk, TradeEvents, EventTrades, TradeIdsOk, AfterEvents, RecordIn;
    var index := index0;
    var todo := groups.Keys;
    ghost var done: set<Id> := {};
    AllLeft(todo);
    NothingApplied(index0, b, ref);
    while todo != {}
      invariant Split(groups.Keys, done, todo)
      invariant index == PartTrades(index0, b, ref, done)
      invariant forall t :: t in done ==> SettlesOk(TradeEvents(b.events, t))
      decreases todo
    {
      var t :| t in todo;
      TakeOne(groups.Keys, done, todo, t);
      TradeStep(index0, b, ref, done, t);
      var applied := ApplyGroup(index, b, t, groups[t], ref);
      match applied {
        case Bad(e) =>
          if SettlesOk(b.events) { TradeSettlesOk(b.events, t); }
          return Bad(e);
        case Fine(next) => index := next;
      }
      todo, done := todo - {t}, done + {t};
    }
    NoneLeft(groups.Keys, done);
    AllSettlesOk(b.events);
    r := Fine(index);
  }

  // ----- Legs -----

  ghost function PartLegs(index: Index, legs: seq<Attributed>): Index {
    map t | t in index.Keys + LegTrades(legs) :: WithLegs(RecordIn(index, t), legs, t)
  }

  lemma LegStep(index: Index, legs: seq<Attributed>, a: Attributed)
    ensures RecordIn(PartLegs(index, legs), a.tradeId) == WithLegs(RecordIn(index, a.tradeId), legs, a.tradeId)
    ensures PartLegs(index, legs)[a.tradeId := WithLeg(RecordIn(PartLegs(index, legs), a.tradeId), a.leg)]
            == PartLegs(index, legs + [a])
  {
    var t := a.tradeId;
    if t !in LegTrades(legs) { NoLegs(RecordIn(index, t), legs, t); }
    assert (legs + [a])[..|legs|] == legs;
    hide WithLeg;
    forall u ensures WithLegs(RecordIn(index, u), legs + [a], u) ==
                     if u == t then WithLeg(WithLegs(RecordIn(index, u), legs, u), a.leg)
                     else WithLegs(RecordIn(index, u), legs, u) {}
    assert LegTrades(legs + [a]) == LegTrades(legs) + {t};
  }

  lemma {:induction false} NoLegs(r: Record, legs: seq<Attributed>, t: Id)
    requires t !in LegTrades(legs)
    ensures WithLegs(r, legs, t) == r
  {
    if legs != [] { NoLegs(r, legs[..|legs| - 1], t); }
  }

  /** The last loop of `apply`. */
  method ApplyLegs(index0: Index, legs: seq<Attributed>) returns (index: Index)
    ensures index == PartLegs(index0, legs)
  {
    index := index0;
    assert index == PartLegs(index0, legs[..0]);
    for i := 0 to |legs|
      invariant index == PartLegs(index0, legs[..i])
    {
      hide PartLegs;
      var a := legs[i];
      LegStep(index0, legs[..i], a);
      assert legs[..i + 1] == legs[..i] + [a];
      index := index[a.tradeId := WithLeg(RecordIn(index, a.tradeId), a.leg)];
    }
    assert legs[..|legs|] == legs;
  }

  // ----- The whole batch -----

  lemma LoopsAreApplied(index: Index, b: Batch, effect: Effect)
    ensures PartLegs(PartTrades(index, b, effect.ref, EventTrades(b.events)), effect.legs)
            == AppliedWith(index, b, effect)
  {
    hide AfterEvents, WithLegs, EventTrades, LegTrades, RecordAfter;
    var end := PartLegs(PartTrades(index, b, effect.ref, EventTrades(b.events)), effect.legs);
    forall t | t in end ensures end[t] == AppliedWith(index, b, effect)[t] {
      LoopsAreAppliedAt(index, b, effect, t);
    }
  }

  lemma LoopsAreAppliedAt(index: Index, b: Batch, effect: Effect, t: Id)
    requires t in index || t in Touched(b, effect)
    ensures WithLegs(RecordIn(PartTrades(index, b, effect.ref, EventTrades(b.events)), t), effect.legs, t) ==
            AppliedWith(index, b, effect)[t]
  {
    hide AfterEvents, WithLegs, EventTrades, LegTrades;
    NotEventTrade(RecordIn(index, t), b, effect.ref, t);
    if t !in LegTrades(effect.legs) { NoLegs(AfterEvents(RecordIn(index, t), b, effect.ref, t), effect.legs, t); }
  }

  lemma NotEventTrade(r: Record, b: Batch, ref: CommitRef, t: Id)
    ensures t !in EventTrades(b.events) ==> AfterEvents(r, b, ref, t) == r
  {
  }

  /** `apply`: accepts or rejects on the batch alone, and on acceptance produces the index
      described record by record. */
  method Apply(index: Index, b: Batch) returns (r: Outcome<Index>)
    ensures BatchOutcome(b).Bad? ==> r == Bad(BatchOutcome(b).error)
    ensures BatchOutcome(b).Fine? ==> r == Fine(Applied(index, b))
  {
    hide PairsOf, TradeIdsOk, SettlesOk, DeclarationsOf, MatchedLegs, PartTrades, PartLegs, AppliedWith;
    var ref := CommitRefOf(b.commit);
    if ref.Bad? { return Bad(ref.error); }
    var pairs := RecoverValuePairs(b.events);
    if pairs.Bad? { return Bad(pairs.error); }
    var groups := GroupTrades(b.events);
    if groups.Bad? { return Bad(groups.error); }
    var traded := ApplyGroups(index, b, groups.value, ref.value);
    if traded.Bad? { return Bad(traded.error); }
    var legs := MatchValueLegs(b.intents, pairs.value, ref.value);
    if legs.Bad? { return Bad(legs.error); }
    LoopsAreApplied(index, b, Effect(ref.value, legs.value));
    var result := ApplyLegs(traded.value, legs.value);
    r := Fine(result);
  }
}
