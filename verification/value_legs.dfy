/** Recovering value pairs from a batch and matching them to declarations
    (`crates/statechronicle-index/src/build.rs`). */
module ValueLegs {
  import opened Bytes
  import opened Ordering
  import opened Options
  import opened Amounts
  import opened Domain

  datatype IndexError = MissingTradeId | NonTenantCommit | MalformedValue

  datatype Outcome<+T> = Fine(value: T) | Bad(error: IndexError)

  datatype CommitRef = CommitRef(commitId: Id, sequence: nat, stateRoot: Digest, signature: Id)

  /** `balance.transfer`. */
  const BALANCE_TRANSFER: Id := Id([98, 97, 108, 97, 110, 99, 101, 46, 116, 114, 97, 110, 115, 102, 101, 114])

  // ----- Value pairs -----

  datatype Pair = Pair(debit: ValidAmount, resource: Id, credited: Option<Id>, eventIds: seq<Id>, tenant: Id)

  function IntentIds(events: seq<Event>): set<Id> { set i | 0 <= i < |events| :: events[i].intentId }

  /** The events of one intent, in batch order. */
  function GroupOf(events: seq<Event>, intent: Id): seq<Event> {
    if events == [] then []
    else GroupOf(events[..|events| - 1], intent)
         + if events[|events| - 1].intentId == intent then [events[|events| - 1]] else []
  }

  function EventIdsOf(group: seq<Event>): seq<Id> { seq(|group|, i requires 0 <= i < |group| => group[i].eventId) }

  function NonEmpty(id: Option<Id>): Option<Id> { if id.Some? && !IsEmpty(id.value) then id else None }

  /** What a group has taken out of balances, and whom it last credited. */
  datatype Flow = Flow(debit: ValidAmount, credited: Option<Id>)

  function FlowStep(flow: Flow, e: Event): Outcome<Flow> {
    var before, after := e.before.state.Balance(), e.after.state.Balance();
    if Units(before) > Units(after) then
      SubIsExact(before, after);
      match CheckedSub(before, after)
      case None => Bad(MalformedValue)
      case Some(delta) =>
        AddIsExact(flow.debit, delta);
        (match CheckedAdd(flow.debit, delta)
         case None => Bad(MalformedValue)
         case Some(debit) => Fine(Flow(debit, flow.credited)))
    else if Units(after) > Units(before) then Fine(Flow(flow.debit, NonEmpty(e.after.state.Subject())))
    else Fine(flow)
  }

  function FlowOf(group: seq<Event>): Outcome<Flow> {
    if group == [] then Fine(Flow(Amount(0, 0), None))
    else
      match FlowOf(group[..|group| - 1])
      case Bad(e) => Bad(e)
      case Fine(flow) => FlowStep(flow, group[|group| - 1])
  }

  /** The pair of a group, `None` for a group that is not a transfer. */
  function PairOf(group: seq<Event>): Outcome<Option<Pair>>
    requires group != []
  {
    if group[0].operation != BALANCE_TRANSFER then Fine(None)
    else if |group| != 2 then Bad(MalformedValue)
    else
      match FlowOf(group)
      case Bad(e) => Bad(e)
      case Fine(flow) =>
        Fine(Some(Pair(flow.debit, group[0].resourceId, flow.credited,
                       SortBy(IdLe, EventIdsOf(group)), group[0].tenantId)))
  }

  lemma {:induction false} GroupMember(events: seq<Event>, intent: Id)
    ensures intent in IntentIds(events) <==> GroupOf(events, intent) != []
  {
    if events != [] {
      var front, last := events[..|events| - 1], events[|events| - 1];
      GroupMember(front, intent);
      assert events == front + [last];
      IntentIdsAppend(front, last);
    }
  }

  lemma IntentIdsAppend(events: seq<Event>, e: Event)
    ensures IntentIds(events + [e]) == IntentIds(events) + {e.intentId}
  {
    var next := events + [e];
    forall x | x in IntentIds(events) ensures x in IntentIds(next) {
      var i :| 0 <= i < |events| && events[i].intentId == x;
      assert next[i].intentId == x;
    }
    assert next[|events|] == e;
  }

  /** The pairs of the groups named, in the order named. */
  function PairsFrom(ids: seq<Id>, events: seq<Event>): Outcome<seq<Pair>>
    requires forall i :: 0 <= i < |ids| ==> ids[i] in IntentIds(events)
  {
    if ids == [] then Fine([])
    else
      match PairsFrom(ids[..|ids| - 1], events)
      case Bad(e) => Bad(e)
      case Fine(pairs) =>
        GroupMember(events, ids[|ids| - 1]);
        (match PairOf(GroupOf(events, ids[|ids| - 1]))
         case Bad(e) => Bad(e)
         case Fine(None) => Fine(pairs)
         case Fine(Some(pair)) => Fine(pairs + [pair]))
  }

  function PairsOf(events: seq<Event>): Outcome<seq<Pair>> {
    IdLeIsTotalOrder();
    PairsFrom(SortedSet(IdLe, IntentIds(events)), events)
  }

  method FlowThrough(group: seq<Event>) returns (r: Outcome<Flow>)
    ensures r == FlowOf(group)
  {
    hide FlowStep, CheckedAdd, CheckedSub;
    var flow := Flow(Amount(0, 0), None);
    for i := 0 to |group|
      invariant FlowOf(group[..i]) == Fine(flow)
    {
      assert group[..i + 1][..i] == group[..i];
      match FlowStep(flow, group[i]) {
        case Bad(e) =>
          FlowStuck(group, i + 1);
          return Bad(e);
        case Fine(next) => flow := next;
      }
    }
    assert group[..|group|] == group;
    r := Fine(flow);
  }

  lemma {:induction false} FlowStuck(group: seq<Event>, i: nat)
    requires i <= |group| && FlowOf(group[..i]).Bad?
    ensures FlowOf(group) == FlowOf(group[..i])
    decreases |group| - i
  {
    if i < |group| {
      assert group[..i + 1][..i] == group[..i];
      FlowStuck(group, i + 1);
    } else {
      assert group[..i] == group;
    }
  }

  /** Groups the events by intent, as the source's first loop does. */
  method GroupEvents(events: seq<Event>) returns (groups: map<Id, seq<Event>>)
    ensures groups.Keys == IntentIds(events)
    ensures forall k :: k in groups ==> groups[k] == GroupOf(events, k)
  {
    groups := map[];
    for i := 0 to |events|
      invariant groups.Keys == IntentIds(events[..i])
      invariant forall k :: k in groups ==> groups[k] == GroupOf(events[..i], k)
    {
      var e := events[i];
      assert events[..i + 1] == events[..i] + [e];
      IntentIdsAppend(events[..i], e);
      GroupMember(events[..i], e.intentId);
      assert events[..i + 1][..i] == events[..i];
      groups := groups[e.intentId := (if e.intentId in groups then groups[e.intentId] else []) + [e]];
    }
    assert events[..|events|] == events;
  }

  /** `recover_value_pairs`. */
  method RecoverValuePairs(events: seq<Event>) returns (r: Outcome<seq<Pair>>)
    ensures r == PairsOf(events)
  {
    IdLeIsTotalOrder();
    hide PairsFrom, IdLe;
    var groups := GroupEvents(events);
    r := PairsInOrder(SortedSet(IdLe, groups.Keys), groups, events);
  }

  method PairsInOrder(ids: seq<Id>, groups: map<Id, seq<Event>>, ghost events: seq<Event>)
    returns (r: Outcome<seq<Pair>>)
    requires groups.Keys == IntentIds(events) && forall k :: k in groups ==> groups[k] == GroupOf(events, k)
    requires forall i :: 0 <= i < |ids| ==> ids[i] in IntentIds(events)
    ensures r == PairsFrom(ids, events)
  {
    hide PairOf, GroupOf, IntentIds;
    var pairs: seq<Pair> := [];
    for i := 0 to |ids|
      invariant PairsFrom(ids[..i], events) == Fine(pairs)
    {
      assert ids[..i + 1][..i] == ids[..i];
      GroupMember(events, ids[i]);
      var pair := RecoverPair(groups[ids[i]]);
      match pair {
        case Bad(e) =>
          PairsStuck(ids, events, i + 1);
          return Bad(e);
        case Fine(None) =>
        case Fine(Some(p)) => pairs := pairs + [p];
      }
    }
    assert ids[..|ids|] == ids;
    r := Fine(pairs);
  }

  method RecoverPair(group: seq<Event>) returns (r: Outcome<Option<Pair>>)
    requires group != []
    ensures r == PairOf(group)
  {
    if group[0].operation != BALANCE_TRANSFER { return Fine(None); }
    if |group| != 2 { return Bad(MalformedValue); }
    var flow := FlowThrough(group);
    match flow {
      case Bad(e) => r := Bad(e);
      case Fine(f) =>
        r := Fine(Some(Pair(f.debit, group[0].resourceId, f.credited,
                            SortBy(IdLe, EventIdsOf(group)), group[0].tenantId)));
    }
  }

  lemma {:induction false} PairsStuck(ids: seq<Id>, events: seq<Event>, i: nat)
    requires forall j :: 0 <= j < |ids| ==> ids[j] in IntentIds(events)
    requires i <= |ids| && PairsFrom(ids[..i], events).Bad?
    ensures PairsFrom(ids, events) == PairsFrom(ids[..i], events)
    decreases |ids| - i
  {
    if i < |ids| {
      assert ids[..i + 1][..i] == ids[..i];
      PairsStuck(ids, events, i + 1);
    } else {
      assert ids[..i] == ids;
    }
  }

  /** What balances a group drew down, added up. */
  function Drawn(group: seq<Event>): nat {
    if group == [] then 0
    else
      var e := group[|group| - 1];
      var before, after := Units(e.before.state.Balance()), Units(e.after.state.Balance());
      Drawn(group[..|group| - 1]) + if before > after then before - after else 0
  }

  /** A recovered debit is the exact sum of what its two events drew down. */
  lemma {:induction false} DebitIsExact(group: seq<Event>)
    requires FlowOf(group).Fine?
    ensures Units(FlowOf(group).value.debit) == Drawn(group)
  {
    hide Units, CheckedAdd, CheckedSub;
    if group == [] {
      ZeroUnits();
    } else {
      var front, e := group[..|group| - 1], group[|group| - 1];
      DebitIsExact(front);
      var before, after := e.before.state.Balance(), e.after.state.Balance();
      SubIsExact(before, after);
      if Units(before) > Units(after) { AddIsExact(FlowOf(front).value.debit, CheckedSub(before, after).value); }
    }
  }

  lemma ZeroUnits()
    ensures Units(Amount(0, 0)) == 0
  {
  }

  // ----- Declarations -----

  /** An intent input: a JSON string or any other JSON value. */
  datatype Json = Text(text: Id) | NotText

  /** The inputs of a settle intent that matter here, absent when the key is missing. */
  datatype Intent = Intent(
    tradeId: Option<Json>,
    valueResource: Option<Json>,
    valueAmount: Option<Json>,
    valueToSubject: Option<Json>)

  predicate DeclaresValueLeg(i: Intent) { i.valueResource.Some? || i.valueAmount.Some? || i.valueToSubject.Some? }

  /** `intent_str`. */
  function InputStr(v: Option<Json>): Option<Id> {
    if v.Some? && v.value.Text? && !IsEmpty(v.value.text) then Some(v.value.text) else None
  }

  /** `(amount, resource, recipient)`. Amounts are keys by their value, which is how they
      compare and how they are equal. */
  datatype LegKey = LegKey(units: nat, resource: Id, recipient: Option<Id>)

  datatype Declared = Declared(key: LegKey, tradeId: Id, amount: Id, toSubject: Id)

  function DeclarationOf(i: Intent): Outcome<Declared> {
    match (InputStr(i.valueResource), InputStr(i.valueAmount), InputStr(i.valueToSubject), InputStr(i.tradeId))
    case (Some(resource), Some(amount), Some(to), Some(trade)) =>
      (match Parse(amount.utf8)
       case Ok(a) => Fine(Declared(LegKey(Units(a), resource, Some(to)), trade, amount, to))
       case Err(_) => Bad(MalformedValue))
    case _ => Bad(MalformedValue)
  }

  function DeclarationsOf(intents: seq<Intent>): Outcome<seq<Declared>> {
    if intents == [] then Fine([])
    else
      match DeclarationsOf(intents[..|intents| - 1])
      case Bad(e) => Bad(e)
      case Fine(ds) =>
        var last := intents[|intents| - 1];
        if !DeclaresValueLeg(last) then Fine(ds)
        else match DeclarationOf(last)
             case Bad(e) => Bad(e)
             case Fine(d) => Fine(ds + [d])
  }

  function PairKey(p: Pair): LegKey { LegKey(Units(p.debit), p.resource, p.credited) }

  predicate RecipientLe(a: Option<Id>, b: Option<Id>) { a.None? || (b.Some? && IdLe(a.value, b.value)) }

  predicate KeyLe(a: LegKey, b: LegKey) {
    || a.units < b.units
    || (a.units == b.units && a.resource != b.resource && IdLe(a.resource, b.resource))
    || (a.units == b.units && a.resource == b.resource && RecipientLe(a.recipient, b.recipient))
  }

  lemma KeyLeIsTotalOrder()
    ensures TotalOrder(KeyLe)
  {
    IdLeIsTotalOrder();
    hide IdLe;
  }

  predicate DeclaredLe(a: Declared, b: Declared) { KeyLe(a.key, b.key) }

  predicate PairLe(a: Pair, b: Pair) { KeyLe(PairKey(a), PairKey(b)) }

  lemma LegOrders()
    ensures TotalPreorder(DeclaredLe) && TotalPreorder(PairLe)
  {
    KeyLeIsTotalOrder();
    hide KeyLe, PairKey;
  }

  // ----- Matching -----

  datatype ValueLeg = ValueLeg(
    resource: Id,
    amount: Id,
    toSubject: Id,
    pairEventIds: seq<Id>,
    tenant: Id,
    commit: CommitRef)

  datatype Attributed = Attributed(tradeId: Id, leg: ValueLeg)

  function LegOf(d: Declared, p: Pair, ref: CommitRef): Attributed {
    Attributed(d.tradeId, ValueLeg(p.resource, d.amount, d.toSubject, p.eventIds, p.tenant, ref))
  }

  /** Zips two lists and keeps the positions where the keys agree. */
  function Zipped(ds: seq<Declared>, ps: seq<Pair>, ref: CommitRef): seq<Attributed> {
    if ds == [] || ps == [] then []
    else (if ds[0].key == PairKey(ps[0]) then [LegOf(ds[0], ps[0], ref)] else []) + Zipped(ds[1..], ps[1..], ref)
  }

  function MatchedLegs(ds: seq<Declared>, ps: seq<Pair>, ref: CommitRef): seq<Attributed> {
    Zipped(SortBy(DeclaredLe, ds), SortBy(PairLe, ps), ref)
  }

  method CollectDeclared(intents: seq<Intent>) returns (r: Outcome<seq<Declared>>)
    ensures r == DeclarationsOf(intents)
  {
    hide DeclarationOf;
    var declared: seq<Declared> := [];
    for i := 0 to |intents|
      invariant DeclarationsOf(intents[..i]) == Fine(declared)
    {
      assert intents[..i + 1][..i] == intents[..i];
      if DeclaresValueLeg(intents[i]) {
        match DeclarationOf(intents[i]) {
          case Bad(e) =>
            DeclarationsStuck(intents, i + 1);
            return Bad(e);
          case Fine(d) => declared := declared + [d];
        }
      }
    }
    assert intents[..|intents|] == intents;
    r := Fine(declared);
  }

  lemma {:induction false} DeclarationsStuck(intents: seq<Intent>, i: nat)
    requires i <= |intents| && DeclarationsOf(intents[..i]).Bad?
    ensures DeclarationsOf(intents) == DeclarationsOf(intents[..i])
    decreases |intents| - i
  {
    if i < |intents| {
      assert intents[..i + 1][..i] == intents[..i];
      DeclarationsStuck(intents, i + 1);
    } else {
      assert intents[..i] == intents;
    }
  }

  /** `match_value_legs`. */
  method MatchValueLegs(intents: seq<Intent>, pairs: seq<Pair>, ref: CommitRef) returns (r: Outcome<seq<Attributed>>)
    ensures r == match DeclarationsOf(intents)
                 case Bad(e) => Bad(e)
                 case Fine(ds) => Fine(MatchedLegs(ds, pairs, ref))
  {
    var collected := CollectDeclared(intents);
    match collected {
      case Bad(e) => r := Bad(e);
      case Fine(declared) =>
        var ds, ps := SortBy(DeclaredLe, declared), SortBy(PairLe, pairs);
        var legs := ZipLegs(ds, ps, ref);
        r := Fine(legs);
    }
  }

  method ZipLegs(ds: seq<Declared>, ps: seq<Pair>, ref: CommitRef) returns (legs: seq<Attributed>)
    ensures legs == Zipped(ds, ps, ref)
  {
    legs := [];
    var i := 0;
    assert ds[0..] == ds && ps[0..] == ps;
    while i < |ds| && i < |ps|
      invariant 0 <= i <= |ds| && i <= |ps|
      invariant Zipped(ds, ps, ref) == legs + Zipped(ds[i..], ps[i..], ref)
    {
      assert ds[i..][1..] == ds[i + 1..] && ps[i..][1..] == ps[i + 1..];
      ghost var rest := Zipped(ds[i + 1..], ps[i + 1..], ref);
      if ds[i].key == PairKey(ps[i]) {
        assert legs + ([LegOf(ds[i], ps[i], ref)] + rest) == (legs + [LegOf(ds[i], ps[i], ref)]) + rest;
        legs := legs + [LegOf(ds[i], ps[i], ref)];
      } else {
        assert [] + rest == rest;
      }
      i := i + 1;
    }
    assert legs + [] == legs;
  }

  // ----- What matching guarantees -----

  /** The declarations and pairs behind the legs. */
  function UsedDeclared(ds: seq<Declared>, ps: seq<Pair>): seq<Declared> {
    if ds == [] || ps == [] then []
    else (if ds[0].key == PairKey(ps[0]) then [ds[0]] else []) + UsedDeclared(ds[1..], ps[1..])
  }

  function UsedPairs(ds: seq<Declared>, ps: seq<Pair>): seq<Pair> {
    if ds == [] || ps == [] then []
    else (if ds[0].key == PairKey(ps[0]) then [ps[0]] else []) + UsedPairs(ds[1..], ps[1..])
  }

  lemma {:induction false} ZippedUses(ds: seq<Declared>, ps: seq<Pair>, ref: CommitRef)
    ensures var legs, ud, up := Zipped(ds, ps, ref), UsedDeclared(ds, ps), UsedPairs(ds, ps);
            && |legs| == |ud| == |up|
            && (forall i :: 0 <= i < |legs| ==> ud[i].key == PairKey(up[i]) && legs[i] == LegOf(ud[i], up[i], ref))
  {
    hide PairKey, LegOf;
    if ds != [] && ps != [] { ZippedUses(ds[1..], ps[1..], ref); }
  }

  lemma {:induction false} UsedWithin(ds: seq<Declared>, ps: seq<Pair>)
    ensures multiset(UsedDeclared(ds, ps)) <= multiset(ds) && multiset(UsedPairs(ds, ps)) <= multiset(ps)
  {
    if ds != [] && ps != [] {
      UsedWithin(ds[1..], ps[1..]);
      hide PairKey;
      var keep := ds[0].key == PairKey(ps[0]);
      TailWithin(ds, UsedDeclared(ds[1..], ps[1..]), keep);
      TailWithin(ps, UsedPairs(ds[1..], ps[1..]), keep);
    }
  }

  lemma TailWithin<T>(s: seq<T>, used: seq<T>, keep: bool)
    requires s != [] && multiset(used) <= multiset(s[1..])
    ensures multiset((if keep then [s[0]] else []) + used) <= multiset(s)
  {
    assert s == [s[0]] + s[1..];
    assert [] + used == used;
  }

  /** Every leg joins one declaration and one pair with equal keys, and no declaration or pair
      serves two legs: the ones used, with repetitions, are among the ones given. */
  lemma LegsAreFair(ds: seq<Declared>, ps: seq<Pair>, ref: CommitRef)
    ensures var legs := MatchedLegs(ds, ps, ref);
            exists ud: seq<Declared>, up: seq<Pair> ::
              && |ud| == |up| == |legs|
              && (forall i :: 0 <= i < |legs| ==> ud[i].key == PairKey(up[i]) && legs[i] == LegOf(ud[i], up[i], ref))
              && multiset(ud) <= multiset(ds) && multiset(up) <= multiset(ps)
  {
    LegOrders();
    hide DeclaredLe, PairLe, PairKey, LegOf;
    SortIsStable(DeclaredLe, ds);
    SortIsStable(PairLe, ps);
    var sd, sp := SortBy(DeclaredLe, ds), SortBy(PairLe, ps);
    hide SortBy, Zipped;
    ZippedUses(sd, sp, ref);
    UsedWithin(sd, sp);
    var ud, up := UsedDeclared(sd, sp), UsedPairs(sd, sp);
    assert multiset(ud) <= multiset(ds) && multiset(up) <= multiset(ps);
  }

  lemma {:induction false} ZipAll(ds: seq<Declared>, ps: seq<Pair>, ref: CommitRef)
    requires |ds| == |ps| && forall i :: 0 <= i < |ds| ==> ds[i].key == PairKey(ps[i])
    ensures |Zipped(ds, ps, ref)| == |ds|
  {
    hide PairKey;
    if ds != [] { ZipAll(ds[1..], ps[1..], ref); }
  }

  function KeyOfDeclared(d: Declared): LegKey { d.key }

  /** When the declared and the recovered keys form the same multiset, as the executor checks
      for the whole trade, the sorted zip attributes every declaration and every pair. */
  lemma EqualKeysAttributeAll(ds: seq<Declared>, ps: seq<Pair>, ref: CommitRef)
    requires multiset(Map(KeyOfDeclared, ds)) == multiset(Map(PairKey, ps))
    ensures |MatchedLegs(ds, ps, ref)| == |ds| == |ps|
  {
    var sd, sp := SortBy(DeclaredLe, ds), SortBy(PairLe, ps);
    SortedKeys(ds, ps);
    var kd, kp := Map(KeyOfDeclared, sd), Map(PairKey, sp);
    KeyLeIsTotalOrder();
    hide KeyLe, PairKey, SortBy;
    SortedUnique(KeyLe, kd, kp);
    PermutationLength(Map(KeyOfDeclared, ds), Map(PairKey, ps));
    forall i | 0 <= i < |sd| ensures sd[i].key == PairKey(sp[i]) {
      assert kd[i] == kp[i];
    }
    ZipAll(sd, sp, ref);
  }

  lemma SortedKeys(ds: seq<Declared>, ps: seq<Pair>)
    ensures var kd, kp := Map(KeyOfDeclared, SortBy(DeclaredLe, ds)), Map(PairKey, SortBy(PairLe, ps));
            && Sorted(KeyLe, kd) && Sorted(KeyLe, kp)
            && multiset(kd) == multiset(Map(KeyOfDeclared, ds)) && multiset(kp) == multiset(Map(PairKey, ps))
    ensures |SortBy(DeclaredLe, ds)| == |ds| && |SortBy(PairLe, ps)| == |ps|
  {
    LegOrders();
    hide KeyLe, PairKey, SortBy, Map;
    SortedImages(KeyOfDeclared, DeclaredLe, KeyLe, ds);
    SortedImages(PairKey, PairLe, KeyLe, ps);
  }
}
