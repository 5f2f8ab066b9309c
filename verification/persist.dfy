/** The durable persistence protocol (`crates/statechronicle-commit/src/persist.rs`) and the
    atomic ledger it runs against (`crates/statechronicle-ports/src/ledger_store.rs`). */
module Persist {
  import opened Bytes
  import opened Domain
  import opened Options
  import opened Ordering
  import opened CommitRoots

  // ----- Event validation -----

  function EventIds(events: seq<Event>): (ids: seq<Id>)
    ensures |ids| == |events|
  {
    seq(|events|, i requires 0 <= i < |events| => events[i].eventId)
  }

  /** `validate_committed_events`: every event passes its own checks and no event id repeats. */
  method ValidateCommittedEvents(valid: Event -> bool, events: seq<Event>) returns (ok: bool)
    ensures ok <==> (forall i :: 0 <= i < |events| ==> valid(events[i])) && Distinct(EventIds(events))
  {
    var ids: set<Id> := {};
    for i := 0 to |events|
      invariant forall id :: id in ids ==> exists j :: 0 <= j < i && events[j].eventId == id
      invariant forall j :: 0 <= j < i ==> valid(events[j]) && events[j].eventId in ids
      invariant forall j, k :: 0 <= j < k < i ==> events[j].eventId != events[k].eventId
    {
      if !valid(events[i]) { return false; }
      if events[i].eventId in ids {
        ghost var j :| 0 <= j < i && events[j].eventId == events[i].eventId;
        assert EventIds(events)[j] == EventIds(events)[i];
        return false;
      }
      ids := ids + {events[i].eventId};
    }
    ok := true;
  }

  /** Some two listed events collide under the event encoding. */
  ghost predicate EventsCollide(h: HashFn, encode: Event -> Message, events: seq<Event>) {
    exists i, j :: 0 <= i < |events| && 0 <= j < |events| &&
      IsCollision(h, Preimages(encode(events[i]), encode(events[j])))
  }

  ghost predicate DigestsOf(h: HashFn, encode: Event -> Message, events: seq<Event>, ds: seq<Digest>) {
    |ds| == |events| && forall i :: 0 <= i < |ds| ==> ds[i] == h(encode(events[i]))
  }

  lemma DistinctDigests(h: HashFn, encode: Event -> Message, events: seq<Event>, ds: seq<Digest>)
    requires forall x, y :: encode(x) == encode(y) ==> x == y
    requires Distinct(EventIds(events)) && DigestsOf(h, encode, events, ds)
    ensures Distinct(ds) || EventsCollide(h, encode, events)
  {
    if !Distinct(ds) {
      var i, j :| 0 <= i < j < |ds| && ds[i] == ds[j];
      assert EventIds(events)[i] != EventIds(events)[j];
      assert encode(events[i]) != encode(events[j]);
      assert IsCollision(h, Preimages(encode(events[i]), encode(events[j])));
    }
  }

  /** The root of a validated event list fixes the list, whatever its length. */
  lemma ValidatedRootBinds(h: HashFn, encode: Event -> Message, a: seq<Event>, b: seq<Event>,
                           da: seq<Digest>, db: seq<Digest>)
    requires forall x, y :: encode(x) == encode(y) ==> x == y
    requires a != [] && b != [] && Distinct(EventIds(a)) && Distinct(EventIds(b))
    requires DigestsOf(h, encode, a, da) && DigestsOf(h, encode, b, db)
    requires EventRootOf(h, da) == EventRootOf(h, db)
    ensures a == b || IsCollision(h, EventCollision(h, da, db)) || EventsCollide(h, encode, a + b)
  {
    DistinctDigests(h, encode, a, da);
    DistinctDigests(h, encode, b, db);
    CollideInConcat(h, encode, a, b);
    if Distinct(da) && Distinct(db) {
      EventRootBindsDistinct(h, da, db);
      if da == db && a != b {
        var i :| 0 <= i < |a| && a[i] != b[i];
        assert (a + b)[i] == a[i] && (a + b)[|a| + i] == b[i];
        assert IsCollision(h, Preimages(encode((a + b)[i]), encode((a + b)[|a| + i])));
      }
    }
  }

  lemma CollideInConcat(h: HashFn, encode: Event -> Message, a: seq<Event>, b: seq<Event>)
    ensures EventsCollide(h, encode, a) || EventsCollide(h, encode, b) ==> EventsCollide(h, encode, a + b)
  {
    if EventsCollide(h, encode, a) {
      var i, j :| 0 <= i < |a| && 0 <= j < |a| && IsCollision(h, Preimages(encode(a[i]), encode(a[j])));
      assert (a + b)[i] == a[i] && (a + b)[j] == a[j];
    } else if EventsCollide(h, encode, b) {
      var i, j :| 0 <= i < |b| && 0 <= j < |b| && IsCollision(h, Preimages(encode(b[i]), encode(b[j])));
      assert (a + b)[|a| + i] == b[i] && (a + b)[|a| + j] == b[j];
    }
  }

  // ----- Requests, calls and replies -----

  datatype OutboxRecord = OutboxRecord(deliveryKey: Id, tenant: Id, commitId: Id)

  datatype Request = Request(
    tenant: Id,
    intentId: Id,
    payloadDigest: Digest,
    events: seq<Event>,
    commitId: Id,
    projections: seq<Projection>,
    outbox: seq<OutboxRecord>)
  {
    function Key(): Key { IdempotencyKey(tenant, intentId) }
  }

  datatype Key = IdempotencyKey(tenant: Id, intentId: Id)

  datatype Call =
    | Begin(tenant: Id)
    | ClaimIdempotency(key: Key, digest: Digest)
    | AppendEvents(events: seq<Event>)
    | AppendCommit(commitId: Id)
    | UpsertProjection(projection: Projection)
    | EnqueueOutbox(row: OutboxRecord)
    | FinalizeIdempotency(key: Key, attempt: Id, commitId: Id)
    | Commit
    | Rollback

  datatype Claim = NewReservation(attempt: Id) | AlreadyCommitted(commitId: Id) | InProgress | ConflictDifferentPayload

  datatype Reply = Done | Failed | Claimed(claim: Claim)

  datatype PersistResult = Committed(commitId: Id) | Replay(commitId: Id) | Error

  datatype Exchange = Exchange(call: Call, reply: Reply)

  /** Only a claim is answered with a claim, and a successful claim always is. */
  predicate Fits(call: Call, reply: Reply) {
    reply.Failed? || (reply.Claimed? <==> call.ClaimIdempotency?)
  }

  // ----- The protocol as a control automaton -----

  datatype Pc =
    | Opening
    | Claiming
    | Working(attempt: Id, done: nat)
    | Undoing(onSuccess: PersistResult)
    | Finished(result: PersistResult)

  function Upserts(ps: seq<Projection>): (calls: seq<Call>)
    ensures |calls| == |ps|
  {
    seq(|ps|, i requires 0 <= i < |ps| => UpsertProjection(ps[i]))
  }

  function Enqueues(rows: seq<OutboxRecord>): (calls: seq<Call>)
    ensures |calls| == |rows|
  {
    seq(|rows|, i requires 0 <= i < |rows| => EnqueueOutbox(rows[i]))
  }

  /** Everything that must succeed between the reservation and the commit, in order. */
  function Work(req: Request, attempt: Id): seq<Call> {
    [AppendEvents(req.events), AppendCommit(req.commitId)]
    + Upserts(req.projections) + Enqueues(req.outbox)
    + [FinalizeIdempotency(req.Key(), attempt, req.commitId)]
  }

  function CallAt(req: Request, pc: Pc): Call
    requires !pc.Finished?
  {
    match pc
    case Opening => Begin(req.tenant)
    case Claiming => ClaimIdempotency(req.Key(), req.payloadDigest)
    case Working(a, k) => if k < |Work(req, a)| then Work(req, a)[k] else Commit
    case Undoing(_) => Rollback
  }

  function After(req: Request, pc: Pc, reply: Reply): Pc
    requires !pc.Finished? && Fits(CallAt(req, pc), reply)
  {
    match pc
    case Opening => if reply.Done? then Claiming else Finished(Error)
    case Claiming =>
      (match reply
       case Claimed(NewReservation(a)) => Working(a, 0)
       case Claimed(AlreadyCommitted(id)) => Undoing(Replay(id))
       case _ => Undoing(Error))
    case Working(a, k) =>
      if k < |Work(req, a)| then (if reply.Done? then Working(a, k + 1) else Undoing(Error))
      else Finished(if reply.Done? then Committed(req.commitId) else Error)
    case Undoing(result) => Finished(if reply.Done? then result else Error)
  }

  /** Where the protocol stands after a transcript, if the transcript is one of its own. */
  function PcAfter(req: Request, run: seq<Exchange>): Option<Pc> {
    if run == [] then Some(Opening)
    else
      var last := run[|run| - 1];
      match PcAfter(req, run[..|run| - 1])
      case None => None
      case Some(pc) =>
        if !pc.Finished? && last.call == CallAt(req, pc) && Fits(last.call, last.reply)
        then Some(After(req, pc, last.reply)) else None
  }

  // ----- The code -----

  /** A ledger session. Every call may be answered in any way its signature allows. */
  class Session {
    var log: seq<Exchange>

    constructor ()
      ensures log == []
    {
      log := [];
    }

    method Invoke(call: Call) returns (reply: Reply)
      modifies this
      ensures Fits(call, reply) && log == old(log) + [Exchange(call, reply)]
    {
      reply := *;
      if !Fits(call, reply) { reply := Failed; }
      log := log + [Exchange(call, reply)];
    }
  }

  lemma Extend(req: Request, run: seq<Exchange>, call: Call, reply: Reply)
    ensures (run + [Exchange(call, reply)])[..|run|] == run
  {
  }

  /** One call of the code, tied to one step of the automaton. */
  method Send(s: Session, req: Request, ghost pc: Pc, call: Call) returns (reply: Reply)
    requires !pc.Finished? && PcAfter(req, s.log) == Some(pc) && call == CallAt(req, pc)
    modifies s
    ensures Fits(call, reply) && PcAfter(req, s.log) == Some(After(req, pc, reply))
  {
    ghost var run := s.log;
    reply := s.Invoke(call);
    Extend(req, run, call, reply);
  }

  method Abandon(s: Session, req: Request, ghost onSuccess: PersistResult) returns (ok: bool)
    requires PcAfter(req, s.log) == Some(Undoing(onSuccess))
    modifies s
    ensures PcAfter(req, s.log) == Some(Finished(if ok then onSuccess else Error))
  {
    var reply := Send(s, req, Undoing(onSuccess), Rollback);
    ok := reply.Done?;
  }

  /** The work list, index by index. */
  lemma WorkAt(req: Request, a: Id)
    ensures |Work(req, a)| == |req.projections| + |req.outbox| + 3
    ensures Work(req, a)[0] == AppendEvents(req.events) && Work(req, a)[1] == AppendCommit(req.commitId)
    ensures forall i :: 0 <= i < |req.projections| ==> Work(req, a)[2 + i] == UpsertProjection(req.projections[i])
    ensures forall i :: 0 <= i < |req.outbox| ==>
              Work(req, a)[2 + |req.projections| + i] == EnqueueOutbox(req.outbox[i])
    ensures Work(req, a)[2 + |req.projections| + |req.outbox|] == FinalizeIdempotency(req.Key(), a, req.commitId)
  {
  }

  /** One write of the transaction; a failure rolls the transaction back at once. */
  method Write(s: Session, req: Request, attempt: Id, ghost k: nat, call: Call) returns (ok: bool)
    requires PcAfter(req, s.log) == Some(Working(attempt, k))
    requires k < |Work(req, attempt)| && call == Work(req, attempt)[k]
    modifies s
    ensures PcAfter(req, s.log) == Some(if ok then Working(attempt, k + 1) else Finished(Error))
  {
    hide PcAfter, Work;
    var reply := Send(s, req, Working(attempt, k), call);
    ok := reply.Done?;
    if !ok {
      var rolledBack := Abandon(s, req, Error);
    }
  }

  /** `persist_durable`, from `begin` on. */
  method PersistDurable(req: Request) returns (res: PersistResult, s: Session)
    ensures PcAfter(req, s.log) == Some(Finished(res))
  {
    s := new Session();
    var reply := Send(s, req, Opening, Begin(req.tenant));
    if !reply.Done? { return Error, s; }
    reply := Send(s, req, Claiming, ClaimIdempotency(req.Key(), req.payloadDigest));
    if !reply.Claimed? {
      var ok := Abandon(s, req, Error);
      return Error, s;
    }
    match reply.claim {
      case AlreadyCommitted(id) =>
        var ok := Abandon(s, req, Replay(id));
        res := if ok then Replay(id) else Error;
      case NewReservation(attempt) =>
        res := PersistReserved(s, req, attempt);
      case InProgress =>
        var ok := Abandon(s, req, Error);
        res := Error;
      case ConflictDifferentPayload =>
        var ok := Abandon(s, req, Error);
        res := Error;
    }
  }

  /** The part of `persist_durable` that owns a new reservation. */
  method PersistReserved(s: Session, req: Request, attempt: Id) returns (res: PersistResult)
    requires PcAfter(req, s.log) == Some(Working(attempt, 0))
    modifies s
    ensures PcAfter(req, s.log) == Some(Finished(res))
  {
    WorkAt(req, attempt);
    hide PcAfter, Work;
    var ok := Write(s, req, attempt, 0, AppendEvents(req.events));
    if !ok { return Error; }
    ok := Write(s, req, attempt, 1, AppendCommit(req.commitId));
    if !ok { return Error; }
    for i := 0 to |req.projections|
      invariant PcAfter(req, s.log) == Some(Working(attempt, 2 + i))
    {
      ok := Write(s, req, attempt, 2 + i, UpsertProjection(req.projections[i]));
      if !ok { return Error; }
    }
    ghost var base := 2 + |req.projections|;
    for i := 0 to |req.outbox|
      invariant PcAfter(req, s.log) == Some(Working(attempt, base + i))
    {
      ok := Write(s, req, attempt, base + i, EnqueueOutbox(req.outbox[i]));
      if !ok { return Error; }
    }
    ok := Write(s, req, attempt, base + |req.outbox|, FinalizeIdempotency(req.Key(), attempt, req.commitId));
    if !ok { return Error; }
    var reply := Send(s, req, Working(attempt, base + |req.outbox| + 1), Commit);
    res := if reply.Done? then Committed(req.commitId) else Error;
  }

  // ----- What every transcript of the protocol keeps -----

  /** The transcript of an attempt that got as far as it could without a failure. */
  ghost predicate Clean(req: Request, run: seq<Exchange>, attempt: Id, k: nat)
  {
    && k <= |Work(req, attempt)| && |run| == 2 + k
    && run[0] == Exchange(Begin(req.tenant), Done)
    && run[1] == Exchange(ClaimIdempotency(req.Key(), req.payloadDigest), Claimed(NewReservation(attempt)))
    && forall i :: 0 <= i < k ==> run[2 + i] == Exchange(Work(req, attempt)[i], Done)
  }

  predicate IsClose(c: Call) { c.Rollback? || c.Commit? }

  /** No rollback and no commit among the exchanges. */
  ghost predicate Open(run: seq<Exchange>) {
    forall i :: 0 <= i < |run| ==> !IsClose(run[i].call)
  }

  /** What is known of a transcript, by where it stands. */
  ghost predicate Story(req: Request, run: seq<Exchange>, pc: Pc) {
    match pc
    case Opening => run == []
    case Claiming => run == [Exchange(Begin(req.tenant), Done)]
    case Working(a, k) => Clean(req, run, a, k)
    case Undoing(result) => Open(run) && Begun(run) && Justified(req, run, result)
    case Finished(result) =>
      && |run| >= 1
      && var last, before := run[|run| - 1], run[..|run| - 1];
      && Open(before)
      && (if !Begun(run) then |run| == 1 && result == Error
          else if last.call.Commit? then
            (exists a :: Clean(req, before, a, |Work(req, a)|))
            && result == (if last.reply.Done? then Committed(req.commitId) else Error)
          else last.call.Rollback?
               && (last.reply.Done? ==> Justified(req, before, result)) && (!last.reply.Done? ==> result == Error))
  }

  ghost predicate Begun(run: seq<Exchange>) { |run| >= 1 && run[0].call.Begin? && run[0].reply.Done? }

  /** A replay is reported only on the strength of the ledger's own claim answer. */
  ghost predicate Justified(req: Request, run: seq<Exchange>, result: PersistResult) {
    match result
    case Error => true
    case Replay(id) =>
      run == [Exchange(Begin(req.tenant), Done),
              Exchange(ClaimIdempotency(req.Key(), req.payloadDigest), Claimed(AlreadyCommitted(id)))]
    case Committed(_) => false
  }

  lemma WorkIsOpen(req: Request, a: Id, k: nat)
    requires k < |Work(req, a)|
    ensures !IsClose(Work(req, a)[k])
  {
  }

  lemma {:induction false} EveryTranscript(req: Request, run: seq<Exchange>)
    requires PcAfter(req, run).Some?
    ensures Story(req, run, PcAfter(req, run).value)
    decreases |run|
  {
    if run != [] {
      var before, last := run[..|run| - 1], run[|run| - 1];
      EveryTranscript(req, before);
      hide Story, After;
      StoryGoesOn(req, before, PcAfter(req, before).value, last);
      assert run == before + [last];
    }
  }

  lemma StoryGoesOn(req: Request, run: seq<Exchange>, pc: Pc, last: Exchange)
    requires Story(req, run, pc) && !pc.Finished? && last.call == CallAt(req, pc) && Fits(last.call, last.reply)
    ensures Story(req, run + [last], After(req, pc, last.reply))
  {
    match pc
    case Opening => StartGoesOn(req, run, last);
    case Claiming => ClaimGoesOn(req, run, last);
    case Working(a, k) => WorkGoesOn(req, run, a, k, last);
    case Undoing(result) => UndoGoesOn(req, run, result, last);
  }

  lemma StartGoesOn(req: Request, run: seq<Exchange>, last: Exchange)
    requires Story(req, run, Opening) && last.call == CallAt(req, Opening) && Fits(last.call, last.reply)
    ensures Story(req, run + [last], After(req, Opening, last.reply))
  {
    hide Clean, Work;
    assert run + [last] == [last] && [last][..0] == [];
  }

  lemma ClaimGoesOn(req: Request, run: seq<Exchange>, last: Exchange)
    requires Story(req, run, Claiming) && last.call == CallAt(req, Claiming) && Fits(last.call, last.reply)
    ensures Story(req, run + [last], After(req, Claiming, last.reply))
  {
    hide Work;
    assert run + [last] == [Exchange(Begin(req.tenant), Done), last];
  }

  lemma UndoGoesOn(req: Request, run: seq<Exchange>, result: PersistResult, last: Exchange)
    requires Story(req, run, Undoing(result))
    requires last.call == CallAt(req, Undoing(result)) && Fits(last.call, last.reply)
    ensures Story(req, run + [last], After(req, Undoing(result), last.reply))
  {
    var next := run + [last];
    assert next[..|next| - 1] == run && next[|next| - 1] == last && next[0] == run[0];
    hide Clean, Work, Open, Justified;
  }

  lemma WorkGoesOn(req: Request, run: seq<Exchange>, a: Id, k: nat, last: Exchange)
    requires Clean(req, run, a, k) && last.call == CallAt(req, Working(a, k)) && Fits(last.call, last.reply)
    ensures Story(req, run + [last], After(req, Working(a, k), last.reply))
  {
    CleanIsOpen(req, run, a, k);
    if k < |Work(req, a)| { WorkIsOpen(req, a, k); }
    hide Work;
    var next := run + [last];
    assert next[..|next| - 1] == run;
    if k < |Work(req, a)| && last.reply.Done? {
      assert Clean(req, next, a, k + 1);
    }
  }

  lemma CleanIsOpen(req: Request, run: seq<Exchange>, a: Id, k: nat)
    requires Clean(req, run, a, k)
    ensures Open(run) && Begun(run)
  {
    forall i | 2 <= i < |run| ensures !IsClose(run[i].call) {
      assert run[2 + (i - 2)].call == Work(req, a)[i - 2];
      WorkIsOpen(req, a, i - 2);
    }
  }

  /** Whatever the ledger answers, `commit` is reached only as the last call, after the claim
      was granted and events, commit row, every projection in order, every outbox row in order
      and the finalization under the claimed attempt all succeeded, and nothing else was sent. */
  lemma CommitComesLast(req: Request, run: seq<Exchange>, i: nat)
    requires PcAfter(req, run).Some? && i < |run| && run[i].call.Commit?
    ensures i == |run| - 1 && exists a :: Clean(req, run[..i], a, |Work(req, a)|)
  {
    EveryTranscript(req, run);
    var pc := PcAfter(req, run).value;
    assert IsClose(run[i].call);
    if pc.Working? { CleanIsOpen(req, run, pc.attempt, pc.done); }
  }

  /** Every finished attempt whose `begin` succeeded closes its transaction exactly once, as
      its last call: with `commit`, or with one rollback. It reports a fresh commit exactly when
      `commit` succeeded, and a replay only when the claim said so and the rollback succeeded. */
  lemma ClosedExactlyOnce(req: Request, run: seq<Exchange>, res: PersistResult)
    requires PcAfter(req, run) == Some(Finished(res)) && Begun(run)
    ensures Open(run[..|run| - 1]) && IsClose(run[|run| - 1].call)
    ensures res.Committed? <==> run[|run| - 1] == Exchange(Commit, Done)
    ensures res.Committed? ==> res.commitId == req.commitId
    ensures res.Replay? ==>
              && |run| == 3 && run[1].reply == Claimed(AlreadyCommitted(res.commitId))
              && run[2] == Exchange(Rollback, Done)
  {
    EveryTranscript(req, run);
  }

  /** An attempt whose `begin` failed sends nothing else. */
  lemma NothingAfterFailedBegin(req: Request, run: seq<Exchange>, res: PersistResult)
    requires PcAfter(req, run) == Some(Finished(res)) && !Begun(run)
    ensures |run| == 1 && res == Error
  {
    EveryTranscript(req, run);
  }
}
