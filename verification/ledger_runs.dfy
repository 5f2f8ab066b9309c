/** Interleaved runs of the persistence protocol on an atomic ledger: the contract of
    `crates/statechronicle-ports/src/ledger_store.rs` with its leased reservations, and lost
    responses like those of `crates/statechronicle/tests/support/durable.rs`. */
module LedgerRuns {
  import opened Bytes
  import opened Domain
  import opened Options
  import opened Persist

  // ----- What a ledger stores and what a transaction stages -----

  datatype RowKey = RowKey(tenant: Id, resource: Id)

  datatype Identity = Identity(digest: Digest, commitId: Id)

  datatype Stored = Stored(
    events: seq<Event>,
    commits: seq<Id>,
    rows: map<RowKey, Projection>,
    outbox: seq<OutboxRecord>,
    identities: map<Key, Identity>)

  datatype Staged = Staged(
    events: seq<Event>,
    commits: seq<Id>,
    upserts: seq<Projection>,
    outbox: seq<OutboxRecord>,
    finalized: map<Key, Final>)

  /** A finalization, under the attempt id it was made with. */
  datatype Final = Final(attempt: Id, commitId: Id)

  const NOTHING_STORED: Stored := Stored([], [], map[], [], map[])
  const NOTHING_STAGED: Staged := Staged([], [], [], [], map[])

  function Stage(s: Staged, call: Call): Staged {
    match call
    case AppendEvents(es) => s.(events := s.events + es)
    case AppendCommit(c) => s.(commits := s.commits + [c])
    case UpsertProjection(p) => s.(upserts := s.upserts + [p])
    case EnqueueOutbox(r) => s.(outbox := s.outbox + [r])
    case FinalizeIdempotency(k, t, c) => s.(finalized := s.finalized[k := Final(t, c)])
    case _ => s
  }

  function Upserted(rows: map<RowKey, Projection>, ps: seq<Projection>): map<RowKey, Projection>
    decreases |ps|
  {
    if |ps| == 0 then rows else Upserted(rows[RowKey(ps[0].tenantId, ps[0].resourceId) := ps[0]], ps[1..])
  }

  /** `commit` on the ledger: every staged effect at once. */
  function Merge(st: Stored, s: Staged, digest: Digest): Stored {
    Stored(st.events + s.events, st.commits + s.commits, Upserted(st.rows, s.upserts), st.outbox + s.outbox,
           st.identities + map k | k in s.finalized :: Identity(digest, s.finalized[k].commitId))
  }

  /** The effect of a whole request, said without the protocol. */
  function Effect(st: Stored, req: Request): Stored {
    Stored(st.events + req.events, st.commits + [req.commitId],
           Upserted(st.rows, req.projections), st.outbox + req.outbox,
           st.identities[req.Key() := Identity(req.payloadDigest, req.commitId)])
  }

  function StoredAfter(applied: seq<Request>): Stored {
    if applied == [] then NOTHING_STORED else Effect(StoredAfter(applied[..|applied| - 1]), applied[|applied| - 1])
  }

  // ----- Worlds and moves -----

  /** `own`: the id of the reservation the transaction was given, which goes away with it. */
  datatype Attempt = Attempt(req: Request, pc: Pc, own: Option<Id>, staged: Staged)

  datatype Outcome = Outcome(key: Key, digest: Digest, result: PersistResult)

  /** `reserved` maps a key to the attempt that holds its lease. `expired` records the keys whose
      lease has ever run out, and `applied` the requests whose effects reached the store. */
  datatype World = World(
    stored: Stored,
    reserved: map<Key, Id>,
    expired: set<Key>,
    attempts: map<nat, Attempt>,
    results: seq<Outcome>,
    applied: seq<Request>)

  const START: World := World(NOTHING_STORED, map[], {}, map[], [], [])

  /** A new attempt arrives, some attempt gets its next call answered, a claim reserves its key and
      its answer is lost, an attempt is dropped and frees its reservation at once or not, or a
      lease runs out. With `effect`, the answered call is a commit that took hold, whether or not
      it says so. */
  datatype Move =
    | Arrive(i: nat, req: Request)
    | Answer(i: nat, reply: Reply, effect: bool)
    | LoseClaim(i: nat, attempt: Id)
    | Crash(i: nat, frees: bool)
    | Expire(key: Key)

  /** Every key finalized in the transaction is still leased to the attempt that finalized it. */
  predicate StillOwns(w: World, s: Staged) {
    forall k :: k in s.finalized ==> k in w.reserved && w.reserved[k] == s.finalized[k].attempt
  }

  /** The answers an atomic ledger may give. */
  predicate Allowed(w: World, a: Attempt, reply: Reply, effect: bool)
    requires !a.pc.Finished?
  {
    var call := CallAt(a.req, a.pc);
    && Fits(call, reply)
    && (effect ==> call.Commit? && StillOwns(w, a.staged))
    && (call.Commit? && reply.Done? ==> effect)
    && (reply.Claimed? ==> reply.claim == ClaimAnswer(w, a.req, reply.claim))
  }

  function ClaimAnswer(w: World, req: Request, given: Claim): Claim {
    if req.Key() in w.stored.identities then
      var known := w.stored.identities[req.Key()];
      if known.digest == req.payloadDigest then AlreadyCommitted(known.commitId) else ConflictDifferentPayload
    else if req.Key() in w.reserved then InProgress
    else NewReservation(if given.NewReservation? then given.attempt else req.intentId)
  }

  predicate Enabled(w: World, m: Move) {
    match m
    case Arrive(i, _) => i !in w.attempts
    case Answer(i, reply, effect) =>
      i in w.attempts && !w.attempts[i].pc.Finished? && Allowed(w, w.attempts[i], reply, effect)
    case LoseClaim(i, t) =>
      && i in w.attempts && w.attempts[i].pc.Claiming?
      && Allowed(w, w.attempts[i], Claimed(NewReservation(t)), false)
    case Crash(i, _) => i in w.attempts
    case Expire(key) => key in w.reserved
  }

  /** The attempt after an answer; closing calls end the transaction and its reservation. */
  function Advance(a: Attempt, reply: Reply): Attempt
    requires !a.pc.Finished? && Fits(CallAt(a.req, a.pc), reply)
  {
    var call := CallAt(a.req, a.pc);
    Attempt(a.req, After(a.req, a.pc, reply),
            if IsClose(call) then None
            else if reply.Claimed? && reply.claim.NewReservation? then Some(reply.claim.attempt)
            else a.own,
            if reply.Done? then Stage(a.staged, call) else a.staged)
  }

  /** The reservations without the one an attempt still holds. */
  function Release(w: World, a: Attempt): map<Key, Id> {
    var key := a.req.Key();
    if a.own.Some? && key in w.reserved && w.reserved[key] == a.own.value then w.reserved - {key} else w.reserved
  }

  function Reserved(w: World, a: Attempt, a': Attempt): map<Key, Id> {
    if a'.own.None? then Release(w, a)
    else if a.own.None? then w.reserved[a.req.Key() := a'.own.value]
    else w.reserved
  }

  function Next(w: World, m: Move): World
    requires Enabled(w, m)
  {
    match m
    case Arrive(i, req) => w.(attempts := w.attempts[i := Attempt(req, Opening, None, NOTHING_STAGED)])
    case Crash(i, frees) =>
      w.(attempts := w.attempts - {i}, reserved := if frees then Release(w, w.attempts[i]) else w.reserved)
    case Expire(key) => w.(reserved := w.reserved - {key}, expired := w.expired + {key})
    case LoseClaim(i, t) =>
      var a := Advance(w.attempts[i], Failed).(own := Some(t));
      w.(attempts := w.attempts[i := a], reserved := w.reserved[a.req.Key() := t])
    case Answer(i, reply, effect) =>
      var a := w.attempts[i];
      var a' := Advance(a, reply);
      World(
        if effect then Merge(w.stored, a.staged, a.req.payloadDigest) else w.stored,
        Reserved(w, a, a'),
        w.expired,
        if a'.pc.Finished? then w.attempts - {i} else w.attempts[i := a'],
        if a'.pc.Finished? then w.results + [Outcome(a.req.Key(), a.req.payloadDigest, a'.pc.result)] else w.results,
        if effect then w.applied + [a.req] else w.applied)
  }

  /** The world a run of moves leads to, if every move is enabled in turn. */
  function RunAll(moves: seq<Move>): Option<World> {
    if moves == [] then Some(START)
    else
      match RunAll(moves[..|moves| - 1])
      case None => None
      case Some(w) => if Enabled(w, moves[|moves| - 1]) then Some(Next(w, moves[|moves| - 1])) else None
  }

  // ----- Staging -----

  function Clip(n: int, bound: nat): nat { if n < 0 then 0 else if n > bound then bound else n }

  /** What the first `k` writes of an attempt have staged. */
  function StagedOf(req: Request, t: Id, k: nat): Staged {
    var np, no := |req.projections|, |req.outbox|;
    Staged(if k < 1 then [] else req.events, if k < 2 then [] else [req.commitId],
           req.projections[..Clip(k - 2, np)], req.outbox[..Clip(k - 2 - np, no)],
           if k < np + no + 3 then map[] else map[req.Key() := Final(t, req.commitId)])
  }

  lemma PrefixGrows<T>(s: seq<T>, j: nat)
    requires j < |s|
    ensures s[..j] + [s[j]] == s[..j + 1]
  {
  }

  lemma StagedStep(req: Request, a: Id, k: nat)
    requires k < |Work(req, a)|
    ensures Stage(StagedOf(req, a, k), Work(req, a)[k]) == StagedOf(req, a, k + 1)
  {
    WorkAt(req, a);
    hide Work;
    var np, no := |req.projections|, |req.outbox|;
    if 2 <= k < 2 + np {
      assert Work(req, a)[2 + (k - 2)] == UpsertProjection(req.projections[k - 2]);
      PrefixGrows(req.projections, k - 2);
    } else if 2 + np <= k < 2 + np + no {
      assert Work(req, a)[2 + np + (k - 2 - np)] == EnqueueOutbox(req.outbox[k - 2 - np]);
      PrefixGrows(req.outbox, k - 2 - np);
    }
  }

  /** All the writes together stage the whole request, so a commit has the request's effect. */
  lemma CommitIsEffect(st: Stored, req: Request, a: Id)
    ensures Merge(st, StagedOf(req, a, |Work(req, a)|), req.payloadDigest) == Effect(st, req)
  {
    WorkAt(req, a);
    hide Work, Upserted;
    var full := StagedOf(req, a, |Work(req, a)|);
    assert full.upserts == req.projections && full.outbox == req.outbox;
    assert full.finalized == map[req.Key() := Final(a, req.commitId)];
    assert Merge(st, full, req.payloadDigest).identities == Effect(st, req).identities;
  }

  // ----- The invariant of every reachable world -----

  /** The store knows this key with this payload and commit. */
  ghost predicate Recorded(st: Stored, key: Key, digest: Digest, id: Id) {
    key in st.identities && st.identities[key] == Identity(digest, id)
  }

  /** While no lease of its key has run out, an attempt's reservation stands. */
  ghost predicate LeaseStands(w: World, a: Attempt) {
    var key := a.req.Key();
    a.own.Some? && key !in w.expired ==> key in w.reserved && w.reserved[key] == a.own.value
  }

  ghost predicate AttemptOk(w: World, a: Attempt) {
    && LeaseStands(w, a)
    && match a.pc
       case Opening => a.own.None? && a.staged == NOTHING_STAGED
       case Claiming => a.own.None? && a.staged == NOTHING_STAGED
       case Working(t, k) => a.own == Some(t) && k <= |Work(a.req, t)| && a.staged == StagedOf(a.req, t, k)
       case Undoing(Replay(id)) => Recorded(w.stored, a.req.Key(), a.req.payloadDigest, id)
       case Undoing(result) => result.Error?
       case Finished(_) => false
  }

  ghost predicate AttemptsOk(w: World) {
    forall i :: i in w.attempts ==> AttemptOk(w, w.attempts[i])
  }

  /** No two live transactions were given a reservation for one key, unless a lease of that key
      has run out. */
  ghost predicate Exclusive(w: World) {
    forall i, j :: i in w.attempts && j in w.attempts && i != j && Rivals(w.attempts[i], w.attempts[j]) ==>
      w.attempts[i].req.Key() in w.expired
  }

  predicate Rivals(a: Attempt, b: Attempt) { a.own.Some? && b.own.Some? && a.req.Key() == b.req.Key() }

  /** A reserved key is not committed. */
  ghost predicate ReservedAreFree(w: World) {
    forall k :: k in w.reserved ==> k !in w.stored.identities
  }

  /** Every success names the commit that the store holds for its key and payload. */
  ghost predicate SuccessesAgree(w: World) {
    forall n :: 0 <= n < |w.results| && !w.results[n].result.Error? ==>
      Recorded(w.stored, w.results[n].key, w.results[n].digest, w.results[n].result.commitId)
  }

  /** After a success for a key, no later one is a fresh commit. */
  ghost predicate CommittedOnce(w: World) {
    forall m, n :: 0 <= m < n < |w.results| && !w.results[m].result.Error? && w.results[n].result.Committed? ==>
      w.results[m].key != w.results[n].key
  }

  /** The store is exactly the effect of whole requests, one per key. */
  ghost predicate ExactlyOnce(w: World) {
    && w.stored == StoredAfter(w.applied)
    && (forall n :: 0 <= n < |w.applied| ==> w.applied[n].Key() in w.stored.identities)
    && (forall m, n :: 0 <= m < n < |w.applied| ==> w.applied[m].Key() != w.applied[n].Key())
  }

  ghost predicate Safe(w: World) { SuccessesAgree(w) && CommittedOnce(w) && ExactlyOnce(w) }

  ghost predicate Inv(w: World) { AttemptsOk(w) && Exclusive(w) && ReservedAreFree(w) && Safe(w) }

  /** Only a commit that took hold changes the store; then the attempt still held its lease, and
      the key was free. */
  lemma CommitTakesHold(w: World, i: nat, reply: Reply)
    requires Inv(w) && Enabled(w, Answer(i, reply, true))
    ensures var a := w.attempts[i];
            && a.pc.Working? && a.pc.done == |Work(a.req, a.pc.attempt)| && a.own == Some(a.pc.attempt)
            && a.req.Key() in w.reserved && w.reserved[a.req.Key()] == a.pc.attempt
            && a.req.Key() !in w.stored.identities
            && Next(w, Answer(i, reply, true)).stored == Effect(w.stored, a.req)
  {
    var a := w.attempts[i];
    assert AttemptOk(w, a);
    var t := a.pc.attempt;
    assert a.pc.done == |Work(a.req, t)| by { NoCloseInWork(a.req, t, a.pc.done); }
    CommitIsEffect(w.stored, a.req, t);
    AllFinalized(a.req, t);
    assert a.req.Key() in a.staged.finalized;
  }

  lemma AllFinalized(req: Request, t: Id)
    ensures StagedOf(req, t, |Work(req, t)|).finalized == map[req.Key() := Final(t, req.commitId)]
  {
    WorkAt(req, t);
  }

  /** An attempt that has done all its writes can commit exactly while its lease is its own: the
      attempt id it was given is the one it finalized with. */
  lemma CommitNeedsTheLease(w: World, i: nat)
    requires Inv(w) && i in w.attempts && w.attempts[i].pc.Working?
    requires var a := w.attempts[i]; a.pc.done == |Work(a.req, a.pc.attempt)|
    ensures var a := w.attempts[i];
            Enabled(w, Answer(i, Done, true)) <==> a.req.Key() in w.reserved && w.reserved[a.req.Key()] == a.pc.attempt
    ensures w.attempts[i].req.Key() !in w.expired ==> Enabled(w, Answer(i, Done, true))
  {
    var a := w.attempts[i];
    assert AttemptOk(w, a);
    AllFinalized(a.req, a.pc.attempt);
    hide Work, StagedOf;
    assert a.req.Key() in a.staged.finalized;
  }

  lemma NoCloseInWork(req: Request, t: Id, k: nat)
    ensures k < |Work(req, t)| ==> !IsClose(Work(req, t)[k])
  {
    if k < |Work(req, t)| { WorkIsOpen(req, t, k); }
  }

  /** What the store knows it never forgets or changes. */
  lemma RecordsStay(w: World, m: Move, key: Key, digest: Digest, id: Id)
    requires Inv(w) && Enabled(w, m) && Recorded(w.stored, key, digest, id)
    ensures Recorded(Next(w, m).stored, key, digest, id)
  {
    if m.Answer? && m.effect { CommitTakesHold(w, m.i, m.reply); }
  }

  /** Whether a move is about attempt `j`. */
  predicate Concerns(m: Move, j: nat) { !m.Expire? && m.i == j }

  /** A move leaves the leases of the other attempts standing. */
  lemma LeasesStand(w: World, m: Move, j: nat)
    requires Inv(w) && Enabled(w, m) && j in w.attempts && !Concerns(m, j)
    ensures LeaseStands(Next(w, m), w.attempts[j])
  {
    var b := w.attempts[j];
    assert AttemptOk(w, b);
    hide Work, StagedOf, Merge, Effect, Stage, After;
    if m.Answer? || m.Crash? {
      var a := w.attempts[m.i];
      if Rivals(a, b) { assert a.req.Key() in w.expired; }
    }
  }

  /** A move leaves the other attempts sound. */
  lemma OthersStay(w: World, m: Move, j: nat)
    requires Inv(w) && Enabled(w, m) && j in w.attempts && !Concerns(m, j)
    ensures AttemptOk(Next(w, m), w.attempts[j])
  {
    var b := w.attempts[j];
    assert AttemptOk(w, b);
    LeasesStand(w, m, j);
    if b.pc.Undoing? && b.pc.onSuccess.Replay? {
      RecordsStay(w, m, b.req.Key(), b.req.payloadDigest, b.pc.onSuccess.commitId);
    }
    hide Work, StagedOf, Next, LeaseStands;
  }

  /** The attempt that was answered is sound if it is still alive. */
  lemma AnsweredStays(w: World, i: nat, reply: Reply, effect: bool)
    requires Inv(w) && Enabled(w, Answer(i, reply, effect))
    requires !Advance(w.attempts[i], reply).pc.Finished?
    ensures AttemptOk(Next(w, Answer(i, reply, effect)), Advance(w.attempts[i], reply))
  {
    var a := w.attempts[i];
    assert AttemptOk(w, a);
    if a.pc.Working? {
      NoCloseInWork(a.req, a.pc.attempt, a.pc.done);
      if a.pc.done < |Work(a.req, a.pc.attempt)| { StagedStep(a.req, a.pc.attempt, a.pc.done); }
    }
    AnsweredLeaseStands(w, i, reply, effect);
    hide Work, Merge, Stage, LeaseStands, Reserved, StillOwns, Effect;
    if a.pc.Claiming? && reply.Claimed? && reply.claim.NewReservation? {
      assert a.staged == StagedOf(a.req, reply.claim.attempt, 0);
    }
  }

  lemma AnsweredLeaseStands(w: World, i: nat, reply: Reply, effect: bool)
    requires Inv(w) && Enabled(w, Answer(i, reply, effect))
    ensures LeaseStands(Next(w, Answer(i, reply, effect)), Advance(w.attempts[i], reply))
  {
    assert AttemptOk(w, w.attempts[i]);
    hide Work, Merge, Stage, StagedOf, StillOwns, ClaimAnswer, After;
  }

  lemma AttemptsStay(w: World, m: Move)
    requires Inv(w) && Enabled(w, m)
    ensures AttemptsOk(Next(w, m)) && Exclusive(Next(w, m))
  {
    var w' := Next(w, m);
    forall j | j in w'.attempts ensures AttemptOk(w', w'.attempts[j]) {
      if !Concerns(m, j) { OthersStay(w, m, j); }
      else if m.Answer? { AnsweredStays(w, m.i, m.reply, m.effect); }
      else { NewcomerIsSound(w, m); }
    }
    hide Work, Merge, Effect, StagedOf, Stage;
    forall i, j | i in w'.attempts && j in w'.attempts && i != j && Rivals(w'.attempts[i], w'.attempts[j])
      ensures w'.attempts[i].req.Key() in w'.expired
    {
      if Concerns(m, i) { HolderIsAlone(w, m, j); }
      if Concerns(m, j) { HolderIsAlone(w, m, i); }
    }
  }

  /** An attempt that arrived, or whose claim got lost, is sound. */
  lemma NewcomerIsSound(w: World, m: Move)
    requires Inv(w) && Enabled(w, m) && (m.Arrive? || m.LoseClaim?)
    ensures AttemptOk(Next(w, m), Next(w, m).attempts[m.i])
  {
    if m.LoseClaim? { assert AttemptOk(w, w.attempts[m.i]); }
    hide Work, StagedOf, Merge, Effect, Inv, Stage, StillOwns;
  }

  lemma HolderIsAlone(w: World, m: Move, j: nat)
    requires Inv(w) && Enabled(w, m) && !m.Expire? && j != m.i && j in w.attempts && w.attempts[j].own.Some?
    requires m.i in Next(w, m).attempts && Next(w, m).attempts[m.i].own.Some?
    requires Next(w, m).attempts[m.i].req.Key() == w.attempts[j].req.Key()
    ensures w.attempts[j].req.Key() in w.expired
  {
    assert AttemptOk(w, w.attempts[j]);
    if m.Answer? && w.attempts[m.i].own.None? { assert AttemptOk(w, w.attempts[m.i]); }
  }

  lemma ReservedStayFree(w: World, m: Move)
    requires Inv(w) && Enabled(w, m)
    ensures ReservedAreFree(Next(w, m))
  {
    if m.Answer? {
      var a := w.attempts[m.i];
      assert AttemptOk(w, a);
      if m.effect { CommitTakesHold(w, m.i, m.reply); }
      hide Work, StagedOf, Merge, Stage, AttemptsOk, Exclusive, Safe, AttemptOk, StillOwns, After, Upserted;
    }
  }

  lemma ResultsStay(w: World, m: Move)
    requires Inv(w) && Enabled(w, m)
    ensures SuccessesAgree(Next(w, m)) && CommittedOnce(Next(w, m))
  {
    var w' := Next(w, m);
    hide Work, StagedOf, Merge, Stage, AttemptsOk, Exclusive, ExactlyOnce, StillOwns, Reserved, Upserted;
    forall n | 0 <= n < |w.results| && !w.results[n].result.Error?
      ensures Recorded(w'.stored, w.results[n].key, w.results[n].digest, w.results[n].result.commitId)
    {
      RecordsStay(w, m, w.results[n].key, w.results[n].digest, w.results[n].result.commitId);
    }
    if |w'.results| > |w.results| { NewResultIsSound(w, m); }
  }

  /** A result just reported is recorded, and a fresh one is for a key never recorded before. */
  lemma NewResultIsSound(w: World, m: Move)
    requires Inv(w) && Enabled(w, m) && |Next(w, m).results| > |w.results|
    ensures m.Answer?
    ensures var r := Next(w, m).results[|w.results|];
            && (!r.result.Error? ==> Recorded(Next(w, m).stored, r.key, r.digest, r.result.commitId))
            && (r.result.Committed? ==> r.key !in w.stored.identities)
  {
    var a := w.attempts[m.i];
    assert AttemptOk(w, a);
    if m.effect { CommitTakesHold(w, m.i, m.reply); }
  }

  lemma HistoryStays(w: World, m: Move)
    requires Inv(w) && Enabled(w, m)
    ensures ExactlyOnce(Next(w, m))
  {
    if m.Answer? && m.effect {
      CommitTakesHold(w, m.i, m.reply);
      hide ExactlyOnce, Effect, Merge, Work, StagedOf, Upserted, Reserved;
      OneMoreApplied(w, Next(w, m), w.attempts[m.i].req);
    }
  }

  lemma OneMoreApplied(w: World, w': World, req: Request)
    requires ExactlyOnce(w) && req.Key() !in w.stored.identities
    requires w'.stored == Effect(w.stored, req) && w'.applied == w.applied + [req]
    ensures ExactlyOnce(w')
  {
    assert w'.applied[..|w'.applied| - 1] == w.applied;
    hide Upserted;
  }

  lemma {:induction false} EveryWorldIsSound(moves: seq<Move>)
    requires RunAll(moves).Some?
    ensures Inv(RunAll(moves).value)
  {
    if moves != [] {
      var m := moves[|moves| - 1];
      EveryWorldIsSound(moves[..|moves| - 1]);
      var w := RunAll(moves[..|moves| - 1]).value;
      AttemptsStay(w, m);
      ReservedStayFree(w, m);
      ResultsStay(w, m);
      HistoryStays(w, m);
    }
  }

  /** Over every interleaving of attempts, failures, crashes, expired leases and lost responses of
      claims and commits: any two successes for one key carry the same commit id and the same
      payload digest, the later one is a replay, and the store is exactly the effect of whole
      requests, each applied once, one per key. */
  lemma EveryRunIsSafe(moves: seq<Move>, m: nat, n: nat)
    requires RunAll(moves).Some? && m < n < |RunAll(moves).value.results|
    ensures var w := RunAll(moves).value;
            var x, y := w.results[m], w.results[n];
            x.key == y.key && !x.result.Error? && !y.result.Error? ==>
              x.digest == y.digest && y.result == Replay(x.result.commitId)
    ensures ExactlyOnce(RunAll(moves).value)
  {
    EveryWorldIsSound(moves);
  }
}
