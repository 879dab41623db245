/**
 The two-layer idempotency protocol of `executeBet`: a Redis lock that may
 expire at any moment in front of one database row per
 (user, endpoint, idempotency key).

 Everything here concerns requests that share one key; requests under other
 keys touch another lock and another row. A request is a sequence of atomic
 Redis or database commands, and any number of requests, on any number of
 replicas, interleave freely. Each command may also fail, before or after it
 took effect.
 */
module IdempotentBet {
  import opened Wrappers

  const POLL_ATTEMPTS: nat := 20

  datatype RowState = InProgress | Done(body: nat)

  datatype Row = Row(hash: nat, state: RowState)

  datatype Outcome =
    | Fresh(body: nat)      // this request placed the bet and answers with its own body
    | Replayed(body: nat)   // the stored body of an earlier request
    | Conflict
    | Unavailable
    | Failed

  /** The program point of a request, one per atomic command it is about to issue. */
  datatype Phase =
    | Begin                       // SET NX of the Redis lock
    | Lookup                      // findUnique of the row
    | Polling(attempts: nat)      // findUnique while another request is in progress
    | Inserting                   // create of the in-progress row
    | Placing                     // the BetService call
    | Storing(body: nat)          // upsert of the final response
    | Unlocking(outcome: Outcome) // owner-checked release of the Redis lock
    | Releasing(outcome: Outcome) // deleteMany of the in-progress row
    | Finished(outcome: Outcome)

  datatype Request = Request(
    hash: nat,
    phase: Phase,
    lockAcquired: bool,
    operationCompleted: bool,
    life: nat)              // the row life in which the request placed or replayed

  datatype Placement = Placement(request: nat, hash: nat, body: nat)

  /**
   One life of the row: the BetService calls that returned, the requests whose call
   acted and then threw, and whether a final response was stored.
   */
  datatype Life = Life(placed: seq<Placement>, late: seq<nat>, answered: bool)

  /**
   Redis and database state. `placed`, `late` and `answered` are the log of the row's
   life since it was last expired; `past` keeps the logs of earlier lives.
   */
  datatype Shared = Shared(
    lock: Option<nat>,
    row: Option<Row>,
    placed: seq<Placement>,
    late: seq<nat>,
    answered: bool,
    past: seq<Life>)

  datatype Choice =
    | Proceed
    | Bypass                  // memory mode, or no REDIS_URL: the Redis lock is skipped
    | GiveUp                  // the lock stayed held past the acquisition window
    | Fault                   // the command failed without effect
    | LateFault               // the command took effect but its reply was lost
    | PlaceReturns(body: nat)
    | PlaceThrows
    | PlaceThrowsLate         // the bet took effect: a timed-out call landed, or the commit's reply was lost

  predicate Threw(o: Outcome) {
    !o.Fresh? && !o.Replayed?
  }

  function NewRequest(hash: nat): Request {
    Request(hash, Begin, false, false, 0)
  }

  /** What a request that has read a finished row does with it. */
  function Answer(r: Request, row: Row, life: nat): Request
    requires row.state.Done?
  {
    if row.hash != r.hash then r.(phase := Unlocking(Conflict))
    else r.(phase := Unlocking(Replayed(row.state.body)), life := life)
  }

  /**
   One atomic command of request `id`. `guarded` says whether the catch block
   tests `operationCompleted` before it deletes the in-progress row: `executeBet`
   does, the claim route does not.
   */
  function Advance(guarded: bool, id: nat, r: Request, db: Shared, c: Choice): (Request, Shared) {
    match r.phase
    case Begin =>
      (match c
       case Bypass => (r.(phase := Lookup), db)
       case GiveUp => (r.(phase := Finished(Conflict)), db)
       case Fault => (r.(phase := Finished(Unavailable)), db)
       case LateFault =>
         (r.(phase := Finished(Unavailable)), if db.lock.None? then db.(lock := Some(id)) else db)
       case Proceed =>
         if db.lock.None? then (r.(phase := Lookup), db.(lock := Some(id))) else (r, db)
       case _ => (r, db))
    case Lookup =>
      (match c
       case Proceed =>
         (match db.row
          case None => (r.(phase := Inserting), db)
          case Some(row) =>
            if row.state.InProgress? then (r.(phase := Polling(0)), db)
            else (Answer(r, row, |db.past|), db))
       case Fault => (r.(phase := Unlocking(Unavailable)), db)
       case LateFault => (r.(phase := Unlocking(Unavailable)), db)
       case _ => (r, db))
    case Polling(attempts) =>
      (match c
       case Proceed =>
         if db.row.Some? && db.row.value.state.Done? then (Answer(r, db.row.value, |db.past|), db)
         else if attempts + 1 >= POLL_ATTEMPTS then (r.(phase := Unlocking(Conflict)), db)
         else (r.(phase := Polling(attempts + 1)), db)
       case Fault => (r.(phase := Unlocking(Unavailable)), db)
       case LateFault => (r.(phase := Unlocking(Unavailable)), db)
       case _ => (r, db))
    case Inserting =>
      (match c
       case Proceed =>
         if db.row.None? then
           (r.(phase := Placing, lockAcquired := true, life := |db.past|),
            db.(row := Some(Row(r.hash, InProgress))))
         else (r.(phase := Lookup), db)  // unique constraint: look again
       case Fault => (r.(phase := Unlocking(Unavailable)), db)
       case LateFault =>
         (r.(phase := Unlocking(Unavailable)),
          if db.row.None? then db.(row := Some(Row(r.hash, InProgress))) else db)
       case _ => (r, db))
    case Placing =>
      (match c
       case PlaceReturns(body) =>
         (r.(phase := Storing(body), operationCompleted := true),
          db.(placed := db.placed + [Placement(id, r.hash, body)]))
       case PlaceThrows => (r.(phase := Unlocking(Failed)), db)
       case PlaceThrowsLate => (r.(phase := Unlocking(Failed)), db.(late := db.late + [id]))
       case _ => (r, db))
    case Storing(body) =>
      (match c
       case Proceed =>
         (r.(phase := Unlocking(Fresh(body))), db.(row := Some(Row(r.hash, Done(body))), answered := true))
       case Fault => (r.(phase := Unlocking(Unavailable)), db)
       case LateFault =>
         (r.(phase := Unlocking(Unavailable)), db.(row := Some(Row(r.hash, Done(body))), answered := true))
       case _ => (r, db))
    case Unlocking(outcome) =>
      var db' := if !c.Fault? && db.lock == Some(id) then db.(lock := None) else db;
      var mustRelease := Threw(outcome) && r.lockAcquired && (!guarded || !r.operationCompleted);
      (r.(phase := if mustRelease then Releasing(outcome) else Finished(outcome)), db')
    case Releasing(outcome) =>
      (r.(phase := Finished(outcome)),
       if !c.Fault? && db.row.Some? && db.row.value.state.InProgress? then db.(row := None) else db)
    case Finished(_) => (r, db)
  }

  // ---------------------------------------------------------------------------
  // The same commands in the imperative form of the route handler
  // ---------------------------------------------------------------------------

  /** The Redis lock and the database row that all requests under one key share. */
  class SharedStore {
    var lock: Option<nat>
    var row: Option<Row>
    ghost var placed: seq<Placement>
    ghost var late: seq<nat>
    ghost var answered: bool
    ghost var past: seq<Life>

    ghost function View(): Shared
      reads this
    {
      Shared(lock, row, placed, late, answered, past)
    }
  }

  /** One run of `executeBet`, with the two flags it sets as it goes. */
  class ExecuteBet {
    const id: nat
    const guarded: bool
    const hash: nat
    var phase: Phase
    var lockAcquired: bool
    var operationCompleted: bool
    ghost var life: nat

    constructor (id: nat, guarded: bool, hash: nat)
      ensures this.id == id && this.guarded == guarded
      ensures View() == NewRequest(hash)
    {
      this.id, this.guarded, this.hash := id, guarded, hash;
      phase, lockAcquired, operationCompleted := Begin, false, false;
      life := 0;
    }

    ghost function View(): Request
      reads this
    {
      Request(hash, phase, lockAcquired, operationCompleted, life)
    }

    method Replay(row: Row, ghost store: SharedStore)
      requires row.state.Done?
      modifies this
      ensures View() == Answer(old(View()), row, old(|store.past|))
    {
      if row.hash != hash {
        phase := Unlocking(Conflict);
      } else {
        phase := Unlocking(Replayed(row.state.body));
        life := |store.past|;
      }
    }

    /** The Redis lock. */
    method AcquireLock(store: SharedStore, c: Choice)
      requires phase.Begin?
      modifies this, store
      ensures (View(), store.View()) == Advance(guarded, id, old(View()), old(store.View()), c)
    {
      match c {
        case Bypass => phase := Lookup;
        case GiveUp => phase := Finished(Conflict);
        case Fault => phase := Finished(Unavailable);
        case LateFault =>
          phase := Finished(Unavailable);
          if store.lock == None { store.lock := Some(id); }
        case Proceed =>
          if store.lock == None {
            store.lock := Some(id);
            phase := Lookup;
          }
        case _ =>
      }
    }

    /** The row as it is found, at first and while another request is in progress. */
    method LookUpRow(store: SharedStore, c: Choice)
      requires phase.Lookup? || phase.Polling?
      modifies this, store
      ensures (View(), store.View()) == Advance(guarded, id, old(View()), old(store.View()), c)
    {
      if c.Fault? || c.LateFault? {
        phase := Unlocking(Unavailable);
      } else if c.Proceed? {
        if store.row.Some? && store.row.value.state.Done? {
          Replay(store.row.value, store);
        } else if phase.Lookup? {
          phase := if store.row.None? then Inserting else Polling(0);
        } else if phase.attempts + 1 >= POLL_ATTEMPTS {
          phase := Unlocking(Conflict);
        } else {
          phase := Polling(phase.attempts + 1);
        }
      }
    }

    /** The in-progress row. */
    method InsertRow(store: SharedStore, c: Choice)
      requires phase.Inserting?
      modifies this, store
      ensures (View(), store.View()) == Advance(guarded, id, old(View()), old(store.View()), c)
    {
      match c {
        case Proceed =>
          if store.row == None {
            store.row := Some(Row(hash, InProgress));
            lockAcquired := true;
            life := |store.past|;
            phase := Placing;
          } else {
            phase := Lookup;
          }
        case Fault => phase := Unlocking(Unavailable);
        case LateFault =>
          if store.row == None { store.row := Some(Row(hash, InProgress)); }
          phase := Unlocking(Unavailable);
        case _ =>
      }
    }

    /** The BetService call. */
    method PlaceBet(store: SharedStore, c: Choice)
      requires phase.Placing?
      modifies this, store
      ensures (View(), store.View()) == Advance(guarded, id, old(View()), old(store.View()), c)
    {
      match c {
        case PlaceReturns(body) =>
          operationCompleted := true;
          store.placed := store.placed + [Placement(id, hash, body)];
          phase := Storing(body);
        case PlaceThrows => phase := Unlocking(Failed);
        case PlaceThrowsLate =>
          store.late := store.late + [id];
          phase := Unlocking(Failed);
        case _ =>
      }
    }

    /** The final response. */
    method StoreResult(store: SharedStore, c: Choice)
      requires phase.Storing?
      modifies this, store
      ensures (View(), store.View()) == Advance(guarded, id, old(View()), old(store.View()), c)
    {
      match c {
        case Proceed =>
          store.row := Some(Row(hash, Done(phase.body)));
          store.answered := true;
          phase := Unlocking(Fresh(phase.body));
        case Fault => phase := Unlocking(Unavailable);
        case LateFault =>
          store.row := Some(Row(hash, Done(phase.body)));
          store.answered := true;
          phase := Unlocking(Unavailable);
        case _ =>
      }
    }

    /** The end of the Redis lock, and the catch block. */
    method Release(store: SharedStore, c: Choice)
      requires phase.Unlocking? || phase.Releasing?
      modifies this, store
      ensures (View(), store.View()) == Advance(guarded, id, old(View()), old(store.View()), c)
    {
      match phase {
        case Unlocking(outcome) =>
          if c != Fault && store.lock == Some(id) { store.lock := None; }
          if Threw(outcome) && lockAcquired && (!guarded || !operationCompleted) {
            phase := Releasing(outcome);
          } else {
            phase := Finished(outcome);
          }
        case Releasing(outcome) =>
          if c != Fault && store.row.Some? && store.row.value.state.InProgress? {
            store.row := None;
          }
          phase := Finished(outcome);
      }
    }

    /** Issues the next command of the handler; `c` is what the outside world answers. */
    method Step(store: SharedStore, c: Choice)
      modifies this, store
      ensures (View(), store.View()) == Advance(guarded, id, old(View()), old(store.View()), c)
    {
      match phase {
        case Begin => AcquireLock(store, c);
        case Lookup => LookUpRow(store, c);
        case Polling(_) => LookUpRow(store, c);
        case Inserting => InsertRow(store, c);
        case Placing => PlaceBet(store, c);
        case Storing(_) => StoreResult(store, c);
        case Unlocking(_) => Release(store, c);
        case Releasing(_) => Release(store, c);
        case Finished(_) =>
      }
    }
  }

  // ---------------------------------------------------------------------------
  // The whole system
  // ---------------------------------------------------------------------------

  datatype Event =
    | Arrive(hash: nat)
    | Turn(id: nat, choice: Choice)
    | LockExpires
    | RowExpires   // the row passed its 24 hours and was pruned or deleted on lookup

  datatype System = System(db: Shared, requests: seq<Request>)

  const Initial: System := System(Shared(None, None, [], [], false, []), [])

  function Next(guarded: bool, s: System, e: Event): System {
    match e
    case Arrive(hash) => s.(requests := s.requests + [NewRequest(hash)])
    case Turn(id, choice) =>
      if id >= |s.requests| then s
      else
        var (r, db) := Advance(guarded, id, s.requests[id], s.db, choice);
        System(db, s.requests[id := r])
    case LockExpires => s.(db := s.db.(lock := None))
    case RowExpires =>
      if s.db.row.None? then s
      else s.(db := s.db.(row := None, placed := [], late := [], answered := false,
                          past := s.db.past + [Life(s.db.placed, s.db.late, s.db.answered)]))
  }

  function Run(guarded: bool, s: System, es: seq<Event>): System
    decreases |es|
  {
    if es == [] then s else Run(guarded, Next(guarded, s, es[0]), es[1..])
  }

  /** The BetService calls that returned during row life `life`. */
  function PlacedIn(db: Shared, life: nat): seq<Placement> {
    if life < |db.past| then db.past[life].placed
    else if life == |db.past| then db.placed
    else []
  }

  /** The requests whose BetService call took effect and threw during row life `life`. */
  function LateIn(db: Shared, life: nat): seq<nat> {
    if life < |db.past| then db.past[life].late
    else if life == |db.past| then db.late
    else []
  }

  /** Whether a final response was stored during row life `life`. */
  predicate AnsweredIn(db: Shared, life: nat) {
    if life < |db.past| then db.past[life].answered else life == |db.past| && db.answered
  }

  /** How often a bet took effect during row life `life`. */
  function Effects(db: Shared, life: nat): nat {
    |PlacedIn(db, life)| + |LateIn(db, life)|
  }

  /** A request whose catch block will still delete an in-progress row. */
  predicate Deleter(r: Request) {
    r.lockAcquired && !r.operationCompleted &&
    (r.phase.Placing? || r.phase.Releasing? || (r.phase.Unlocking? && Threw(r.phase.outcome)))
  }

  /** A request between its insert of the row and its last write to it. */
  predicate Holder(r: Request) {
    Deleter(r) || r.phase.Storing?
  }

  /** No request is between its insert and its last write when a row expires. */
  ghost predicate CleanExpiry(guarded: bool, s: System, es: seq<Event>)
    decreases |es|
  {
    es != [] ==>
      && (es[0].RowExpires? ==> forall i :: 0 <= i < |s.requests| ==> !Holder(s.requests[i]))
      && CleanExpiry(guarded, Next(guarded, s, es[0]), es[1..])
  }

  // ---------------------------------------------------------------------------
  // The invariant
  // ---------------------------------------------------------------------------

  predicate CoherentOutcome(r: Request, o: Outcome) {
    match o
    case Fresh(_) => r.operationCompleted
    case Unavailable => true
    case _ => !r.operationCompleted
  }

  /** What the flags and the phase of one request say about each other. */
  predicate Coherent(r: Request) {
    match r.phase
    case Placing => r.lockAcquired && !r.operationCompleted
    case Storing(_) => r.lockAcquired && r.operationCompleted
    case Releasing(o) => r.lockAcquired && !r.operationCompleted && Threw(o)
    case Unlocking(o) => CoherentOutcome(r, o)
    case Finished(o) => CoherentOutcome(r, o)
    case _ => !r.lockAcquired && !r.operationCompleted
  }

  /** The answer a request gives is the body placed in the row life it saw. */
  predicate TruthfulOutcome(db: Shared, id: nat, r: Request, o: Outcome) {
    var log := PlacedIn(db, r.life);
    && (o.Fresh? ==> log == [Placement(id, r.hash, o.body)])
    && (o.Replayed? ==> |log| == 1 && log[0].hash == r.hash && log[0].body == o.body)
    && (o.Fresh? || o.Replayed? ==> AnsweredIn(db, r.life))
  }

  predicate Truthful(db: Shared, id: nat, r: Request) {
    match r.phase
    case Unlocking(o) => TruthfulOutcome(db, id, r, o)
    case Finished(o) => TruthfulOutcome(db, id, r, o)
    case Storing(body) => db.placed == [Placement(id, r.hash, body)]
    case _ => true
  }

  /** A request whose call returned is the one that is logged in its life of the row. */
  predicate Placed(db: Shared, id: nat, r: Request) {
    r.operationCompleted ==>
      |PlacedIn(db, r.life)| == 1 && PlacedIn(db, r.life)[0].request == id && PlacedIn(db, r.life)[0].hash == r.hash
  }

  /** What the row says about the placements of its life. */
  predicate RowInv(db: Shared) {
    && |db.placed| <= 1
    && (db.placed == [] ==> !db.answered && (db.row.Some? ==> db.row.value.state.InProgress?))
    && (|db.placed| == 1 ==>
          db.row == Some(Row(db.placed[0].hash, if db.answered then Done(db.placed[0].body) else InProgress)))
    && (forall k :: 0 <= k < |db.past| ==> |db.past[k].placed| <= 1)
  }

  predicate RequestInv(db: Shared, id: nat, r: Request) {
    && Coherent(r)
    && Truthful(db, id, r)
    && Placed(db, id, r)
    && (Holder(r) ==> r.life == |db.past| && db.row == Some(Row(r.hash, InProgress)))
    && (Deleter(r) ==> db.placed == [])
  }

  /** Every logged placement belongs to a request that knows it has placed. */
  predicate Owned(s: System, life: nat, p: Placement) {
    p.request < |s.requests| && s.requests[p.request].operationCompleted && s.requests[p.request].life == life
  }

  /** The BetService call of the request threw. */
  predicate CallThrew(r: Request) {
    && !r.operationCompleted
    && match r.phase
       case Unlocking(o) => o.Failed?
       case Releasing(o) => o.Failed?
       case Finished(o) => o.Failed?
       case _ => false
  }

  predicate LateOwner(s: System, id: nat) {
    id < |s.requests| && CallThrew(s.requests[id])
  }

  ghost predicate LateOwned(s: System) {
    forall life: nat, id: nat :: id in LateIn(s.db, life) ==> LateOwner(s, id)
  }

  ghost predicate Inv(s: System) {
    && RowInv(s.db)
    && LateOwned(s)
    && (forall life: nat, p :: p in PlacedIn(s.db, life) ==> Owned(s, life, p))
    && (forall i :: 0 <= i < |s.requests| ==> RequestInv(s.db, i, s.requests[i]))
    && (forall i, j :: 0 <= i < j < |s.requests| ==> !(Holder(s.requests[i]) && Holder(s.requests[j])))
  }

  /** A command of a request that has not found out about the row yet. */
  lemma AdvanceKeepsSeeker(id: nat, r: Request, db: Shared, c: Choice)
    requires RowInv(db) && RequestInv(db, id, r) && (r.phase.Begin? || r.phase.Lookup? || r.phase.Polling?)
    ensures var (r', db') := Advance(true, id, r, db, c);
            RowInv(db') && RequestInv(db', id, r') && !Holder(r')
  {
  }

  /** The insert of the row makes its request the holder. */
  lemma AdvanceKeepsInserter(id: nat, r: Request, db: Shared, c: Choice)
    requires RowInv(db) && RequestInv(db, id, r) && r.phase.Inserting?
    ensures var (r', db') := Advance(true, id, r, db, c);
            RowInv(db') && RequestInv(db', id, r') && (Holder(r') ==> db.row.None?)
  {
  }

  /** A command of a request that is past its last write to the row, or never wrote it. */
  lemma AdvanceKeepsLeaver(id: nat, r: Request, db: Shared, c: Choice)
    requires RowInv(db) && RequestInv(db, id, r) && !Holder(r) && (r.phase.Unlocking? || r.phase.Finished?)
    ensures var (r', db') := Advance(true, id, r, db, c);
            RowInv(db') && RequestInv(db', id, r') && !Holder(r')
  {
  }

  /** A command of a request that does not hold the row. */
  lemma AdvanceKeepsVisitor(id: nat, r: Request, db: Shared, c: Choice)
    requires RowInv(db) && RequestInv(db, id, r) && !Holder(r)
    ensures var (r', db') := Advance(true, id, r, db, c);
            && RowInv(db') && RequestInv(db', id, r')
            && (Holder(r') ==> db.row.None?)
  {
    hide Advance, RowInv, Truthful;
    if r.phase.Begin? || r.phase.Lookup? || r.phase.Polling? {
      AdvanceKeepsSeeker(id, r, db, c);
    } else if r.phase.Inserting? {
      AdvanceKeepsInserter(id, r, db, c);
    } else {
      AdvanceKeepsLeaver(id, r, db, c);
    }
  }

  /** A command of the request that holds the row. */
  lemma AdvanceKeepsHolder(id: nat, r: Request, db: Shared, c: Choice)
    requires RowInv(db) && RequestInv(db, id, r) && Holder(r)
    ensures var (r', db') := Advance(true, id, r, db, c);
            RowInv(db') && RequestInv(db', id, r')
  {
    match r.phase
    case Placing =>
    case Storing(_) =>
    case Unlocking(_) =>
    case Releasing(_) =>
  }

  /** One command keeps the invariant of the request that issues it and of the row. */
  lemma AdvanceKeepsOwn(id: nat, r: Request, db: Shared, c: Choice)
    requires RowInv(db) && RequestInv(db, id, r)
    ensures var (r', db') := Advance(true, id, r, db, c);
            && RowInv(db') && RequestInv(db', id, r')
            && (Holder(r') ==> Holder(r) || db.row.None?)
  {
    hide Advance, RowInv, RequestInv;
    if Holder(r) {
      AdvanceKeepsHolder(id, r, db, c);
    } else {
      AdvanceKeepsVisitor(id, r, db, c);
    }
  }

  /** The log grows only by a placement of the request that moves, and flags never fall back. */
  lemma AdvanceLogs(id: nat, r: Request, db: Shared, c: Choice)
    requires Coherent(r)
    ensures var (r', db') := Advance(true, id, r, db, c);
            && db'.past == db.past
            && (CallThrew(r) ==> CallThrew(r'))
            && (db'.late == db.late || (CallThrew(r') && db'.late == db.late + [id]))
            && (r.operationCompleted ==> r'.operationCompleted && r'.life == r.life)
            && (db'.placed == db.placed ||
                (Holder(r) && r'.operationCompleted && r'.life == r.life && r.phase.Placing? && c.PlaceReturns?
                 && db'.placed == db.placed + [Placement(id, r.hash, c.body)]))
  {
  }

  /** One command by another request keeps the invariant of request `id`. */
  lemma AdvanceKeepsOther(id: nat, r: Request, other: nat, q: Request, db: Shared, c: Choice)
    requires id != other && RowInv(db)
    requires RequestInv(db, id, r) && RequestInv(db, other, q)
    requires !(Holder(r) && Holder(q))
    ensures var (q', db') := Advance(true, other, q, db, c);
            RequestInv(db', id, r) && !(Holder(r) && Holder(q'))
  {
    var (q', db') := Advance(true, other, q, db, c);
    if Holder(q) {
      assert !Holder(r);
    }
  }

  lemma TurnKeepsLateOwned(s: System, id: nat, c: Choice)
    requires LateOwned(s) && id < |s.requests| && Coherent(s.requests[id])
    ensures LateOwned(Next(true, s, Turn(id, c)))
  {
    var s' := Next(true, s, Turn(id, c));
    AdvanceLogs(id, s.requests[id], s.db, c);
    hide Advance, CallThrew, Coherent;
    forall life: nat, i: nat | i in LateIn(s'.db, life) ensures LateOwner(s', i) {
      if i in LateIn(s.db, life) {
        assert LateOwner(s, i);
      } else {
        assert i == id;
      }
    }
  }

  /** Arrivals and expiries move nothing between the requests and the logs. */
  lemma QuietKeepsOwned(s: System, e: Event)
    requires LateOwned(s) && forall life: nat, p :: p in PlacedIn(s.db, life) ==> Owned(s, life, p)
    requires !e.Turn?
    ensures LateOwned(Next(true, s, e))
    ensures forall life: nat, p :: p in PlacedIn(Next(true, s, e).db, life) ==> Owned(Next(true, s, e), life, p)
  {
    hide CallThrew;
    var s' := Next(true, s, e);
    forall life: nat, i: nat | i in LateIn(s'.db, life) ensures LateOwner(s', i) {
      assert i in LateIn(s.db, life) && LateOwner(s, i);
    }
    forall life: nat, p | p in PlacedIn(s'.db, life) ensures Owned(s', life, p) {
      assert p in PlacedIn(s.db, life) && Owned(s, life, p);
    }
  }

  lemma TurnKeepsOwned(s: System, id: nat, c: Choice)
    requires id < |s.requests| && Coherent(s.requests[id])
    requires Holder(s.requests[id]) ==> s.requests[id].life == |s.db.past|
    requires forall life: nat, p :: p in PlacedIn(s.db, life) ==> Owned(s, life, p)
    ensures var s' := Next(true, s, Turn(id, c));
            forall life: nat, p :: p in PlacedIn(s'.db, life) ==> Owned(s', life, p)
  {
    var s' := Next(true, s, Turn(id, c));
    AdvanceLogs(id, s.requests[id], s.db, c);
    hide Advance, CallThrew, Coherent;
    forall life: nat, p | p in PlacedIn(s'.db, life) ensures Owned(s', life, p) {
      if p in PlacedIn(s.db, life) {
        assert Owned(s, life, p);
      }
    }
  }

  lemma TurnKeepsRequests(s: System, id: nat, c: Choice)
    requires Inv(s) && id < |s.requests|
    ensures var s' := Next(true, s, Turn(id, c));
            && RowInv(s'.db)
            && (forall i :: 0 <= i < |s.requests| ==> RequestInv(s'.db, i, s'.requests[i]))
            && (forall i :: 0 <= i < |s.requests| && i != id ==> !(Holder(s'.requests[i]) && Holder(s'.requests[id])))
  {
    var s' := Next(true, s, Turn(id, c));
    AdvanceKeepsOwn(id, s.requests[id], s.db, c);
    hide Advance, RowInv, RequestInv, Holder;
    forall i | 0 <= i < |s.requests| && i != id
      ensures RequestInv(s'.db, i, s'.requests[i])
      ensures !(Holder(s'.requests[i]) && Holder(s'.requests[id]))
    {
      AdvanceKeepsOther(i, s.requests[i], id, s.requests[id], s.db, c);
    }
  }

  lemma NextKeepsInv(s: System, e: Event)
    requires Inv(s)
    requires e.RowExpires? ==> forall i :: 0 <= i < |s.requests| ==> !Holder(s.requests[i])
    ensures Inv(Next(true, s, e))
  {
    var s' := Next(true, s, e);
    if e.Turn? && e.id < |s.requests| {
      assert RequestInv(s.db, e.id, s.requests[e.id]);
      TurnKeepsLateOwned(s, e.id, e.choice);
      TurnKeepsOwned(s, e.id, e.choice);
      TurnKeepsRequests(s, e.id, e.choice);
      hide Advance, RowInv, RequestInv, Holder, LateOwned;
    } else if !e.Turn? {
      QuietKeepsOwned(s, e);
      hide LateOwned, Owned;
      forall i | 0 <= i < |s'.requests| ensures RequestInv(s'.db, i, s'.requests[i]) {
        assert i < |s.requests| ==> RequestInv(s.db, i, s.requests[i]);
      }
    }
  }

  lemma {:induction false} RunKeepsInv(s: System, es: seq<Event>)
    requires Inv(s) && CleanExpiry(true, s, es)
    ensures Inv(Run(true, s, es))
    decreases |es|
  {
    if es != [] {
      NextKeepsInv(s, es[0]);
      RunKeepsInv(Next(true, s, es[0]), es[1..]);
    }
  }

  // ---------------------------------------------------------------------------
  // Main results
  // ---------------------------------------------------------------------------

  /** Request `id` placed a bet: one of its BetService calls returned. */
  ghost predicate Executed(db: Shared, id: nat) {
    exists life: nat, p :: p in PlacedIn(db, life) && p.request == id
  }

  /** A BetService call of request `id` took effect and threw. */
  ghost predicate ActedLate(db: Shared, id: nat) {
    exists life: nat :: id in LateIn(db, life)
  }

  /**
   What the caller of request `id` is told, given what really took effect. An
   `Unavailable` leaves that open: the request placed its bet exactly if its call
   returned, and then only its store is in doubt.
   */
  ghost predicate ExplainedBy(db: Shared, id: nat, r: Request, o: Outcome) {
    var log := PlacedIn(db, r.life);
    && (ActedLate(db, id) ==> o.Failed?)
    && (Executed(db, id) <==> r.operationCompleted)
    && match o
       case Fresh(body) => r.operationCompleted && log == [Placement(id, r.hash, body)] && AnsweredIn(db, r.life)
       case Replayed(body) =>
         && !r.operationCompleted && AnsweredIn(db, r.life)
         && |log| == 1 && log[0].request != id && log[0].hash == r.hash && log[0].body == body
       case Unavailable => r.operationCompleted ==> |log| == 1 && log[0].request == id && log[0].hash == r.hash
       case _ => !r.operationCompleted
  }

  /**
   In every interleaving in which no row expires under a request that still
   holds it, at most one BetService call returns per row life. Every finished
   request has placed a bet exactly if its own call returned: then it answers with
   that bet, or with Unavailable because the response could not be stored or its
   store was not acknowledged. Otherwise it replays the stored bet for the same
   body, or is refused; a refused request has nevertheless placed a bet only if its
   call took effect and then threw, and then it is told that the call failed.
   */
  lemma AtMostOneBetPerRowLife(es: seq<Event>)
    requires CleanExpiry(true, Initial, es)
    ensures var s := Run(true, Initial, es);
            && (forall life: nat :: |PlacedIn(s.db, life)| <= 1)
            && (forall i :: 0 <= i < |s.requests| && s.requests[i].phase.Finished? ==>
                  ExplainedBy(s.db, i, s.requests[i], s.requests[i].phase.outcome))
  {
    RunKeepsInv(Initial, es);
    var s := Run(true, Initial, es);
    forall i | 0 <= i < |s.requests| && s.requests[i].phase.Finished?
      ensures ExplainedBy(s.db, i, s.requests[i], s.requests[i].phase.outcome)
    {
      var r := s.requests[i];
      assert RequestInv(s.db, i, r);
      if Executed(s.db, i) {
        var life: nat, p :| p in PlacedIn(s.db, life) && p.request == i;
        assert Owned(s, life, p);
      }
      if r.operationCompleted {
        assert PlacedIn(s.db, r.life)[0] in PlacedIn(s.db, r.life);
      }
      if ActedLate(s.db, i) {
        var life: nat :| i in LateIn(s.db, life);
        assert LateOwner(s, i);
      }
      if r.phase.outcome.Replayed? {
        assert Owned(s, r.life, PlacedIn(s.db, r.life)[0]);
      }
    }
  }

  // ---------------------------------------------------------------------------
  // A bet whose response was not stored
  // ---------------------------------------------------------------------------

  /** The request placed the bet of its row life, is past its store, and no response is stored in that life. */
  predicate Stranded(s: System, id: nat) {
    && id < |s.requests| && s.requests[id].operationCompleted && !s.requests[id].phase.Storing?
    && !AnsweredIn(s.db, s.requests[id].life)
  }

  /** A store that is not acknowledged ends in Unavailable; it strands the bet if and only if it had no effect. */
  lemma UnacknowledgedStore(s: System, id: nat, c: Choice)
    requires Inv(s) && id < |s.requests| && s.requests[id].phase.Storing? && (c.Fault? || c.LateFault?)
    ensures var s' := Next(true, s, Turn(id, c));
            && s'.requests[id].phase == Unlocking(Unavailable)
            && (Stranded(s', id) <==> c.Fault?)
            && (AnsweredIn(s'.db, s'.requests[id].life) <==> c.LateFault?)
  {
    assert RequestInv(s.db, id, s.requests[id]);
  }

  /** Only the store of the request that placed the bet answers a row life. */
  lemma AnsweredOnlyByTheStore(s: System, id: nat, c: Choice, life: nat)
    requires Inv(s) && id < |s.requests| && !AnsweredIn(s.db, life)
    ensures AnsweredIn(Next(true, s, Turn(id, c)).db, life) ==>
              s.requests[id].phase.Storing? && s.requests[id].life == life
  {
    assert RequestInv(s.db, id, s.requests[id]);
  }

  lemma TurnKeepsStranded(s: System, id: nat, other: nat, c: Choice)
    requires Inv(s) && Stranded(s, id) && other < |s.requests|
    ensures Stranded(Next(true, s, Turn(other, c)), id)
    ensures Next(true, s, Turn(other, c)).requests[id].life == s.requests[id].life
  {
    var r := s.requests[id];
    assert RequestInv(s.db, id, r) && RequestInv(s.db, other, s.requests[other]);
    AnsweredOnlyByTheStore(s, other, c, r.life);
    AdvanceLogs(other, s.requests[other], s.db, c);
    if other != id && s.requests[other].phase.Storing? {
      assert PlacedIn(s.db, s.requests[other].life)[0].request == other;
    }
  }

  lemma StrandedStays(s: System, id: nat, e: Event)
    requires Inv(s) && Stranded(s, id)
    ensures Stranded(Next(true, s, e), id) && Next(true, s, e).requests[id].life == s.requests[id].life
  {
    if e.Turn? && e.id < |s.requests| {
      TurnKeepsStranded(s, id, e.id, e.choice);
    } else {
      assert RequestInv(s.db, id, s.requests[id]);
    }
  }

  lemma {:induction false} StrandedForGood(s: System, id: nat, es: seq<Event>)
    requires Inv(s) && CleanExpiry(true, s, es) && Stranded(s, id)
    ensures Inv(Run(true, s, es)) && Stranded(Run(true, s, es), id)
    ensures Run(true, s, es).requests[id].life == s.requests[id].life
    decreases |es|
  {
    hide Inv, Stranded, Next;
    if es != [] {
      NextKeepsInv(s, es[0]);
      StrandedStays(s, id, es[0]);
      StrandedForGood(Next(true, s, es[0]), id, es[1..]);
    }
  }

  /**
   Once a bet was placed and its response could not be stored, no request ever gets
   that bet's response, in whatever run follows: none of the row's life is answered
   with it or replays it.
   */
  lemma UnstoredBetIsNeverReplayed(es: seq<Event>, id: nat, more: seq<Event>)
    requires CleanExpiry(true, Initial, es) && Stranded(Run(true, Initial, es), id)
    requires CleanExpiry(true, Run(true, Initial, es), more)
    ensures var s := Run(true, Run(true, Initial, es), more);
            forall i :: 0 <= i < |s.requests| && s.requests[i].phase.Finished?
                        && s.requests[i].life == Run(true, Initial, es).requests[id].life ==>
              !s.requests[i].phase.outcome.Fresh? && !s.requests[i].phase.outcome.Replayed?
  {
    RunKeepsInv(Initial, es);
    StrandedForGood(Run(true, Initial, es), id, more);
    var s := Run(true, Run(true, Initial, es), more);
    forall i | 0 <= i < |s.requests| && s.requests[i].phase.Finished? && s.requests[i].life == s.requests[id].life
      ensures !s.requests[i].phase.outcome.Fresh? && !s.requests[i].phase.outcome.Replayed?
    {
      assert RequestInv(s.db, i, s.requests[i]);
    }
  }

  /** `n` commands of request `id`, each going through. */
  function Turns(id: nat, n: nat): seq<Event> {
    seq(n, _ => Turn(id, Proceed))
  }

  lemma {:induction false} TurnsRun(guarded: bool, s: System, id: nat, n: nat)
    requires n > 0
    ensures Run(guarded, s, Turns(id, n)) == Run(guarded, Next(guarded, s, Turn(id, Proceed)), Turns(id, n - 1))
  {
    assert Turns(id, n)[1..] == Turns(id, n - 1);
  }

  lemma {:induction false} FinishedStays(guarded: bool, s: System, id: nat, n: nat)
    requires id < |s.requests| && s.requests[id].phase.Finished?
    ensures Run(guarded, s, Turns(id, n)) == s
  {
    if n > 0 {
      assert s.requests[id := s.requests[id]] == s.requests;
      TurnsRun(guarded, s, id, n);
      FinishedStays(guarded, s, id, n - 1);
    }
  }

  /** A request that polls an in-progress row alone gives up with a conflict. */
  lemma {:induction false} PollingEndsInConflict(guarded: bool, s: System, id: nat, attempts: nat)
    requires id < |s.requests| && s.requests[id].phase == Polling(attempts) && attempts < POLL_ATTEMPTS
    requires s.db.row.Some? && s.db.row.value.state.InProgress?
    ensures Run(guarded, s, Turns(id, POLL_ATTEMPTS - attempts)) ==
            s.(requests := s.requests[id := s.requests[id].(phase := Unlocking(Conflict))])
    decreases POLL_ATTEMPTS - attempts
  {
    var next := Next(guarded, s, Turn(id, Proceed));
    TurnsRun(guarded, s, id, POLL_ATTEMPTS - attempts);
    if attempts + 1 < POLL_ATTEMPTS {
      PollingEndsInConflict(guarded, next, id, attempts + 1);
      assert next.requests[id := next.requests[id].(phase := Unlocking(Conflict))]
          == s.requests[id := s.requests[id].(phase := Unlocking(Conflict))];
    } else {
      assert Turns(id, 0) == [];
    }
  }

  /** A retry that comes when nothing else is under way, with as many commands as it can need. */
  function LoneRetry(id: nat, hash: nat): seq<Event> {
    [Arrive(hash)] + Turns(id, POLL_ATTEMPTS + 3)
  }

  /** It takes the lock, finds the row, polls it for nothing, and gives the lock back. */
  lemma RetryOfAnOpenRow(guarded: bool, s: System, hash: nat)
    requires s.db.lock.None? && s.db.row.Some? && s.db.row.value.state.InProgress?
    ensures var id := |s.requests|;
            Run(guarded, s, LoneRetry(id, hash)) ==
            s.(requests := s.requests + [Request(hash, Finished(Conflict), false, false, 0)])
  {
    var id := |s.requests|;
    var s1 := Next(guarded, s, Arrive(hash));
    var s2 := Next(guarded, s1, Turn(id, Proceed));
    var s3 := Next(guarded, s2, Turn(id, Proceed));
    assert s3 == System(s.db.(lock := Some(id)), s.requests + [Request(hash, Polling(0), false, false, 0)]);
    assert LoneRetry(id, hash)[1..] == Turns(id, POLL_ATTEMPTS + 3);
    TurnsRun(guarded, s1, id, POLL_ATTEMPTS + 3);
    TurnsRun(guarded, s2, id, POLL_ATTEMPTS + 2);
    assert Turns(id, POLL_ATTEMPTS + 1) == Turns(id, POLL_ATTEMPTS) + Turns(id, 1);
    RunAppend(guarded, s3, Turns(id, POLL_ATTEMPTS), Turns(id, 1));
    PollingEndsInConflict(guarded, s3, id, 0);
    LeavesTheLock(guarded, Run(guarded, s3, Turns(id, POLL_ATTEMPTS)), id);
  }

  lemma LeavesTheLock(guarded: bool, s: System, id: nat)
    requires id < |s.requests| && s.db.lock == Some(id)
    requires s.requests[id].phase == Unlocking(Conflict) && !s.requests[id].lockAcquired
    ensures Run(guarded, s, Turns(id, 1)) ==
            System(s.db.(lock := None), s.requests[id := s.requests[id].(phase := Finished(Conflict))])
  {
    TurnsRun(guarded, s, id, 1);
    assert Turns(id, 0) == [];
  }

  /**
   What a lone retry gets: in any state a clean run leads to, with the bet of the
   row's life placed and nobody at work on the row or holding the lock, it is
   answered with that bet if and only if a response was stored in that life and the
   body is the same. Otherwise it gets a conflict, for the rest of the row's life if
   the response was not stored.
   */
  lemma LoneRetryIsReplayedIff(es: seq<Event>, hash: nat)
    requires CleanExpiry(true, Initial, es)
    requires var s := Run(true, Initial, es);
             && s.db.lock.None? && s.db.placed != []
             && forall i :: 0 <= i < |s.requests| ==> !Holder(s.requests[i])
    ensures var s := Run(true, Initial, es);
            var end, id := Run(true, s, LoneRetry(|s.requests|, hash)), |s.requests|;
            && end.db == s.db && |end.requests| == id + 1 && end.requests[id].phase.Finished?
            && end.requests[id].phase.outcome ==
               if s.db.answered && hash == s.db.placed[0].hash then Replayed(s.db.placed[0].body) else Conflict
  {
    RunKeepsInv(Initial, es);
    var s := Run(true, Initial, es);
    var id := |s.requests|;
    if s.db.answered {
      RetryReplays(true, s, hash);
      assert LoneRetry(id, hash) == [Arrive(hash)] + Turns(id, 3) + Turns(id, POLL_ATTEMPTS);
      assert [Arrive(hash)] + Turns(id, 3) == [Arrive(hash), Turn(id, Proceed), Turn(id, Proceed), Turn(id, Proceed)];
      RunAppend(true, s, [Arrive(hash)] + Turns(id, 3), Turns(id, POLL_ATTEMPTS));
      FinishedStays(true, Run(true, s, [Arrive(hash)] + Turns(id, 3)), id, POLL_ATTEMPTS);
    } else {
      RetryOfAnOpenRow(true, s, hash);
    }
  }

  /** A placed bet, a store that fails: the request is told Unavailable, and its retry that there is a conflict. */
  lemma FailedStoreStrandsTheKey()
    ensures var es := PlaceAlone(0, 0, 1) + FailToStore(0);
            && NoExpiry(es)
            && var s := Run(true, Initial, es);
               && s.requests == [Request(0, Finished(Unavailable), true, true, 0)]
               && Executed(s.db, 0) && Stranded(s, 0)
               && Run(true, s, LoneRetry(1, 0)).requests
               == s.requests + [Request(0, Finished(Conflict), false, false, 0)]
  {
    var es := PlaceAlone(0, 0, 1) + FailToStore(0);
    PlaceAloneRuns(true, Initial, 0, 1);
    RunAppend(true, Initial, PlaceAlone(0, 0, 1), FailToStore(0));
    var s0 := Run(true, Initial, PlaceAlone(0, 0, 1));
    FailToStoreRuns(s0);
    var s := Run(true, Initial, es);
    assert PlacedIn(s.db, 0)[0] == Placement(0, 0, 1);
    assert Placement(0, 0, 1) in PlacedIn(s.db, 0);
    RetryOfAnOpenRow(true, s, 0);
  }

  lemma FailToStoreRuns(s: System)
    requires s == System(Shared(Some(0), Some(Row(0, InProgress)), [Placement(0, 0, 1)], [], false, []),
                         [Request(0, Storing(1), true, true, 0)])
    ensures Run(true, s, FailToStore(0)) ==
            System(s.db.(lock := None), [Request(0, Finished(Unavailable), true, true, 0)])
  {
    var es := FailToStore(0);
    var s1 := Next(true, s, es[0]);
    var s2 := Next(true, s1, es[1]);
    var s3 := Next(true, s2, es[2]);
    assert Run(true, s2, es[2..]) == s3;
    assert Run(true, s1, es[1..]) == s3;
  }

  predicate ThrowsLate(e: Event) {
    e.Turn? && e.choice.PlaceThrowsLate?
  }

  predicate NoLateThrow(es: seq<Event>) {
    forall k :: 0 <= k < |es| ==> !ThrowsLate(es[k])
  }

  lemma {:induction false} NoLateThrowNoLog(guarded: bool, s: System, es: seq<Event>)
    requires NoLateThrow(es)
    requires forall life: nat :: LateIn(s.db, life) == []
    ensures forall life: nat :: LateIn(Run(guarded, s, es).db, life) == []
    decreases |es|
  {
    if es != [] {
      var s' := Next(guarded, s, es[0]);
      forall life: nat ensures LateIn(s'.db, life) == [] {
        assert LateIn(s.db, life) == [];
        LateOnlyByThrowing(guarded, s, es[0], life);
      }
      NoLateThrowNoLog(guarded, s', es[1..]);
    }
  }

  lemma LateOnlyByThrowing(guarded: bool, s: System, e: Event, life: nat)
    requires !ThrowsLate(e) && LateIn(s.db, life) == []
    ensures LateIn(Next(guarded, s, e).db, life) == []
  {
  }

  predicate NoExpiry(es: seq<Event>) {
    forall k :: 0 <= k < |es| ==> !es[k].RowExpires?
  }

  lemma {:induction false} NoExpiryIsClean(guarded: bool, s: System, es: seq<Event>)
    requires NoExpiry(es)
    ensures CleanExpiry(guarded, s, es) && Run(guarded, s, es).db.past == s.db.past
    decreases |es|
  {
    if es != [] {
      var s' := Next(guarded, s, es[0]);
      assert s'.db.past == s.db.past;
      NoExpiryIsClean(guarded, s', es[1..]);
    }
  }

  lemma {:induction false} RunAppend(guarded: bool, s: System, first: seq<Event>, second: seq<Event>)
    ensures Run(guarded, s, first + second) == Run(guarded, Run(guarded, s, first), second)
    decreases |first|
  {
    if first == [] {
      assert first + second == second;
    } else {
      assert (first + second)[1..] == first[1..] + second;
      RunAppend(guarded, Next(guarded, s, first[0]), first[1..], second);
    }
  }

  /** Request `id` arrives, takes both locks and its BetService call returns. */
  function PlaceAlone(id: nat, hash: nat, body: nat): seq<Event> {
    [Arrive(hash), Turn(id, Proceed), Turn(id, Proceed), Turn(id, Proceed), Turn(id, PlaceReturns(body))]
  }

  /** Storing the response fails; without the guard the catch block then deletes the row. */
  function FailToStore(id: nat): seq<Event> {
    [Turn(id, Fault), Turn(id, Proceed), Turn(id, Proceed)]
  }

  lemma PlaceAloneRuns(guarded: bool, s: System, hash: nat, body: nat)
    requires s.db.lock.None? && s.db.row.None?
    ensures var id := |s.requests|;
            Run(guarded, s, PlaceAlone(id, hash, body)) ==
            System(Shared(Some(id), Some(Row(hash, InProgress)),
                          s.db.placed + [Placement(id, hash, body)], s.db.late, s.db.answered, s.db.past),
                   s.requests + [Request(hash, Storing(body), true, true, |s.db.past|)])
  {
    var id, es := |s.requests|, PlaceAlone(|s.requests|, hash, body);
    var s1 := Next(guarded, s, es[0]);
    var s2 := Next(guarded, s1, es[1]);
    var s3 := Next(guarded, s2, es[2]);
    var s4 := Next(guarded, s3, es[3]);
    assert s4.requests == s.requests + [Request(hash, Placing, true, false, |s.db.past|)];
    var s5 := Next(guarded, s4, es[4]);
    assert s5.requests == s.requests + [Request(hash, Storing(body), true, true, |s.db.past|)];
    assert Run(guarded, s4, es[4..]) == s5;
    assert Run(guarded, s3, es[3..]) == s5;
    assert Run(guarded, s2, es[2..]) == s5;
    assert Run(guarded, s1, es[1..]) == s5;
  }

  /** The schedule that places twice when the catch block ignores `operationCompleted`. */
  const UnguardedSchedule: seq<Event> := PlaceAlone(0, 0, 1) + FailToStore(0) + PlaceAlone(1, 0, 2)

  lemma UnguardedPlacesTwice()
    ensures NoExpiry(UnguardedSchedule) && NoLateThrow(UnguardedSchedule)
    ensures PlacedIn(Run(false, Initial, UnguardedSchedule).db, 0) == [Placement(0, 0, 1), Placement(1, 0, 2)]
  {
    PlaceAloneRuns(false, Initial, 0, 1);
    var s := Run(false, Initial, PlaceAlone(0, 0, 1));
    var es := FailToStore(0);
    var s1 := Next(false, s, es[0]);
    var s2 := Next(false, s1, es[1]);
    var s3 := Next(false, s2, es[2]);
    assert Run(false, s2, es[2..]) == s3;
    assert Run(false, s1, es[1..]) == s3;
    RunAppend(false, Initial, PlaceAlone(0, 0, 1), es);
    PlaceAloneRuns(false, s3, 0, 2);
    RunAppend(false, Initial, PlaceAlone(0, 0, 1) + es, PlaceAlone(1, 0, 2));
  }

  /** Request 0 places a bet whose call throws all the same; its catch block then lets the retry in. */
  const LateThrow: seq<Event> :=
    [Arrive(0), Turn(0, Proceed), Turn(0, Proceed), Turn(0, Proceed),
     Turn(0, PlaceThrowsLate), Turn(0, Proceed), Turn(0, Proceed)]

  lemma LateThrowRuns()
    ensures Run(true, Initial, LateThrow) ==
            System(Shared(None, None, [], [0], false, []), [Request(0, Finished(Failed), true, false, 0)])
  {
    var o := LateThrow;
    var s1 := Next(true, Initial, o[0]);
    var s2 := Next(true, s1, o[1]);
    var s3 := Next(true, s2, o[2]);
    var s4 := Next(true, s3, o[3]);
    assert s4 == System(Shared(Some(0), Some(Row(0, InProgress)), [], [], false, []), [Request(0, Placing, true, false, 0)]);
    var s5 := Next(true, s4, o[4]);
    var s6 := Next(true, s5, o[5]);
    var s7 := Next(true, s6, o[6]);
    assert Run(true, s6, o[6..]) == s7;
    assert Run(true, s5, o[5..]) == s7;
    assert Run(true, s4, o[4..]) == s7;
    assert Run(true, s3, o[3..]) == s7;
    assert Run(true, s2, o[2..]) == s7;
    assert Run(true, s1, o[1..]) == s7;
  }

  const LateThrowSchedule: seq<Event> := LateThrow + PlaceAlone(1, 0, 2)

  /** Even the guarded handler then has two bets take effect in one row life. */
  lemma LateThrowActsTwice()
    ensures NoExpiry(LateThrowSchedule)
    ensures var db := Run(true, Initial, LateThrowSchedule).db;
            LateIn(db, 0) == [0] && PlacedIn(db, 0) == [Placement(1, 0, 2)]
  {
    LateThrowRuns();
    hide Next;
    RunAppend(true, Initial, LateThrow, PlaceAlone(1, 0, 2));
    PlaceAloneRuns(true, Run(true, Initial, LateThrow), 0, 2);
  }

  /** Request 0 reaches its BetService call, then both its locks expire. */
  const Overtaken: seq<Event> :=
    [Arrive(0), Turn(0, Proceed), Turn(0, Proceed), Turn(0, Proceed), LockExpires, RowExpires]

  /** Its call then throws, and its catch block deletes whatever in-progress row is there. */
  const StaleRelease: seq<Event> :=
    [Turn(0, PlaceThrows), Turn(0, Proceed), Turn(0, Proceed), LockExpires]

  lemma OvertakenRuns()
    ensures Run(true, Initial, Overtaken) ==
            System(Shared(None, None, [], [], false, [Life([], [], false)]), [Request(0, Placing, true, false, 0)])
  {
    var o := Overtaken;
    var s1 := Next(true, Initial, o[0]);
    var s2 := Next(true, s1, o[1]);
    var s3 := Next(true, s2, o[2]);
    var s4 := Next(true, s3, o[3]);
    var s5 := Next(true, s4, o[4]);
    var s6 := Next(true, s5, o[5]);
    assert Run(true, s5, o[5..]) == s6;
    assert Run(true, s4, o[4..]) == s6;
    assert Run(true, s3, o[3..]) == s6;
    assert Run(true, s2, o[2..]) == s6;
    assert Run(true, s1, o[1..]) == s6;
  }

  lemma StaleReleaseRuns(s: System)
    requires |s.requests| > 0 && s.requests[0] == Request(0, Placing, true, false, 0)
    requires s.db.lock != Some(0) && s.db.row.Some? && s.db.row.value.state.InProgress?
    ensures Run(true, s, StaleRelease) ==
            System(s.db.(lock := None, row := None),
                   s.requests[0 := Request(0, Finished(Failed), true, false, 0)])
  {
    RunFour(true, s, Turn(0, PlaceThrows), Turn(0, Proceed), Turn(0, Proceed), LockExpires);
    ThrowsAndUnlocks(s);
    hide Advance;
    var s2 := System(s.db, s.requests[0 := Request(0, Releasing(Failed), true, false, 0)]);
    DeletesTheRow(s2);
    assert s2.requests[0 := Request(0, Finished(Failed), true, false, 0)]
        == s.requests[0 := Request(0, Finished(Failed), true, false, 0)];
  }

  lemma ThrowsAndUnlocks(s: System)
    requires |s.requests| > 0 && s.requests[0] == Request(0, Placing, true, false, 0) && s.db.lock != Some(0)
    ensures Next(true, Next(true, s, Turn(0, PlaceThrows)), Turn(0, Proceed)) ==
            System(s.db, s.requests[0 := Request(0, Releasing(Failed), true, false, 0)])
  {
    var s1 := Next(true, s, Turn(0, PlaceThrows));
    assert s1 == System(s.db, s.requests[0 := Request(0, Unlocking(Failed), true, false, 0)]);
  }

  lemma DeletesTheRow(s: System)
    requires |s.requests| > 0 && s.requests[0] == Request(0, Releasing(Failed), true, false, 0)
    requires s.db.row.Some? && s.db.row.value.state.InProgress?
    ensures Next(true, s, Turn(0, Proceed)) ==
            System(s.db.(row := None), s.requests[0 := Request(0, Finished(Failed), true, false, 0)])
  {
  }

  lemma RunFour(guarded: bool, s: System, a: Event, b: Event, c: Event, d: Event)
    ensures Run(guarded, s, [a, b, c, d]) == Next(guarded, Next(guarded, Next(guarded, Next(guarded, s, a), b), c), d)
  {
    hide Next;
    var s1 := Next(guarded, s, a);
    var s2 := Next(guarded, s1, b);
    var s3 := Next(guarded, s2, c);
    assert [a, b, c, d][1..] == [b, c, d] && [b, c, d][1..] == [c, d] && [c, d][1..] == [d] && [d][1..] == [];
    assert Run(guarded, s3, [d]) == Next(guarded, s3, d);
    assert Run(guarded, s2, [c, d]) == Run(guarded, s3, [d]);
    assert Run(guarded, s1, [b, c, d]) == Run(guarded, s2, [c, d]);
  }

  const StaleSchedule: seq<Event> := Overtaken + PlaceAlone(1, 0, 1) + StaleRelease + PlaceAlone(2, 0, 2)

  /**
   Why `AtMostOneBetPerRowLife` asks for clean expiry even of the guarded
   handler: the delete of the in-progress row names no owner, so a request that
   outlived its own row removes the row of the next life and two bets are placed.
   */
  lemma StaleReleasePlacesTwice()
    ensures NoLateThrow(StaleSchedule)
    ensures PlacedIn(Run(true, Initial, StaleSchedule).db, 1) == [Placement(1, 0, 1), Placement(2, 0, 2)]
  {
    OvertakenRuns();
    hide Next;
    var a := Run(true, Initial, Overtaken);
    PlaceAloneRuns(true, a, 0, 1);
    RunAppend(true, Initial, Overtaken, PlaceAlone(1, 0, 1));
    var b := Run(true, a, PlaceAlone(1, 0, 1));
    StaleReleaseRuns(b);
    RunAppend(true, Initial, Overtaken + PlaceAlone(1, 0, 1), StaleRelease);
    PlaceAloneRuns(true, Run(true, b, StaleRelease), 0, 2);
    RunAppend(true, Initial, Overtaken + PlaceAlone(1, 0, 1) + StaleRelease, PlaceAlone(2, 0, 2));
  }

  /**
   What may happen: whether the catch block tests `operationCompleted`, whether a
   BetService call may act and then throw, and whether a row may expire under a
   request that still holds it.
   */
  datatype Discipline = Discipline(guarded: bool, mayThrowLate: bool, mayExpireEarly: bool)

  ghost predicate Admits(d: Discipline, es: seq<Event>) {
    && (d.mayThrowLate || NoLateThrow(es))
    && (d.mayExpireEarly || CleanExpiry(d.guarded, Initial, es))
  }

  ghost predicate OneCallPerLife(d: Discipline) {
    forall es, life: nat :: Admits(d, es) ==> |PlacedIn(Run(d.guarded, Initial, es).db, life)| <= 1
  }

  ghost predicate OneEffectPerLife(d: Discipline) {
    forall es, life: nat :: Admits(d, es) ==> Effects(Run(d.guarded, Initial, es).db, life) <= 1
  }

  lemma GuardedActsOnce(es: seq<Event>, life: nat)
    requires CleanExpiry(true, Initial, es)
    ensures |PlacedIn(Run(true, Initial, es).db, life)| <= 1
    ensures NoLateThrow(es) ==> Effects(Run(true, Initial, es).db, life) <= 1
  {
    RunKeepsInv(Initial, es);
    if NoLateThrow(es) {
      NoLateThrowNoLog(true, Initial, es);
    }
  }

  /** A run in which a row life sees two calls return, unless the discipline rules it out. */
  lemma TwoCallsReturn(d: Discipline) returns (es: seq<Event>, life: nat)
    requires !d.guarded || d.mayExpireEarly
    ensures Admits(d, es) && |PlacedIn(Run(d.guarded, Initial, es).db, life)| == 2
  {
    if !d.guarded {
      es, life := UnguardedSchedule, 0;
      UnguardedPlacesTwice();
      NoExpiryIsClean(false, Initial, es);
    } else {
      es, life := StaleSchedule, 1;
      StaleReleasePlacesTwice();
    }
  }

  /**
   At most one BetService call returns per row life, over every run, if and only if
   the catch block tests `operationCompleted` (`executeBet` does; the claim route
   does not) and no row expires under a request that still holds it, for the delete
   of an in-progress row names no owner.
   */
  lemma OneCallPerLifeIff(d: Discipline)
    ensures OneCallPerLife(d) <==> d.guarded && !d.mayExpireEarly
  {
    if d.guarded && !d.mayExpireEarly {
      forall es, life: nat | Admits(d, es) ensures |PlacedIn(Run(d.guarded, Initial, es).db, life)| <= 1 {
        GuardedActsOnce(es, life);
      }
    } else {
      var es, life := TwoCallsReturn(d);
    }
  }

  /**
   "One key, one bet": at most one bet takes effect per row life, over every run, if
   and only if moreover no BetService call throws after it acted. A call that does is
   taken for one that did nothing: the row is released and the retry bets again.
   */
  lemma OneEffectPerLifeIff(d: Discipline)
    ensures OneEffectPerLife(d) <==> d.guarded && !d.mayExpireEarly && !d.mayThrowLate
  {
    if d.guarded && !d.mayExpireEarly && !d.mayThrowLate {
      forall es, life: nat | Admits(d, es) ensures Effects(Run(d.guarded, Initial, es).db, life) <= 1 {
        GuardedActsOnce(es, life);
      }
    } else if d.guarded && !d.mayExpireEarly {
      LateThrowActsTwice();
      NoExpiryIsClean(true, Initial, LateThrowSchedule);
      assert Effects(Run(d.guarded, Initial, LateThrowSchedule).db, 0) == 2;
    } else {
      var es, life := TwoCallsReturn(d);
      assert Effects(Run(d.guarded, Initial, es).db, life) >= 2;
    }
  }

  /**
   A command never takes the Redis lock from another owner: it either sets a free
   lock to its own token or frees the lock that holds its own token.
   */
  lemma LockChangesOnlyByOwner(guarded: bool, id: nat, r: Request, db: Shared, c: Choice)
    ensures var lock' := Advance(guarded, id, r, db, c).1.lock;
            lock' == db.lock || (db.lock.None? && lock' == Some(id)) || (db.lock == Some(id) && lock'.None?)
  {
  }

  /**
   Once a bet is stored, a later request that finds the lock free is answered
   without executing: with the stored body if its own body hashes the same, and
   with a conflict otherwise.
   */
  lemma RetryReplays(guarded: bool, s: System, hash: nat)
    requires s.db.lock.None? && s.db.row.Some? && s.db.row.value.state.Done?
    ensures var id := |s.requests|;
            var s' := Run(guarded, s, [Arrive(hash), Turn(id, Proceed), Turn(id, Proceed), Turn(id, Proceed)]);
            var row := s.db.row.value;
            && s'.db == s.db
            && s'.requests == s.requests + [
                 if hash == row.hash
                 then Request(hash, Finished(Replayed(row.state.body)), false, false, |s.db.past|)
                 else Request(hash, Finished(Conflict), false, false, 0)]
  {
    var id := |s.requests|;
    var es := [Arrive(hash), Turn(id, Proceed), Turn(id, Proceed), Turn(id, Proceed)];
    var s1 := Next(guarded, s, es[0]);
    var s2 := Next(guarded, s1, es[1]);
    var s3 := Next(guarded, s2, es[2]);
    var s4 := Next(guarded, s3, es[3]);
    assert Run(guarded, s3, es[3..]) == s4;
    assert Run(guarded, s2, es[2..]) == s4;
    assert Run(guarded, s1, es[1..]) == s4;
  }
}
