/**
 What a request under one idempotency key is answered, told by the commands it
 issued and by the lock and the row as they met them: who gets past the Redis
 lock, what a request that does not has left behind, and what each outcome comes
 from. None of it asks for clean expiries, and all of it holds with and without the
 guard of the catch block.
 */
module IdempotentAnswers {
  import opened Wrappers
  import opened IdempotentBet

  /** The request is at the Redis lock. */
  predicate Waiting(s: System, id: nat) {
    id < |s.requests| && s.requests[id].phase.Begin?
  }

  predicate IsTurn(e: Event, id: nat) {
    e.Turn? && e.id == id
  }

  /** The event takes a waiting request past the lock: there is none, or the request sets it to its own id. */
  ghost predicate Enters(guarded: bool, s: System, e: Event, id: nat) {
    && IsTurn(e, id) && Waiting(s, id)
    && (|| e.choice.Bypass?
        || (e.choice.Proceed? && s.db.lock.None? && Next(guarded, s, e).db.lock == Some(id)))
  }

  /** How the event ends a waiting request, if it does: its lock command fails, or it gives up. */
  function Refusal(s: System, e: Event, id: nat): Option<Outcome> {
    if !IsTurn(e, id) || !Waiting(s, id) then None
    else
      match e.choice
      case Fault => Some(Unavailable)
      case LateFault => Some(Unavailable)
      case GiveUp => Some(Conflict)
      case _ => None
  }

  ghost predicate Entered(guarded: bool, s: System, es: seq<Event>, id: nat)
    decreases |es|
  {
    es != [] && (Enters(guarded, s, es[0], id) || Entered(guarded, Next(guarded, s, es[0]), es[1..], id))
  }

  ghost function Refused(guarded: bool, s: System, es: seq<Event>, id: nat): Option<Outcome>
    decreases |es|
  {
    if es == [] then None
    else if Refusal(s, es[0], id).Some? then Refusal(s, es[0], id)
    else Refused(guarded, Next(guarded, s, es[0]), es[1..], id)
  }

  /** No turn of the request writes the row or makes a BetService call that takes effect. */
  ghost predicate HandsOff(guarded: bool, s: System, es: seq<Event>, id: nat)
    decreases |es|
  {
    es != [] ==>
      var s' := Next(guarded, s, es[0]);
      && (IsTurn(es[0], id) ==> s'.db == s.db.(lock := s'.db.lock))
      && HandsOff(guarded, s', es[1..], id)
  }

  lemma {:induction false} FinishedIsDone(guarded: bool, s: System, es: seq<Event>, id: nat)
    requires id < |s.requests| && s.requests[id].phase.Finished?
    ensures var end := Run(guarded, s, es);
            id < |end.requests| && end.requests[id] == s.requests[id] && HandsOff(guarded, s, es, id)
    decreases |es|
  {
    if es != [] {
      FinishedIsDone(guarded, Next(guarded, s, es[0]), es[1..], id);
    }
  }

  /** Nobody comes back to the lock. */
  lemma {:induction false} PastTheLock(guarded: bool, s: System, es: seq<Event>, id: nat)
    requires id < |s.requests| && !Waiting(s, id)
    ensures var end := Run(guarded, s, es);
            && id < |end.requests| && !Waiting(end, id)
            && !Entered(guarded, s, es, id) && Refused(guarded, s, es, id).None?
    decreases |es|
  {
    if es != [] {
      PastTheLock(guarded, Next(guarded, s, es[0]), es[1..], id);
    }
  }

  /** What one event does to a waiting request: it enters, is refused, or goes on waiting as it was. */
  lemma AtTheLock(guarded: bool, s: System, e: Event, id: nat)
    requires Waiting(s, id)
    ensures var s' := Next(guarded, s, e);
            && id < |s'.requests|
            && (IsTurn(e, id) ==> s'.db == s.db.(lock := s'.db.lock))
            && (Enters(guarded, s, e, id) ==> !Waiting(s', id) && Refusal(s, e, id).None?)
            && (Refusal(s, e, id).Some? ==> s'.requests[id].phase == Finished(Refusal(s, e, id).value))
            && (!Enters(guarded, s, e, id) && Refusal(s, e, id).None? ==> Waiting(s', id))
  {
  }

  lemma {:induction false} FateAtTheLock(guarded: bool, s: System, es: seq<Event>, id: nat)
    requires Waiting(s, id)
    ensures var end, refused := Run(guarded, s, es), Refused(guarded, s, es, id);
            && id < |end.requests|
            && (Waiting(end, id) <==> !Entered(guarded, s, es, id) && refused.None?)
            && (Entered(guarded, s, es, id) ==> refused.None?)
            && (!Entered(guarded, s, es, id) ==> HandsOff(guarded, s, es, id))
            && (refused.Some? ==> end.requests[id].phase == Finished(refused.value))
    decreases |es|
  {
    hide Next, Enters, Refusal;
    if es != [] {
      var s' := Next(guarded, s, es[0]);
      AtTheLock(guarded, s, es[0], id);
      if Waiting(s', id) {
        FateAtTheLock(guarded, s', es[1..], id);
      } else {
        PastTheLock(guarded, s', es[1..], id);
        if Refusal(s, es[0], id).Some? {
          FinishedIsDone(guarded, s', es[1..], id);
        }
      }
    }
  }

  /** A request that has not arrived yet does nothing; then it arrives at the lock. */
  lemma {:induction false} FromTheArrival(guarded: bool, s: System, es: seq<Event>, id: nat)
    requires |s.requests| <= id < |Run(guarded, s, es).requests|
    ensures var end, refused := Run(guarded, s, es), Refused(guarded, s, es, id);
            && (Waiting(end, id) <==> !Entered(guarded, s, es, id) && refused.None?)
            && (Entered(guarded, s, es, id) ==> refused.None?)
            && (!Entered(guarded, s, es, id) ==> HandsOff(guarded, s, es, id))
            && (refused.Some? ==> end.requests[id].phase == Finished(refused.value))
    decreases |es|
  {
    hide Enters, Refusal;
    if es != [] {
      var s' := Next(guarded, s, es[0]);
      NotThere(guarded, s, es[0], id);
      hide Next;
      if id < |s'.requests| {
        FateAtTheLock(guarded, s', es[1..], id);
      } else {
        FromTheArrival(guarded, s', es[1..], id);
      }
    }
  }

  lemma NotThere(guarded: bool, s: System, e: Event, id: nat)
    requires |s.requests| <= id
    ensures var s' := Next(guarded, s, e);
            && !Enters(guarded, s, e, id) && Refusal(s, e, id).None?
            && (IsTurn(e, id) ==> s' == s)
            && (id < |s'.requests| ==> Waiting(s', id))
  {
  }

  /**
   The lock fails closed, over every run. A request is past the lock, or done with
   the key, exactly if it entered or was refused, and never both. It enters only
   when there is no lock or by setting a free lock to its own id. One whose lock
   command fails ends in Unavailable and one that gives up ends in Conflict, and no
   request writes the row or places a bet without having entered.
   */
  lemma LockFailsClosed(guarded: bool, es: seq<Event>, id: nat)
    requires id < |Run(guarded, Initial, es).requests|
    ensures var end, refused := Run(guarded, Initial, es), Refused(guarded, Initial, es, id);
            && (end.requests[id].phase.Begin? <==> !Entered(guarded, Initial, es, id) && refused.None?)
            && (refused.Some? ==> !Entered(guarded, Initial, es, id))
            && (refused.Some? ==> end.requests[id].phase == Finished(refused.value))
            && (!Entered(guarded, Initial, es, id) ==> HandsOff(guarded, Initial, es, id))
  {
    FromTheArrival(guarded, Initial, es, id);
  }

  /** Nobody waits at a free lock: the next command that goes through takes it. */
  lemma FreeLockIsTaken(guarded: bool, s: System, id: nat)
    requires Waiting(s, id)
    ensures var s' := Next(guarded, s, Turn(id, Proceed));
            && (Enters(guarded, s, Turn(id, Proceed), id) <==> s.db.lock.None?)
            && (s.db.lock.Some? ==> s' == s)
  {
    assert s.requests[id := s.requests[id]] == s.requests;
  }

  // ---------------------------------------------------------------------------
  // Where each answer comes from
  // ---------------------------------------------------------------------------

  /** The request reads the row. */
  predicate Reads(r: Request) {
    r.phase.Lookup? || r.phase.Polling?
  }

  /** The answer that a command decides for the request, given the row and how the command went. */
  function Answers(r: Request, row: Option<Row>, c: Choice): Option<Outcome> {
    if (c.Fault? || c.LateFault?) && (r.phase.Begin? || Reads(r) || r.phase.Inserting? || r.phase.Storing?) then
      Some(Unavailable)
    else if c.GiveUp? && r.phase.Begin? then Some(Conflict)
    else if (c.PlaceThrows? || c.PlaceThrowsLate?) && r.phase.Placing? then Some(Failed)
    else if !c.Proceed? then None
    else if r.phase.Storing? then Some(Fresh(r.phase.body))
    else if Reads(r) && row.Some? && row.value.state.Done? then
      Some(if row.value.hash == r.hash then Replayed(row.value.state.body) else Conflict)
    else if r.phase.Polling? && r.phase.attempts + 1 >= POLL_ATTEMPTS then Some(Conflict)
    else None
  }

  function Verdict(s: System, e: Event, id: nat): Option<Outcome> {
    if IsTurn(e, id) && id < |s.requests| then Answers(s.requests[id], s.db.row, e.choice) else None
  }

  function OutcomeOf(r: Request): Option<Outcome> {
    match r.phase
    case Unlocking(o) => Some(o)
    case Releasing(o) => Some(o)
    case Finished(o) => Some(o)
    case _ => None
  }

  /** The first answer decided for the request. */
  ghost function Decided(guarded: bool, s: System, es: seq<Event>, id: nat): Option<Outcome>
    decreases |es|
  {
    if es == [] then None
    else if Verdict(s, es[0], id).Some? then Verdict(s, es[0], id)
    else Decided(guarded, Next(guarded, s, es[0]), es[1..], id)
  }

  lemma AdvanceAnswers(guarded: bool, id: nat, r: Request, db: Shared, c: Choice)
    ensures OutcomeOf(Advance(guarded, id, r, db, c).0) ==
            if OutcomeOf(r).Some? then OutcomeOf(r) else Answers(r, db.row, c)
  {
    if r.phase.Lookup? {
    } else if r.phase.Polling? {
    } else if r.phase.Begin? || r.phase.Inserting? {
    } else if r.phase.Placing? || r.phase.Storing? {
    } else {
    }
  }

  lemma VerdictStep(guarded: bool, s: System, e: Event, id: nat)
    requires id < |s.requests|
    ensures var s' := Next(guarded, s, e);
            && id < |s'.requests|
            && OutcomeOf(s'.requests[id]) ==
               if OutcomeOf(s.requests[id]).Some? then OutcomeOf(s.requests[id]) else Verdict(s, e, id)
  {
    hide Advance, OutcomeOf, Answers;
    if IsTurn(e, id) {
      AdvanceAnswers(guarded, id, s.requests[id], s.db, e.choice);
    }
  }

  lemma {:induction false} DecidedFrom(guarded: bool, s: System, es: seq<Event>, id: nat)
    requires id < |s.requests|
    ensures var end := Run(guarded, s, es);
            && id < |end.requests|
            && OutcomeOf(end.requests[id]) ==
               if OutcomeOf(s.requests[id]).Some? then OutcomeOf(s.requests[id]) else Decided(guarded, s, es, id)
    decreases |es|
  {
    hide Next, Verdict, OutcomeOf, Answers;
    if es != [] {
      VerdictStep(guarded, s, es[0], id);
      DecidedFrom(guarded, Next(guarded, s, es[0]), es[1..], id);
    }
  }

  lemma NoVerdictYet(guarded: bool, s: System, e: Event, id: nat)
    requires |s.requests| <= id
    ensures Verdict(s, e, id).None?
    ensures id < |Next(guarded, s, e).requests| ==> OutcomeOf(Next(guarded, s, e).requests[id]).None?
  {
  }

  lemma {:induction false} DecidedSinceArrival(guarded: bool, s: System, es: seq<Event>, id: nat)
    requires |s.requests| <= id < |Run(guarded, s, es).requests|
    ensures OutcomeOf(Run(guarded, s, es).requests[id]) == Decided(guarded, s, es, id)
    decreases |es|
  {
    hide Next, Verdict, OutcomeOf, Answers;
    if es != [] {
      var s' := Next(guarded, s, es[0]);
      NoVerdictYet(guarded, s, es[0], id);
      if id < |s'.requests| {
        DecidedFrom(guarded, s', es[1..], id);
      } else {
        DecidedSinceArrival(guarded, s', es[1..], id);
      }
    }
  }

  /**
   Over every run, the answer of a request is the first that one of its commands
   decides, and nothing changes it later: Unavailable for a lock, row or store
   command that fails, Failed for a BetService call that throws, a replay or a
   conflict for a finished row of the same or another body, a conflict for giving up
   at the lock or on the last poll, and its own body for a response it stored.
   */
  lemma AnswerIsTheFirstDecided(guarded: bool, es: seq<Event>, id: nat)
    requires id < |Run(guarded, Initial, es).requests|
    ensures OutcomeOf(Run(guarded, Initial, es).requests[id]) == Decided(guarded, Initial, es, id)
  {
    DecidedSinceArrival(guarded, Initial, es, id);
  }

  // ---------------------------------------------------------------------------
  // Locks that are left behind
  // ---------------------------------------------------------------------------

  /** The request will not touch the Redis lock again. */
  predicate PastRelease(s: System, id: nat) {
    id < |s.requests| && (s.requests[id].phase.Releasing? || s.requests[id].phase.Finished?)
  }

  /** The lock command took effect without being acknowledged, or the release fails while the lock is the request's. */
  predicate Forgets(s: System, e: Event, id: nat) {
    && IsTurn(e, id) && id < |s.requests|
    && (|| (e.choice.LateFault? && s.requests[id].phase.Begin? && s.db.lock.None?)
        || (e.choice.Fault? && s.requests[id].phase.Unlocking? && s.db.lock == Some(id)))
  }

  predicate NoLockExpiry(es: seq<Event>) {
    forall k :: 0 <= k < |es| ==> !es[k].LockExpires?
  }

  /** The request forgets the lock, and it does not expire in what follows. */
  ghost predicate LeavesTheLock(guarded: bool, s: System, es: seq<Event>, id: nat)
    decreases |es|
  {
    es != [] &&
    (if Forgets(s, es[0], id) then NoLockExpiry(es[1..]) else LeavesTheLock(guarded, Next(guarded, s, es[0]), es[1..], id))
  }

  /** A request that waits, or has not arrived, does not have the lock. */
  predicate Lockless(s: System, id: nat) {
    (id < |s.requests| ==> s.requests[id].phase.Begin?) ==> s.db.lock != Some(id)
  }

  lemma LockAfter(guarded: bool, s: System, e: Event, id: nat)
    requires id < |s.requests| && Lockless(s, id)
    ensures var s' := Next(guarded, s, e);
            && id < |s'.requests| && Lockless(s', id)
            && (PastRelease(s, id) ==>
                  && PastRelease(s', id) && !Forgets(s, e, id)
                  && (s'.db.lock == Some(id) <==> s.db.lock == Some(id) && !e.LockExpires?))
            && (!PastRelease(s, id) ==> (PastRelease(s', id) && s'.db.lock == Some(id) <==> Forgets(s, e, id)))
  {
    if e.Turn? && e.id < |s.requests| && e.id != id {
      LockChangesOnlyByOwner(guarded, e.id, s.requests[e.id], s.db, e.choice);
    }
  }

  lemma {:induction false} LockLeftFrom(guarded: bool, s: System, es: seq<Event>, id: nat)
    requires id < |s.requests| && Lockless(s, id)
    ensures var end := Run(guarded, s, es);
            (PastRelease(end, id) && end.db.lock == Some(id)) <==>
            if PastRelease(s, id) then s.db.lock == Some(id) && NoLockExpiry(es) else LeavesTheLock(guarded, s, es, id)
    ensures PastRelease(s, id) ==> !LeavesTheLock(guarded, s, es, id)
    decreases |es|
  {
    hide Next, PastRelease, Forgets, Lockless;
    if es != [] {
      var s' := Next(guarded, s, es[0]);
      LockAfter(guarded, s, es[0], id);
      LockLeftFrom(guarded, s', es[1..], id);
      assert NoLockExpiry(es) <==> !es[0].LockExpires? && NoLockExpiry(es[1..]);
    }
  }

  lemma NotThereYet(guarded: bool, s: System, e: Event, id: nat)
    requires |s.requests| <= id && Lockless(s, id)
    ensures Lockless(Next(guarded, s, e), id) && !Forgets(s, e, id)
  {
    if e.Turn? && e.id < |s.requests| {
      LockChangesOnlyByOwner(guarded, e.id, s.requests[e.id], s.db, e.choice);
    }
  }

  lemma {:induction false} LockLeftSinceArrival(guarded: bool, s: System, es: seq<Event>, id: nat)
    requires |s.requests| <= id < |Run(guarded, s, es).requests| && Lockless(s, id)
    ensures var end := Run(guarded, s, es);
            (PastRelease(end, id) && end.db.lock == Some(id)) <==> LeavesTheLock(guarded, s, es, id)
    decreases |es|
  {
    hide Forgets, Lockless;
    if es != [] {
      var s' := Next(guarded, s, es[0]);
      NotThere(guarded, s, es[0], id);
      NotThereYet(guarded, s, es[0], id);
      hide Next;
      if id < |s'.requests| {
        LockLeftFrom(guarded, s', es[1..], id);
      } else {
        LockLeftSinceArrival(guarded, s', es[1..], id);
      }
    }
  }

  /**
   A request that is done leaves the Redis lock set to its own id, for others to wait
   out, if and only if its lock command took effect unacknowledged or its release
   failed, and the lock has not expired since. On every other way out it gives the
   lock back.
   */
  lemma LockLeftBehindIff(guarded: bool, es: seq<Event>, id: nat)
    requires id < |Run(guarded, Initial, es).requests|
    ensures var end := Run(guarded, Initial, es);
            (PastRelease(end, id) && end.db.lock == Some(id)) <==> LeavesTheLock(guarded, Initial, es, id)
  {
    LockLeftSinceArrival(guarded, Initial, es, id);
  }

  // ---------------------------------------------------------------------------
  // Nobody acts without having looked
  // ---------------------------------------------------------------------------

  /** The request looks for the row and finds none. */
  predicate LooksInVain(s: System, e: Event, id: nat) {
    IsTurn(e, id) && id < |s.requests| && s.requests[id].phase.Lookup? && e.choice.Proceed? && s.db.row.None?
  }

  ghost predicate LookedInVain(guarded: bool, s: System, es: seq<Event>, id: nat)
    decreases |es|
  {
    es != [] && (LooksInVain(s, es[0], id) || LookedInVain(guarded, Next(guarded, s, es[0]), es[1..], id))
  }

  /** The request is about to insert the row, or has. */
  predicate TakesTheRow(s: System, id: nat) {
    id < |s.requests| &&
    (s.requests[id].lockAcquired || s.requests[id].phase.Inserting? || s.requests[id].phase.Placing? || s.requests[id].phase.Storing?)
  }

  lemma TakingStep(guarded: bool, s: System, e: Event, id: nat)
    requires !TakesTheRow(s, id) && TakesTheRow(Next(guarded, s, e), id)
    ensures LooksInVain(s, e, id)
  {
  }

  lemma {:induction false} TakenFrom(guarded: bool, s: System, es: seq<Event>, id: nat)
    requires !TakesTheRow(s, id) && TakesTheRow(Run(guarded, s, es), id)
    ensures LookedInVain(guarded, s, es, id)
    decreases |es|
  {
    hide TakesTheRow, LooksInVain, Next;
    if TakesTheRow(Next(guarded, s, es[0]), id) {
      TakingStep(guarded, s, es[0], id);
    } else {
      TakenFrom(guarded, Next(guarded, s, es[0]), es[1..], id);
    }
  }

  /** Over every run, a request that inserts the row, or goes on to place a bet, has looked for it and found none. */
  lemma LooksBeforeItTakes(guarded: bool, es: seq<Event>, id: nat)
    requires TakesTheRow(Run(guarded, Initial, es), id)
    ensures LookedInVain(guarded, Initial, es, id)
  {
    TakenFrom(guarded, Initial, es, id);
  }

  // ---------------------------------------------------------------------------
  // A row whose insert was not acknowledged
  // ---------------------------------------------------------------------------

  /** The row is in progress and nobody is at work on it. */
  ghost predicate Orphaned(s: System, row: Row) {
    && Inv(s) && s.db.row == Some(row) && row.state.InProgress? && s.db.placed == []
    && forall i :: 0 <= i < |s.requests| ==> !Holder(s.requests[i])
  }

  lemma OrphanTurn(s: System, row: Row, id: nat, c: Choice)
    requires Orphaned(s, row) && id < |s.requests|
    ensures var s' := Next(true, s, Turn(id, c));
            s'.db == s.db.(lock := s'.db.lock) && !Holder(s'.requests[id])
  {
    assert !Holder(s.requests[id]) && RequestInv(s.db, id, s.requests[id]);
    AdvanceKeepsOwn(id, s.requests[id], s.db, c);
  }

  lemma {:induction false} OrphanStays(s: System, row: Row, es: seq<Event>)
    requires Orphaned(s, row) && NoExpiry(es)
    ensures var end := Run(true, s, es);
            Orphaned(end, row) && end.db == s.db.(lock := end.db.lock)
    decreases |es|
  {
    hide Inv, Next;
    if es != [] {
      var s' := Next(true, s, es[0]);
      NextKeepsInv(s, es[0]);
      OrphanStep(s, row, es[0]);
      OrphanStays(s', row, es[1..]);
    }
  }

  lemma OrphanStep(s: System, row: Row, e: Event)
    requires Orphaned(s, row) && !e.RowExpires? && Inv(Next(true, s, e))
    ensures Orphaned(Next(true, s, e), row) && Next(true, s, e).db == s.db.(lock := Next(true, s, e).db.lock)
  {
    hide Inv;
    if e.Turn? && e.id < |s.requests| {
      OrphanTurn(s, row, e.id, e.choice);
    }
  }

  /**
   An insert of the row that takes effect unacknowledged strands its key: the request
   is told Unavailable and does not hold the row, and until the row expires nobody
   places a bet under the key, whatever else happens.
   */
  lemma UnacknowledgedInsertStrands(es: seq<Event>, id: nat, more: seq<Event>)
    requires CleanExpiry(true, Initial, es) && NoExpiry(more)
    requires var s := Run(true, Initial, es);
             id < |s.requests| && s.requests[id].phase.Inserting? && s.db.row.None?
    ensures var s := Run(true, Initial, es);
            var s' := Next(true, s, Turn(id, LateFault));
            var end := Run(true, s', more);
            && OutcomeOf(s'.requests[id]) == Some(Unavailable) && !s'.requests[id].lockAcquired
            && end.db == s.db.(row := Some(Row(s.requests[id].hash, InProgress)), lock := end.db.lock)
            && end.db.placed == []
  {
    RunKeepsInv(Initial, es);
    var s := Run(true, Initial, es);
    var s' := Next(true, s, Turn(id, LateFault));
    NextKeepsInv(s, Turn(id, LateFault));
    assert RequestInv(s.db, id, s.requests[id]);
    forall i | 0 <= i < |s'.requests| ensures !Holder(s'.requests[i]) {
      assert RequestInv(s.db, i, s.requests[i]);
    }
    OrphanStays(s', Row(s.requests[id].hash, InProgress), more);
  }

  /**
   A request that gives its row back after a failure frees the key for a retry, and
   does so exactly unless the delete fails; then the row blocks it until it expires.
   */
  lemma FailureFreesTheKeyIff(es: seq<Event>, id: nat, c: Choice)
    requires CleanExpiry(true, Initial, es)
    requires var s := Run(true, Initial, es); id < |s.requests| && s.requests[id].phase.Releasing?
    ensures var s := Run(true, Initial, es);
            var s' := Next(true, s, Turn(id, c));
            && s'.requests[id].phase == Finished(s.requests[id].phase.outcome)
            && (s'.db.row.None? <==> !c.Fault?) && (c.Fault? ==> Orphaned(s', s.db.row.value))
  {
    RunKeepsInv(Initial, es);
    var s := Run(true, Initial, es);
    var s' := Next(true, s, Turn(id, c));
    NextKeepsInv(s, Turn(id, c));
    assert RequestInv(s.db, id, s.requests[id]);
    forall i | 0 <= i < |s'.requests| && c.Fault? ensures !Holder(s'.requests[i]) {
      assert RequestInv(s.db, i, s.requests[i]);
    }
  }

  // ---------------------------------------------------------------------------
  // Left alone, every request comes to an end
  // ---------------------------------------------------------------------------

  /** The next command of the request goes through; a BetService call returns `body`. */
  function Unhindered(r: Request, body: nat): Choice {
    if r.phase.Placing? then PlaceReturns(body) else Proceed
  }

  /** `n` commands of the request that go through, with no other event between them. */
  ghost function Alone(guarded: bool, s: System, id: nat, body: nat, n: nat): System
    requires id < |s.requests|
    decreases n
  {
    if n == 0 then s
    else Alone(guarded, Next(guarded, s, Turn(id, Unhindered(s.requests[id], body))), id, body, n - 1)
  }

  /** How many commands a request needs at most when it is left alone. */
  function Left(r: Request, row: Option<Row>): nat {
    match r.phase
    case Begin => POLL_ATTEMPTS + 5
    case Lookup => POLL_ATTEMPTS + 4
    case Polling(attempts) => (if attempts < POLL_ATTEMPTS then POLL_ATTEMPTS - attempts else 0) + 3
    case Inserting => if row.None? then 5 else POLL_ATTEMPTS + 5
    case Placing => 4
    case Storing(_) => 3
    case Unlocking(_) => 2
    case Releasing(_) => 1
    case Finished(_) => 0
  }

  predicate Held(s: System, id: nat) {
    Waiting(s, id) && s.db.lock.Some?
  }

  lemma OneStepCloser(guarded: bool, s: System, id: nat, body: nat)
    requires id < |s.requests| && !Held(s, id)
    ensures var s' := Next(guarded, s, Turn(id, Unhindered(s.requests[id], body)));
            && |s'.requests| == |s.requests| && !Held(s', id)
            && (Left(s.requests[id], s.db.row) > 0 ==>
                  Left(s'.requests[id], s'.db.row) < Left(s.requests[id], s.db.row))
            && (s.requests[id].phase.Finished? ==> s'.requests[id] == s.requests[id])
  {
  }

  /**
   A request that is not held up at the lock ends when its commands go through,
   wherever it stands and whatever the row is: it looks, polls and inserts at most
   25 times in all.
   */
  lemma {:induction false} LeftAloneItEnds(guarded: bool, s: System, id: nat, body: nat, n: nat)
    requires id < |s.requests| && !Held(s, id) && n >= Left(s.requests[id], s.db.row)
    ensures id < |Alone(guarded, s, id, body, n).requests|
    ensures Alone(guarded, s, id, body, n).requests[id].phase.Finished?
    decreases n
  {
    hide Next;
    if n > 0 {
      OneStepCloser(guarded, s, id, body);
      LeftAloneItEnds(guarded, Next(guarded, s, Turn(id, Unhindered(s.requests[id], body))), id, body, n - 1);
    }
  }
}
