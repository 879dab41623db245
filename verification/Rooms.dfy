/**
 Room membership of multiplayer sessions (multiplayer-session.service.ts) and the
 per-user Redis lock around its read-modify-write (room-lock.ts).
 */
module Rooms {
  import opened Wrappers
  import Sets

  const MAX_PERSISTED_ROOMS: nat := 32

  // ---------------------------------------------------------------------------
  // Clamping
  // ---------------------------------------------------------------------------

  /** The non-empty rooms at their first occurrence, in order. */
  function Distinct(rooms: seq<string>): (r: seq<string>)
    ensures |r| <= |rooms|
  {
    if rooms == [] then []
    else
      var n := |rooms| - 1;
      var earlier := Distinct(rooms[..n]);
      if rooms[n] == "" || rooms[n] in earlier then earlier else earlier + [rooms[n]]
  }

  function Take(rooms: seq<string>): (r: seq<string>)
    ensures |r| <= MAX_PERSISTED_ROOMS
  {
    if |rooms| <= MAX_PERSISTED_ROOMS then rooms else rooms[..MAX_PERSISTED_ROOMS]
  }

  function Clamp(rooms: seq<string>): seq<string> {
    Take(Distinct(rooms))
  }

  function Only(rooms: seq<string>, keep: set<string>): seq<string> {
    if rooms == [] then []
    else
      var n := |rooms| - 1;
      Only(rooms[..n], keep) + (if rooms[n] in keep then [rooms[n]] else [])
  }

  function Excluding(rooms: seq<string>, room: string): seq<string> {
    if rooms == [] then []
    else
      var n := |rooms| - 1;
      Excluding(rooms[..n], room) + (if rooms[n] == room then [] else [rooms[n]])
  }

  function ToSet(rooms: seq<string>): set<string> {
    set r | r in rooms
  }

  predicate Distinctive(rooms: seq<string>) {
    && (forall i :: 0 <= i < |rooms| ==> rooms[i] != "")
    && (forall i, j :: 0 <= i < j < |rooms| ==> rooms[i] != rooms[j])
  }

  /** What is stored for a session: distinct non-empty rooms, at most 32. */
  predicate WellFormed(rooms: seq<string>) {
    |rooms| <= MAX_PERSISTED_ROOMS && Distinctive(rooms)
  }

  lemma {:induction false} DistinctIsDistinctive(rooms: seq<string>)
    ensures Distinctive(Distinct(rooms))
    ensures forall r :: r in Distinct(rooms) <==> r in rooms && r != ""
  {
    if rooms != [] {
      DistinctIsDistinctive(rooms[..|rooms| - 1]);
    }
  }

  lemma {:induction false} DistinctOfDistinctive(rooms: seq<string>)
    requires Distinctive(rooms)
    ensures Distinct(rooms) == rooms
  {
    if rooms != [] {
      DistinctOfDistinctive(rooms[..|rooms| - 1]);
    }
  }

  /** Appending more rooms only ever adds at the end. */
  lemma {:induction false} DistinctExtends(a: seq<string>, b: seq<string>)
    ensures Distinct(a) <= Distinct(a + b)
    ensures (forall r :: r in b && r != "" ==> r in Distinct(a)) ==> Distinct(a + b) == Distinct(a)
  {
    if b == [] {
      assert a + b == a;
    } else {
      var n := |b| - 1;
      DistinctExtends(a, b[..n]);
      assert a + b == (a + b[..n]) + [b[n]];
      assert (a + b)[..|a + b| - 1] == a + b[..n];
    }
  }

  lemma ClampIsWellFormed(rooms: seq<string>)
    ensures WellFormed(Clamp(rooms))
    ensures forall r :: r in Clamp(rooms) ==> r in rooms
  {
    DistinctIsDistinctive(rooms);
  }

  // ---------------------------------------------------------------------------
  // The operations
  // ---------------------------------------------------------------------------

  /** A `Sync` reconciles the stored rooms with those of the socket adapter. */
  datatype Op = Add(room: string) | Remove(room: string) | Sync(adapter: seq<string>)

  function ApplyOp(rooms: seq<string>, op: Op): seq<string> {
    match op
    case Add(room) => if room == "" || room in rooms then rooms else Clamp(rooms + [room])
    case Remove(room) => if room == "" then rooms else Excluding(rooms, room)
    case Sync(adapter) => Reconcile(rooms, adapter)
  }

  function Reconcile(stored: seq<string>, adapter: seq<string>): seq<string> {
    if ToSet(stored) == ToSet(adapter) then stored
    else Clamp(Only(stored, ToSet(adapter)) + adapter)
  }

  /** The rooms of every user with a session. */
  type Sessions = map<string, seq<string>>

  class MultiplayerSessionService {
    var sessions: Sessions

    constructor ()
      ensures sessions == map[]
    {
      sessions := map[];
    }

    /** A new session starts without rooms; a reconnect keeps those it had. */
    method RecordConnect(userId: string) returns (resumed: seq<string>)
      modifies this
      ensures sessions == if userId in old(sessions) then old(sessions) else old(sessions)[userId := []]
      ensures resumed == if userId in old(sessions) then old(sessions)[userId] else []
    {
      if userId in sessions { return sessions[userId]; }
      sessions := sessions[userId := []];
      resumed := [];
    }

    method ClampRooms(rooms: seq<string>) returns (out: seq<string>)
      ensures out == Clamp(rooms)
    {
      var seen: set<string> := {};
      out := [];
      var i := 0;
      while i < |rooms|
        invariant 0 <= i <= |rooms|
        invariant out == Distinct(rooms[..i]) && |out| < MAX_PERSISTED_ROOMS
        invariant forall r :: r in seen <==> r in out
      {
        assert rooms[..i + 1][..i] == rooms[..i];
        var r := rooms[i];
        i := i + 1;
        if r == "" || r in seen { continue; }
        seen := seen + {r};
        out := out + [r];
        if |out| >= MAX_PERSISTED_ROOMS {
          DistinctExtends(rooms[..i], rooms[i..]);
          assert rooms[..i] + rooms[i..] == rooms;
          return;
        }
      }
      assert rooms[..|rooms|] == rooms;
    }

    method AddRoom(userId: string, room: string)
      modifies this
      ensures sessions == if userId == "" || userId !in old(sessions) then old(sessions)
                          else old(sessions)[userId := ApplyOp(old(sessions)[userId], Add(room))]
    {
      if userId == "" || room == "" { return; }
      if userId !in sessions { return; }
      var currentRooms := sessions[userId];
      if room in currentRooms { return; }
      var next := ClampRooms(currentRooms + [room]);
      sessions := sessions[userId := next];
    }

    method RemoveRoom(userId: string, room: string)
      modifies this
      ensures sessions == if userId == "" || userId !in old(sessions) then old(sessions)
                          else old(sessions)[userId := ApplyOp(old(sessions)[userId], Remove(room))]
    {
      if userId == "" || room == "" { return; }
      if userId !in sessions { return; }
      sessions := sessions[userId := Excluding(sessions[userId], room)];
    }

    method ReconcileRooms(userId: string, adapterRooms: seq<string>) returns (rooms: seq<string>)
      modifies this
      ensures userId == "" ==> sessions == old(sessions) && rooms == []
      ensures userId != "" && userId !in old(sessions) ==> sessions == old(sessions) && rooms == adapterRooms
      ensures userId != "" && userId in old(sessions) ==>
                && rooms == Reconcile(old(sessions)[userId], adapterRooms)
                && sessions == old(sessions)[userId := rooms]
    {
      if userId == "" { return []; }
      if userId !in sessions { return adapterRooms; }
      var dbRooms := sessions[userId];
      var adapterSet := ToSet(adapterRooms);
      if (forall r :: r in dbRooms ==> r in adapterSet) && (forall r :: r in adapterRooms ==> r in dbRooms) {
        assert ToSet(dbRooms) == adapterSet;
        return dbRooms;
      }
      assert ToSet(dbRooms) != adapterSet by {
        assert forall r :: r in ToSet(dbRooms) <==> r in dbRooms;
      }
      rooms := ClampRooms(Only(dbRooms, adapterSet) + adapterRooms);
      sessions := sessions[userId := rooms];
    }
  }

  lemma {:induction false} ExcludingKeepsWellFormed(rooms: seq<string>, room: string)
    requires Distinctive(rooms)
    ensures Distinctive(Excluding(rooms, room)) && |Excluding(rooms, room)| <= |rooms|
    ensures forall r :: r in Excluding(rooms, room) <==> r in rooms && r != room
  {
    if rooms != [] {
      var n := |rooms| - 1;
      ExcludingKeepsWellFormed(rooms[..n], room);
      assert rooms[n] !in rooms[..n];
    }
  }

  /** An added room comes last, unless it is there or 32 rooms are stored already; a removed one is gone. */
  lemma OpsDoWhatTheySay(rooms: seq<string>, room: string)
    requires WellFormed(rooms) && room != ""
    ensures WellFormed(ApplyOp(rooms, Add(room))) && WellFormed(ApplyOp(rooms, Remove(room)))
    ensures ApplyOp(rooms, Add(room))
         == if room in rooms || |rooms| == MAX_PERSISTED_ROOMS then rooms else rooms + [room]
    ensures forall r :: r in ApplyOp(rooms, Remove(room)) <==> r in rooms && r != room
  {
    ExcludingKeepsWellFormed(rooms, room);
    ClampIsWellFormed(rooms + [room]);
    if room !in rooms {
      DistinctOfDistinctive(rooms + [room]);
      assert |rooms| == MAX_PERSISTED_ROOMS ==> (rooms + [room])[..MAX_PERSISTED_ROOMS] == rooms;
    }
  }

  // ---------------------------------------------------------------------------
  // Reconciliation
  // ---------------------------------------------------------------------------

  lemma {:induction false} OnlyMembers(rooms: seq<string>, keep: set<string>)
    ensures forall r :: r in Only(rooms, keep) <==> r in rooms && r in keep
    ensures |Only(rooms, keep)| <= |rooms|
  {
    if rooms != [] {
      OnlyMembers(rooms[..|rooms| - 1], keep);
    }
  }

  lemma {:induction false} OnlyAll(rooms: seq<string>, keep: set<string>)
    requires forall r :: r in rooms ==> r in keep
    ensures Only(rooms, keep) == rooms
  {
    if rooms != [] {
      OnlyAll(rooms[..|rooms| - 1], keep);
    }
  }

  lemma {:induction false} OnlyDistinctive(rooms: seq<string>, keep: set<string>)
    requires Distinctive(rooms)
    ensures Distinctive(Only(rooms, keep))
  {
    if rooms != [] {
      var n := |rooms| - 1;
      OnlyDistinctive(rooms[..n], keep);
      OnlyMembers(rooms[..n], keep);
      assert rooms[n] !in rooms[..n];
    }
  }

  lemma OnlyKeeps(rooms: seq<string>, keep: set<string>)
    requires Distinctive(rooms)
    ensures Distinctive(Only(rooms, keep)) && |Only(rooms, keep)| <= |rooms|
    ensures forall r :: r in Only(rooms, keep) <==> r in rooms && r in keep
    ensures (forall r :: r in rooms ==> r in keep) ==> Only(rooms, keep) == rooms
  {
    OnlyMembers(rooms, keep);
    OnlyDistinctive(rooms, keep);
    if forall r :: r in rooms ==> r in keep {
      OnlyAll(rooms, keep);
    }
  }

  /** The shape of a reconciled list: the surviving stored rooms first, in their order. */
  lemma ReconcileShape(stored: seq<string>, adapter: seq<string>)
    requires WellFormed(stored)
    ensures var kept, result := Only(stored, ToSet(adapter)), Reconcile(stored, adapter);
            && WellFormed(result) && Distinctive(kept) && kept <= result
            && (forall r :: r in result ==> r in adapter)
            && (|result| < MAX_PERSISTED_ROOMS ==> forall r :: r in adapter && r != "" ==> r in result)
  {
    OnlyKeeps(stored, ToSet(adapter));
    if ToSet(stored) == ToSet(adapter) {
      SameSets(stored, adapter);
    } else {
      MergeShape(Only(stored, ToSet(adapter)), adapter);
    }
  }

  lemma SameSets(a: seq<string>, b: seq<string>)
    requires ToSet(a) == ToSet(b)
    ensures forall r :: r in a <==> r in b
  {
    assert forall r :: r in a <==> r in ToSet(a);
    assert forall r :: r in b <==> r in ToSet(b);
  }

  lemma MergeShape(kept: seq<string>, adapter: seq<string>)
    requires WellFormed(kept) && forall r :: r in kept ==> r in adapter
    ensures WellFormed(Clamp(kept + adapter)) && kept <= Clamp(kept + adapter)
    ensures forall r :: r in Clamp(kept + adapter) ==> r in adapter
    ensures |Clamp(kept + adapter)| < MAX_PERSISTED_ROOMS ==>
              forall r :: r in adapter && r != "" ==> r in Clamp(kept + adapter)
  {
    ClampIsWellFormed(kept + adapter);
    DistinctIsDistinctive(kept + adapter);
    DistinctOfDistinctive(kept);
    DistinctExtends(kept, adapter);
  }

  lemma DistinctSize(a: seq<string>, b: seq<string>)
    requires Distinctive(a) && Distinctive(b) && ToSet(a) == ToSet(b)
    ensures |a| == |b|
  {
    SizeOfSet(a);
    SizeOfSet(b);
  }

  lemma {:induction false} SizeOfSet(a: seq<string>)
    requires Distinctive(a)
    ensures |ToSet(a)| == |a|
  {
    if a != [] {
      var n := |a| - 1;
      SizeOfSet(a[..n]);
      assert ToSet(a) == ToSet(a[..n]) + {a[n]};
    }
  }

  /**
   Reconciliation yields exactly the adapter's non-empty rooms if and only if there
   are at most 32 of them; survivors keep their stored order.
   */
  lemma ReconcileIsExactIff(stored: seq<string>, adapter: seq<string>)
    requires WellFormed(stored)
    ensures Only(stored, ToSet(adapter)) <= Reconcile(stored, adapter)
    ensures (forall r :: r in Reconcile(stored, adapter) <==> r in adapter && r != "") <==>
              |Distinct(adapter)| <= MAX_PERSISTED_ROOMS
  {
    var result := Reconcile(stored, adapter);
    ReconcileShape(stored, adapter);
    DistinctIsDistinctive(adapter);
    if forall r :: r in result <==> r in adapter && r != "" {
      assert ToSet(result) == ToSet(Distinct(adapter));
      DistinctSize(result, Distinct(adapter));
    } else {
      assert |result| == MAX_PERSISTED_ROOMS;
      var missing :| missing in adapter && missing != "" && missing !in result;
      SizeOfSet(result);
      SizeOfSet(Distinct(adapter));
      MoreInSet(ToSet(result), ToSet(Distinct(adapter)), missing);
    }
  }

  lemma MoreInSet(a: set<string>, b: set<string>, x: string)
    requires a <= b && x in b && x !in a
    ensures |a| < |b|
  {
    Sets.SubsetSize(a, b - {x});
  }

  /** Reconciling again with the same adapter rooms changes nothing, for every list of adapter rooms. */
  lemma ReconcileIsIdempotent(stored: seq<string>, adapter: seq<string>)
    requires WellFormed(stored)
    ensures Reconcile(Reconcile(stored, adapter), adapter) == Reconcile(stored, adapter)
  {
    var result := Reconcile(stored, adapter);
    ReconcileShape(stored, adapter);
    if ToSet(result) != ToSet(adapter) {
      assert forall r :: r in adapter <==> r in ToSet(adapter);
      OnlyKeeps(result, ToSet(adapter));
      ClampAgain(result, adapter);
    }
  }

  lemma ClampAgain(result: seq<string>, adapter: seq<string>)
    requires WellFormed(result)
    requires |result| < MAX_PERSISTED_ROOMS ==> forall r :: r in adapter && r != "" ==> r in result
    ensures Clamp(result + adapter) == result
  {
    DistinctOfDistinctive(result);
    DistinctExtends(result, adapter);
  }

  // ---------------------------------------------------------------------------
  // Concurrent calls and the lock
  // ---------------------------------------------------------------------------

  /** A call inside its callback; `locked` is false for one that gave up on the lock, and for every reconciliation. */
  datatype Phase =
    | Entered(op: Op, locked: bool)
    | HasRead(op: Op, locked: bool, snapshot: seq<string>)
    | Finished(op: Op, locked: bool)

  /** One user's stored rooms, the lock's holder, the calls under way, and the calls that took effect. */
  datatype State = State(rooms: seq<string>, lock: Option<nat>, calls: map<nat, Phase>, log: seq<Op>)

  datatype Event =
    | Acquire(id: nat, op: Op)
    | Bypass(id: nat, op: Op)
    | Read(id: nat)
    | Write(id: nat)
    | Fail(id: nat)
    | Release(id: nat)
    | Crash(id: nat)
    | Expire

  predicate Enabled(s: State, e: Event) {
    match e
    case Acquire(id, op) => id !in s.calls && s.lock.None? && !op.Sync?
    case Bypass(id, _) => id !in s.calls
    case Read(id) => id in s.calls && s.calls[id].Entered?
    case Write(id) => id in s.calls && s.calls[id].HasRead?
    case Fail(id) => id in s.calls && !s.calls[id].Finished?
    case Release(id) => id in s.calls && s.calls[id].Finished?
    case Crash(id) => id in s.calls
    case Expire => true
  }

  /** A call that finds nothing to do returns without writing. */
  predicate SkipsWrite(snapshot: seq<string>, op: Op) {
    match op
    case Add(room) => room == "" || room in snapshot
    case Remove(room) => room == ""
    case Sync(adapter) => ToSet(snapshot) == ToSet(adapter)
  }

  function Next(s: State, e: Event): State
    requires Enabled(s, e)
  {
    match e
    case Acquire(id, op) => s.(lock := Some(id), calls := s.calls[id := Entered(op, true)])
    case Bypass(id, op) => s.(calls := s.calls[id := Entered(op, false)])
    case Read(id) => s.(calls := s.calls[id := HasRead(s.calls[id].op, s.calls[id].locked, s.rooms)])
    case Write(id) =>
      var c := s.calls[id];
      State(if SkipsWrite(c.snapshot, c.op) then s.rooms else ApplyOp(c.snapshot, c.op),
            s.lock, s.calls[id := Finished(c.op, c.locked)], s.log + [c.op])
    case Fail(id) => s.(calls := s.calls[id := Finished(s.calls[id].op, s.calls[id].locked)])
    case Release(id) =>
      s.(lock := if s.calls[id].locked && s.lock == Some(id) then None else s.lock, calls := s.calls - {id})
    case Crash(id) => s.(calls := s.calls - {id})
    case Expire => s.(lock := None)
  }

  ghost predicate Run(s: State, events: seq<Event>, t: State)
    decreases |events|
  {
    if events == [] then s == t else Enabled(s, events[0]) && Run(Next(s, events[0]), events[1..], t)
  }

  predicate Ends(e: Event, id: nat) {
    (e.Release? || e.Crash?) && e.id == id
  }

  /**
   Until its lock expires, a call that took it has it for as long as it is under way,
   whatever other calls do, release and bypass; and only its own release frees it.
   */
  lemma {:induction false} HolderKeepsTheLock(s: State, events: seq<Event>, t: State, id: nat)
    requires Run(s, events, t) && forall k :: 0 <= k < |events| ==> !events[k].Expire? && !Ends(events[k], id)
    requires id in s.calls && s.calls[id].locked && s.lock == Some(id)
    ensures id in t.calls && t.calls[id].locked && t.lock == Some(id)
    ensures var freed := Next(State(t.rooms, t.lock, t.calls[id := Finished(t.calls[id].op, true)], t.log), Release(id));
            freed.lock.None? && id !in freed.calls
    decreases |events|
  {
    if events != [] {
      HolderKeepsTheLock(Next(s, events[0]), events[1..], t, id);
    }
  }

  /**
   What one event does: only a write touches the rooms and the log; a write and a
   failure both leave the call with nothing but its release to do; and a crash
   leaves the lock to expire.
   */
  lemma StepTold(s: State, e: Event)
    requires Enabled(s, e)
    ensures var t := Next(s, e);
            && (!e.Write? ==> t.rooms == s.rooms && t.log == s.log)
            && (e.Write? ==> t.log == s.log + [s.calls[e.id].op])
            && (e.Write? || e.Fail? ==> t.calls.Keys == s.calls.Keys && t.calls[e.id].Finished? && t.lock == s.lock)
            && (e.Crash? || e.Release? ==> t.calls == s.calls - {e.id})
            && (e.Crash? ==> t.lock == s.lock)
            && (e.Release? && t.lock != s.lock ==> s.lock == Some(e.id) && s.calls[e.id].locked && t.lock.None?)
            && (e.Acquire? ==> s.lock.None? && t.lock == Some(e.id) && t.calls[e.id].locked && !e.op.Sync?)
            && (e.Bypass? ==> t.lock == s.lock && !t.calls[e.id].locked)
  {
  }

  function Sequentially(rooms: seq<string>, ops: seq<Op>): seq<string> {
    if ops == [] then rooms else ApplyOp(Sequentially(rooms, ops[..|ops| - 1]), ops[|ops| - 1])
  }

  /** The event lets a call in beside a reconciliation that is at work, or a reconciliation beside another call. */
  predicate OverlapsSync(s: State, e: Event) {
    || (e.Bypass? && e.op.Sync? && s.calls != map[])
    || ((e.Acquire? || e.Bypass?) && exists id :: id in s.calls && s.calls[id].op.Sync?)
  }

  /**
   The lock does its work: nobody goes without it except a reconciliation that is
   alone, and it expires only under a holder that is gone.
   */
  predicate LockHolds(s: State, e: Event) {
    && (e.Bypass? ==> e.op.Sync?)
    && !OverlapsSync(s, e)
    && (e.Expire? ==> s.lock.None? || s.lock.value !in s.calls)
  }

  ghost predicate LockHoldsThroughout(s: State, events: seq<Event>)
    decreases |events|
  {
    events != [] ==>
      LockHolds(s, events[0]) && (Enabled(s, events[0]) ==> LockHoldsThroughout(Next(s, events[0]), events[1..]))
  }

  /** One call at most is inside, what it read is what is stored, and the stored rooms come from the log. */
  ghost predicate Serial(s: State, initial: seq<string>) {
    && Alone(s)
    && SnapshotsCurrent(s)
    && s.rooms == Sequentially(initial, s.log)
  }

  predicate Alone(s: State) {
    && (forall i, j :: i in s.calls && j in s.calls ==> i == j)
    && (forall id :: id in s.calls ==> s.lock == Some(id) || s.calls[id].op.Sync?)
  }

  predicate SnapshotsCurrent(s: State) {
    forall id :: id in s.calls && s.calls[id].HasRead? ==> s.calls[id].snapshot == s.rooms
  }

  lemma {:induction false} RunKeepsSerial(s: State, events: seq<Event>, t: State, initial: seq<string>)
    requires Serial(s, initial) && Run(s, events, t) && LockHoldsThroughout(s, events)
    ensures Serial(t, initial)
    decreases |events|
  {
    if events != [] {
      RunKeepsSerial(Next(s, events[0]), events[1..], t, initial);
    }
  }

  /** No calls, no lock, nothing done yet. */
  function Idle(rooms: seq<string>): State {
    State(rooms, None, map[], [])
  }

  /**
   While the lock holds, any interleaving of adds, removals and reconciliations from
   any number of instances leaves what the calls that took effect leave when run one after
   the other: no update is lost.
   */
  lemma LockedCallsAreSequential(rooms: seq<string>, events: seq<Event>, t: State)
    requires Run(Idle(rooms), events, t) && LockHoldsThroughout(Idle(rooms), events)
    ensures t.rooms == Sequentially(rooms, t.log)
  {
    RunKeepsSerial(Idle(rooms), events, t, rooms);
  }

  /** Sessions keep well-formed rooms whatever the lock does. */
  ghost predicate AllWellFormed(s: State) {
    WellFormed(s.rooms) && forall id :: id in s.calls && s.calls[id].HasRead? ==> WellFormed(s.calls[id].snapshot)
  }

  lemma {:induction false} RoomsStayWellFormed(s: State, events: seq<Event>, t: State)
    requires AllWellFormed(s) && Run(s, events, t)
    ensures WellFormed(t.rooms)
    decreases |events|
  {
    if events != [] {
      var e := events[0];
      if e.Write? {
        var c := s.calls[e.id];
        if c.op.Sync? {
          ReconcileShape(c.snapshot, c.op.adapter);
        } else if c.op.room != "" {
          OpsDoWhatTheySay(c.snapshot, c.op.room);
        }
      }
      RoomsStayWellFormed(Next(s, e), events[1..], t);
    }
  }

  /** Two calls whose sections overlap after their lock expired, or that never had it. */
  function Overlapping(a: string, b: string, bypass: bool): seq<Event> {
    (if bypass then [Bypass(0, Add(a)), Bypass(1, Add(b))] else [Acquire(0, Add(a)), Expire, Acquire(1, Add(b))])
      + [Read(0), Read(1), Write(0), Write(1)]
  }

  lemma FourSteps(s: State, a: Event, b: Event, c: Event, d: Event, s1: State, s2: State, s3: State, t: State)
    requires Enabled(s, a) && s1 == Next(s, a)
    requires Enabled(s1, b) && s2 == Next(s1, b)
    requires Enabled(s2, c) && s3 == Next(s2, c)
    requires Enabled(s3, d) && t == Next(s3, d)
    ensures Run(s, [a, b, c, d], t)
  {
    hide Enabled, Next;
    assert [a, b, c, d][1..] == [b, c, d] && [b, c, d][1..] == [c, d] && [c, d][1..] == [d] && [d][1..] == [];
    assert Run(s3, [d], t);
    assert Run(s2, [c, d], t);
    assert Run(s1, [b, c, d], t);
  }

  lemma OverlappingEnds(s: State, a: string, b: string) returns (t: State)
    requires 0 in s.calls && s.calls[0].Entered? && s.calls[0].op == Add(a)
    requires 1 in s.calls && s.calls[1].Entered? && s.calls[1].op == Add(b)
    requires WellFormed(s.rooms) && |s.rooms| < MAX_PERSISTED_ROOMS
    requires a != "" && b != "" && a !in s.rooms && b !in s.rooms
    ensures Run(s, [Read(0), Read(1), Write(0), Write(1)], t)
    ensures t.rooms == s.rooms + [b] && t.log == s.log + [Add(a), Add(b)]
  {
    OpsDoWhatTheySay(s.rooms, b);
    var s1 := Next(s, Read(0));
    var s2 := Next(s1, Read(1));
    var s3 := Next(s2, Write(0));
    var s4 := Next(s3, Write(1));
    t := s4;
    FourSteps(s, Read(0), Read(1), Write(0), Write(1), s1, s2, s3, t);
  }

  /**
   Both ways around the lock lose an update: when the lock is given up on, and when
   it expires during the section, two adds can leave only the second room, though
   both calls took effect.
   */
  lemma OverlapLosesAnUpdate(rooms: seq<string>, a: string, b: string, bypass: bool) returns (t: State)
    requires WellFormed(rooms) && |rooms| + 2 <= MAX_PERSISTED_ROOMS
    requires a != "" && b != "" && a != b && a !in rooms && b !in rooms
    ensures Run(Idle(rooms), Overlapping(a, b, bypass), t)
    ensures t.rooms == rooms + [b] && t.log == [Add(a), Add(b)]
    ensures Sequentially(rooms, t.log) == rooms + [a, b]
  {
    t := OverlapStarts(Idle(rooms), a, b, bypass);
    TwoAdds(rooms, a, b);
    AddTwice(rooms, a, b);
    assert t.log == [Add(a), Add(b)];
  }

  lemma AddTwice(rooms: seq<string>, a: string, b: string)
    requires WellFormed(rooms) && |rooms| + 2 <= MAX_PERSISTED_ROOMS
    requires a != "" && b != "" && a != b && a !in rooms && b !in rooms
    ensures ApplyOp(ApplyOp(rooms, Add(a)), Add(b)) == rooms + [a, b]
  {
    OpsDoWhatTheySay(rooms, a);
    OpsDoWhatTheySay(rooms + [a], b);
    assert rooms + [a] + [b] == rooms + [a, b];
  }

  lemma TwoAdds(rooms: seq<string>, a: string, b: string)
    ensures Sequentially(rooms, [Add(a), Add(b)]) == ApplyOp(ApplyOp(rooms, Add(a)), Add(b))
  {
    assert [Add(a), Add(b)][..1] == [Add(a)] && [Add(a)][..0] == [];
    assert Sequentially(rooms, [Add(a)]) == ApplyOp(Sequentially(rooms, [Add(a)][..0]), Add(a));
  }

  lemma OverlapStarts(s: State, a: string, b: string, bypass: bool) returns (t: State)
    requires s.lock.None? && s.calls == map[] && WellFormed(s.rooms) && |s.rooms| < MAX_PERSISTED_ROOMS
    requires a != "" && b != "" && a !in s.rooms && b !in s.rooms
    ensures Run(s, Overlapping(a, b, bypass), t)
    ensures t.rooms == s.rooms + [b] && t.log == s.log + [Add(a), Add(b)]
  {
    var events, tail := Overlapping(a, b, bypass), [Read(0), Read(1), Write(0), Write(1)];
    var s1 := Next(s, events[0]);
    var s2 := Next(s1, events[1..][0]);
    if bypass {
      assert events[1..][1..] == tail;
      t := OverlappingEnds(s2, a, b);
    } else {
      var s3 := Next(s2, events[1..][1..][0]);
      assert events[1..][1..][1..] == tail;
      t := OverlappingEnds(s3, a, b);
      assert Run(s2, events[1..][1..], t);
    }
    assert Run(s1, events[1..], t);
  }

  /** A reconciliation that runs during an add. */
  function SyncDuringAdd(a: string, b: string): seq<Event> {
    [Acquire(0, Add(a)), Bypass(1, Sync([b])), Read(0), Read(1), Write(1), Write(0)]
  }

  lemma ReconcileFromNothing(b: string)
    requires b != ""
    ensures Reconcile([], [b]) == [b] && Reconcile([], []) == []
  {
    assert b in ToSet([b]) && ToSet([]) == {};
    assert [b][..1] == [b] && [b][..0] == [];
    assert Distinct([b]) == Distinct([b][..0]) + [b];
    assert Only([], ToSet([b])) + [b] == [b];
  }

  lemma SyncIsWritten(b: string)
    requires b != ""
    ensures !SkipsWrite([], Sync([b])) && ApplyOp([], Sync([b])) == [b]
  {
    ReconcileFromNothing(b);
    assert b in ToSet([b]) && ToSet([]) == {};
  }

  lemma AddToNothing(a: string)
    requires a != ""
    ensures !SkipsWrite([], Add(a)) && ApplyOp([], Add(a)) == [a]
  {
    OpsDoWhatTheySay([], a);
  }

  /** The last four steps: both read nothing, the reconciliation writes, and the add writes over it. */
  lemma SyncDuringAddEnds(s: State, a: string, b: string) returns (t: State)
    requires s.rooms == [] && s.log == [] && a != "" && b != ""
    requires s.calls == map[0 := Entered(Add(a), true), 1 := Entered(Sync([b]), false)]
    ensures Run(s, [Read(0), Read(1), Write(1), Write(0)], t)
    ensures t.rooms == [a] && t.log == [Sync([b]), Add(a)]
  {
    AddToNothing(a);
    var s1 := Next(s, Read(0));
    var s2 := Next(s1, Read(1));
    assert s2.calls[0] == HasRead(Add(a), true, []) && s2.calls[1] == HasRead(Sync([b]), false, []);
    SyncIsWritten(b);
    hide ApplyOp, SkipsWrite, ToSet;
    var s3 := Next(s2, Write(1));
    assert s3.calls[0] == HasRead(Add(a), true, []);
    t := Next(s3, Write(0));
    FourSteps(s, Read(0), Read(1), Write(1), Write(0), s1, s2, s3, t);
  }

  lemma SyncThenAdd(a: string, b: string)
    requires a != "" && b != "" && a != b
    ensures Sequentially([], [Sync([b]), Add(a)]) == [b, a]
  {
    ReconcileFromNothing(b);
    OpsDoWhatTheySay([b], a);
    assert ApplyOp([], Sync([b])) == [b] && ApplyOp([b], Add(a)) == [b] + [a];
    hide ApplyOp;
    var log := [Sync([b]), Add(a)];
    assert log[..1] == [Sync([b])] && log[..1][..0] == [];
    assert Sequentially([], log[..1]) == ApplyOp(Sequentially([], log[..1][..0]), Sync([b]));
  }

  /** It loses the room that the reconciliation added: the add writes back what it read before. */
  lemma SyncDuringAddLosesAnUpdate(a: string, b: string) returns (t: State)
    requires a != "" && b != "" && a != b
    ensures Run(Idle([]), SyncDuringAdd(a, b), t)
    ensures t.rooms == [a] && t.log == [Sync([b]), Add(a)]
    ensures Sequentially([], t.log) == [b, a]
  {
    SyncThenAdd(a, b);
    var events := SyncDuringAdd(a, b);
    var s1 := Next(Idle([]), events[0]);
    var s2 := Next(s1, events[1..][0]);
    assert events[1..][1..] == [Read(0), Read(1), Write(1), Write(0)];
    t := SyncDuringAddEnds(s2, a, b);
    assert Run(s1, events[1..], t);
  }

  /**
   What may happen to the lock: adds and removals that go without it, expiry under a
   holder that is still at work, and reconciliations, which never take it, beside
   other calls.
   */
  datatype Discipline = Discipline(mayBypass: bool, mayExpire: bool, mayOverlapSync: bool)

  predicate Allows(d: Discipline, s: State, e: Event) {
    && (e.Bypass? && !e.op.Sync? ==> d.mayBypass)
    && (OverlapsSync(s, e) ==> d.mayOverlapSync)
    && (e.Expire? && s.lock.Some? && s.lock.value in s.calls ==> d.mayExpire)
  }

  ghost predicate Admits(d: Discipline, s: State, events: seq<Event>)
    decreases |events|
  {
    events != [] ==>
      Allows(d, s, events[0]) && (Enabled(s, events[0]) ==> Admits(d, Next(s, events[0]), events[1..]))
  }

  lemma {:induction false} StrictMeansTheLockHolds(s: State, events: seq<Event>)
    requires Admits(Discipline(false, false, false), s, events)
    ensures LockHoldsThroughout(s, events)
    decreases |events|
  {
    if events != [] && Enabled(s, events[0]) {
      StrictMeansTheLockHolds(Next(s, events[0]), events[1..]);
    }
  }

  lemma {:induction false} ReadsAndWritesAreAdmitted(d: Discipline, s: State, events: seq<Event>)
    requires forall k :: 0 <= k < |events| ==> events[k].Read? || events[k].Write?
    ensures Admits(d, s, events)
    decreases |events|
  {
    if events != [] && Enabled(s, events[0]) {
      ReadsAndWritesAreAdmitted(d, Next(s, events[0]), events[1..]);
    }
  }

  lemma OverlappingIsAdmitted(d: Discipline, s: State, a: string, b: string, bypass: bool)
    requires s.calls == map[] && if bypass then d.mayBypass else d.mayExpire
    ensures Admits(d, s, Overlapping(a, b, bypass))
  {
    var events, tail := Overlapping(a, b, bypass), [Read(0), Read(1), Write(0), Write(1)];
    if Enabled(s, events[0]) {
      var s1 := Next(s, events[0]);
      if Enabled(s1, events[1..][0]) {
        var s2 := Next(s1, events[1..][0]);
        if bypass {
          assert events[1..][1..] == tail;
          ReadsAndWritesAreAdmitted(d, s2, tail);
        } else if Enabled(s2, events[1..][1..][0]) {
          assert events[1..][1..][1..] == tail;
          ReadsAndWritesAreAdmitted(d, Next(s2, events[1..][1..][0]), tail);
          assert Admits(d, s2, events[1..][1..]);
        }
        assert Admits(d, s2, events[1..][1..]);
      }
      assert Admits(d, s1, events[1..]);
    }
  }

  lemma SyncDuringAddIsAdmitted(d: Discipline, s: State, a: string, b: string)
    requires d.mayOverlapSync
    ensures Admits(d, s, SyncDuringAdd(a, b))
  {
    var events, tail := SyncDuringAdd(a, b), [Read(0), Read(1), Write(1), Write(0)];
    if Enabled(s, events[0]) {
      var s1 := Next(s, events[0]);
      assert events[1..][1..] == tail;
      if Enabled(s1, events[1..][0]) {
        ReadsAndWritesAreAdmitted(d, Next(s1, events[1..][0]), tail);
      }
      assert Admits(d, s1, events[1..]);
    }
  }

  /** Under a discipline, every run leaves what its calls leave one after the other. */
  ghost predicate LosesNothing(d: Discipline) {
    forall rooms, events, t ::
      WellFormed(rooms) && Run(Idle(rooms), events, t) && Admits(d, Idle(rooms), events) ==>
        t.rooms == Sequentially(rooms, t.log)
  }

  /**
   No run loses an update if and only if no add or removal goes without the lock, the
   lock never expires under a call that is still at work, and no reconciliation
   overlaps another call. The source rules out none of the three.
   */
  lemma LosesNothingIff(d: Discipline)
    ensures LosesNothing(d) <==> !d.mayBypass && !d.mayExpire && !d.mayOverlapSync
  {
    if !d.mayBypass && !d.mayExpire && !d.mayOverlapSync {
      forall rooms, events, t | Run(Idle(rooms), events, t) && Admits(d, Idle(rooms), events)
        ensures t.rooms == Sequentially(rooms, t.log)
      {
        StrictMeansTheLockHolds(Idle(rooms), events);
        LockedCallsAreSequential(rooms, events, t);
      }
    } else if d.mayOverlapSync {
      var t := SyncDuringAddLosesAnUpdate("a", "b");
      SyncDuringAddIsAdmitted(d, Idle([]), "a", "b");
      assert |t.rooms| != |Sequentially([], t.log)|;
    } else {
      var t := OverlapLosesAnUpdate([], "a", "b", d.mayBypass);
      OverlappingIsAdmitted(d, Idle([]), "a", "b", d.mayBypass);
      assert |t.rooms| != |Sequentially([], t.log)|;
    }
  }
}
