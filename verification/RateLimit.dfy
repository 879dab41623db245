/**
 The rate-limit store of src/lib/redis.ts: the two Lua scripts over a Redis hash
 with a refreshed time to live, the in-process window used during an outage, and
 the outage policy that picks between them. Times are integer milliseconds.
 */
module RateLimit {
  import opened Wrappers

  datatype Op = Increment(key: string, now: int) | Decrement(key: string, now: int) | ResetKey(key: string, now: int)

  datatype Reply = Hits(totalHits: int, resetTime: int) | Done

  // ---------------------------------------------------------------------------
  // The in-process window
  // ---------------------------------------------------------------------------

  datatype Window = Window(count: int, resetAt: int)

  type Local = map<string, Window>

  function LocalStep(l: Local, w: int, op: Op): (Local, Reply) {
    match op
    case Increment(key, now) =>
      if key !in l || now >= l[key].resetAt then (l[key := Window(1, now + w)], Hits(1, now + w))
      else (l[key := l[key].(count := l[key].count + 1)], Hits(l[key].count + 1, l[key].resetAt))
    case Decrement(key, _) =>
      if key in l && l[key].count > 0 then (l[key := l[key].(count := l[key].count - 1)], Done) else (l, Done)
    case ResetKey(key, _) => (l - {key}, Done)
  }

  function LocalRun(w: int, ops: seq<Op>): (r: (Local, seq<Reply>))
    ensures |r.1| == |ops|
  {
    if ops == [] then (map[], [])
    else
      var before := LocalRun(w, ops[..|ops| - 1]);
      var step := LocalStep(before.0, w, ops[|ops| - 1]);
      (step.0, before.1 + [step.1])
  }

  // ---------------------------------------------------------------------------
  // The Redis hash
  // ---------------------------------------------------------------------------

  /** `reset` is absent, and the key never expires, when a decrement created the hash. */
  datatype Hash = Hash(count: int, reset: Option<int>, expireAt: Option<int>)

  type Redis = map<string, Hash>

  /** Redis drops an expired key at any moment from its deadline on, or later. */
  function Evict(r: Redis, key: string, now: int, evict: bool): Redis {
    if evict && key in r && r[key].expireAt.Some? && r[key].expireAt.value <= now then r - {key} else r
  }

  function IncrementScript(r: Redis, w: int, key: string, now: int): (Redis, Reply) {
    var expired := key !in r || r[key].reset.None? || r[key].reset.value <= now;
    var reset := if expired then now + w else r[key].reset.value;
    var hits := if expired then 1 else r[key].count + 1;
    (r[key := Hash(hits, Some(reset), Some(now + w))], Hits(hits, reset))
  }

  function DecrementScript(r: Redis, key: string): Redis {
    if key !in r then r[key := Hash(0, None, None)]
    else r[key := r[key].(count := if r[key].count - 1 < 0 then 0 else r[key].count - 1)]
  }

  function RedisStep(r: Redis, w: int, op: Op, evict: bool): (Redis, Reply) {
    var live := Evict(r, op.key, op.now, evict);
    match op
    case Increment(key, now) => IncrementScript(live, w, key, now)
    case Decrement(key, _) => (DecrementScript(live, key), Done)
    case ResetKey(key, _) => (live - {key}, Done)
  }

  function RedisRun(w: int, ops: seq<Op>, evictions: seq<bool>): (r: (Redis, seq<Reply>))
    requires |evictions| == |ops|
    ensures |r.1| == |ops|
  {
    if ops == [] then (map[], [])
    else
      var n := |ops| - 1;
      var before := RedisRun(w, ops[..n], evictions[..n]);
      var step := RedisStep(before.0, w, ops[n], evictions[n]);
      (step.0, before.1 + [step.1])
  }

  // ---------------------------------------------------------------------------
  // The store and its outage policy, in the imperative form of the source
  // ---------------------------------------------------------------------------

  class RedisServer {
    var hashes: Redis

    constructor ()
      ensures hashes == map[]
    {
      hashes := map[];
    }

    method ExpireKeys(key: string, now: int, evict: bool)
      modifies this
      ensures hashes == Evict(old(hashes), key, now, evict)
    {
      if evict && key in hashes && hashes[key].expireAt.Some? && hashes[key].expireAt.value <= now {
        hashes := hashes - {key};
      }
    }

    method EvalIncrement(key: string, now: int, windowMs: int) returns (hits: int, reset: int)
      modifies this
      ensures (hashes, Hits(hits, reset)) == IncrementScript(old(hashes), windowMs, key, now)
    {
      if key !in hashes {
        hashes := hashes[key := Hash(0, None, None)];
      }
      if hashes[key].reset.None? || hashes[key].reset.value <= now {
        hashes := hashes[key := hashes[key].(count := 0)];
        hashes := hashes[key := hashes[key].(reset := Some(now + windowMs))];
      }
      hits := hashes[key].count + 1;
      hashes := hashes[key := hashes[key].(count := hits)];
      hashes := hashes[key := hashes[key].(expireAt := Some(now + windowMs))];
      reset := hashes[key].reset.value;
      assert hashes == old(hashes)[key := Hash(hits, Some(reset), Some(now + windowMs))];
    }

    method EvalDecrement(key: string)
      modifies this
      ensures hashes == DecrementScript(old(hashes), key)
    {
      if key !in hashes {
        hashes := hashes[key := Hash(0, None, None)];
      }
      var hits := hashes[key].count - 1;
      hashes := hashes[key := hashes[key].(count := hits)];
      if hits < 0 {
        hashes := hashes[key := hashes[key].(count := 0)];
      }
    }
  }

  /** Redis runs the script and answers, does neither, or runs it without its answer arriving. */
  datatype Answer = Up | Down | Lost

  /** A call with what it meets: Redis, and whether Redis has dropped the key. */
  datatype Call = Call(op: Op, answer: Answer, evict: bool)

  /** `None` is the error that rejects the request when the limiter fails closed. */
  function Serve(r: Redis, l: Local, w: int, failOpen: bool, c: Call): (Redis, Local, Option<Reply>) {
    var remote := RedisStep(r, w, c.op, c.evict);
    var r' := if c.answer.Down? then r else remote.0;
    if c.answer.Up? then (r', l, Some(remote.1))
    else if failOpen then
      var step := LocalStep(l, w, c.op);
      (r', step.0, Some(step.1))
    else (r', l, None)
  }

  class RedisRateLimitStore {
    const redis: RedisServer
    const failOpen: bool
    const windowMs: int
    var localWindows: Local

    constructor (redis: RedisServer, failOpen: bool, windowMs: int)
      ensures this.redis == redis && this.failOpen == failOpen && this.windowMs == windowMs && localWindows == map[]
    {
      this.redis, this.failOpen, this.windowMs, localWindows := redis, failOpen, windowMs, map[];
    }

    method Increment(key: string, now: int, answer: Answer, evict: bool) returns (reply: Option<Reply>)
      modifies this, redis
      ensures (redis.hashes, localWindows, reply)
           == Serve(old(redis.hashes), old(localWindows), windowMs, failOpen,
                    Call(Op.Increment(key, now), answer, evict))
    {
      if answer != Down {
        redis.ExpireKeys(key, now, evict);
        var hits, reset := redis.EvalIncrement(key, now, windowMs);
        if answer == Up { return Some(Hits(hits, reset)); }
      }
      if !failOpen { return None; }
      if key !in localWindows || now >= localWindows[key].resetAt {
        localWindows := localWindows[key := Window(1, now + windowMs)];
        return Some(Hits(1, now + windowMs));
      }
      localWindows := localWindows[key := localWindows[key].(count := localWindows[key].count + 1)];
      reply := Some(Hits(localWindows[key].count, localWindows[key].resetAt));
    }

    method Decrement(key: string, now: int, answer: Answer, evict: bool) returns (reply: Option<Reply>)
      modifies this, redis
      ensures (redis.hashes, localWindows, reply)
           == Serve(old(redis.hashes), old(localWindows), windowMs, failOpen,
                    Call(Op.Decrement(key, now), answer, evict))
    {
      if answer != Down {
        redis.ExpireKeys(key, now, evict);
        redis.EvalDecrement(key);
        if answer == Up { return Some(Done); }
      }
      if !failOpen { return None; }
      if key in localWindows && localWindows[key].count > 0 {
        localWindows := localWindows[key := localWindows[key].(count := localWindows[key].count - 1)];
      }
      reply := Some(Done);
    }

    method ResetKey(key: string, now: int, answer: Answer, evict: bool) returns (reply: Option<Reply>)
      modifies this, redis
      ensures (redis.hashes, localWindows, reply)
           == Serve(old(redis.hashes), old(localWindows), windowMs, failOpen,
                    Call(Op.ResetKey(key, now), answer, evict))
    {
      if answer != Down {
        redis.ExpireKeys(key, now, evict);
        redis.hashes := redis.hashes - {key};
        if answer == Up { return Some(Done); }
      }
      if !failOpen { return None; }
      localWindows := localWindows - {key};
      reply := Some(Done);
    }
  }

  // ---------------------------------------------------------------------------
  // The hash with its time to live behaves like the plain window
  // ---------------------------------------------------------------------------

  predicate Nondecreasing(ops: seq<Op>) {
    forall i, j :: 0 <= i < j < |ops| ==> ops[i].now <= ops[j].now
  }

  predicate CoupledAt(r: Redis, l: Local, w: int, key: string, now: int) {
    if key in l && now < l[key].resetAt then
      && key in r && r[key].reset == Some(l[key].resetAt) && r[key].count == l[key].count >= 0
      && r[key].expireAt.Some? && r[key].expireAt.value >= l[key].resetAt && l[key].resetAt <= now + w
    else key in r ==> r[key].reset.None? || r[key].reset.value <= now
  }

  ghost predicate Coupled(r: Redis, l: Local, w: int, now: int) {
    forall key :: CoupledAt(r, l, w, key, now)
  }

  lemma StepKeepsCoupled(r: Redis, l: Local, w: int, op: Op, evict: bool, before: int)
    requires w >= 1 && before <= op.now && Coupled(r, l, w, before)
    ensures RedisStep(r, w, op, evict).1 == LocalStep(l, w, op).1
    ensures Coupled(RedisStep(r, w, op, evict).0, LocalStep(l, w, op).0, w, op.now)
  {
    var r', l' := RedisStep(r, w, op, evict).0, LocalStep(l, w, op).0;
    assert CoupledAt(r, l, w, op.key, before);
    forall key ensures CoupledAt(r', l', w, key, op.now) {
      assert CoupledAt(r, l, w, key, before);
    }
  }

  /**
   For every sequence of calls under a nondecreasing clock, the Redis scripts and
   the in-process window give the same replies, whenever Redis drops its expired
   keys: the time to live never cuts a window short.
   */
  lemma {:induction false} RedisRefinesLocal(w: int, ops: seq<Op>, evictions: seq<bool>)
    requires w >= 1 && |evictions| == |ops| && Nondecreasing(ops)
    ensures RedisRun(w, ops, evictions).1 == LocalRun(w, ops).1
    ensures ops != [] ==> Coupled(RedisRun(w, ops, evictions).0, LocalRun(w, ops).0, w, ops[|ops| - 1].now)
  {
    if ops != [] {
      var n := |ops| - 1;
      RedisRefinesLocal(w, ops[..n], evictions[..n]);
      var before := if n == 0 then ops[n].now else ops[n - 1].now;
      StepKeepsCoupled(
        RedisRun(w, ops[..n], evictions[..n]).0, LocalRun(w, ops[..n]).0, w, ops[n], evictions[n], before);
    }
  }

  // ---------------------------------------------------------------------------
  // How many requests an interval admits
  // ---------------------------------------------------------------------------

  predicate Within(now: int, from: int, w: int) {
    from <= now < from + w
  }

  /** The limiter lets a request pass when its hit count does not exceed the limit. */
  predicate Passes(op: Op, reply: Reply, key: string, limit: int) {
    op.Increment? && op.key == key && reply.Hits? && reply.totalHits <= limit
  }

  /** Requests of `key` that pass and fall in `[from, from + w)`. */
  function Admitted(ops: seq<Op>, replies: seq<Reply>, key: string, limit: int, from: int, w: int): nat
    requires |replies| == |ops|
  {
    if ops == [] then 0
    else
      var n := |ops| - 1;
      Admitted(ops[..n], replies[..n], key, limit, from, w)
        + (if Passes(ops[n], replies[n], key, limit) && Within(ops[n].now, from, w) then 1 else 0)
  }

  predicate OnlyIncrements(ops: seq<Op>, key: string) {
    forall k :: 0 <= k < |ops| && ops[k].key == key ==> ops[k].Increment?
  }

  function Min(a: int, b: int): int {
    if a <= b then a else b
  }

  function LocalAdmitted(w: int, ops: seq<Op>, key: string, limit: int, from: int): nat {
    Admitted(ops, LocalRun(w, ops).1, key, limit, from, w)
  }

  /**
   What a window allows in `[from, from + w)`: once it started before the interval
   its first request lies outside; if it starts inside, the previous window can
   still contribute all but its first; and intervals before it are settled.
   */
  predicate WithinAllowance(l: Local, w: int, key: string, limit: int, from: int, admitted: int) {
    if key !in l then admitted == 0
    else
      var started := l[key].resetAt - w;
      && l[key].count >= 1
      && (from > started ==> admitted <= Min(l[key].count, limit) - 1)
      && (from <= started < from + w ==> admitted <= limit - 1 + Min(l[key].count, limit))
      && admitted <= 2 * limit - 1
  }

  lemma LocalAdmittedStep(w: int, ops: seq<Op>, key: string, limit: int, from: int)
    requires ops != []
    ensures var n := |ops| - 1;
            var step := LocalStep(LocalRun(w, ops[..n]).0, w, ops[n]);
            && LocalRun(w, ops).0 == step.0
            && LocalAdmitted(w, ops, key, limit, from)
            == LocalAdmitted(w, ops[..n], key, limit, from)
             + if Passes(ops[n], step.1, key, limit) && Within(ops[n].now, from, w) then 1 else 0
  {
    var n := |ops| - 1;
    var replies := LocalRun(w, ops).1;
    assert replies[..n] == LocalRun(w, ops[..n]).1;
  }

  lemma NothingAfter(w: int, ops: seq<Op>, key: string, limit: int, from: int)
    requires forall k :: 0 <= k < |ops| ==> ops[k].now < from
    ensures LocalAdmitted(w, ops, key, limit, from) == 0
  {
    if ops != [] {
      LocalAdmittedStep(w, ops, key, limit, from);
      NothingAfter(w, ops[..|ops| - 1], key, limit, from);
    }
  }

  lemma {:induction false} AllowanceHolds(w: int, ops: seq<Op>, key: string, limit: int, from: int)
    requires w >= 1 && limit >= 1 && Nondecreasing(ops) && OnlyIncrements(ops, key)
    ensures WithinAllowance(LocalRun(w, ops).0, w, key, limit, from, LocalAdmitted(w, ops, key, limit, from))
    ensures key in LocalRun(w, ops).0 && ops != [] ==> LocalRun(w, ops).0[key].resetAt - w <= ops[|ops| - 1].now
  {
    if ops != [] {
      var n := |ops| - 1;
      AllowanceHolds(w, ops[..n], key, limit, from);
      LocalAdmittedStep(w, ops, key, limit, from);
      if from > ops[n].now {
        NothingAfter(w, ops, key, limit, from);
      }
    }
  }

  /**
   A fixed window admits at most `2 * limit - 1` requests of a key in any half-open
   interval as long as the window, wherever the interval starts.
   */
  lemma WindowAdmitsAtMost(w: int, ops: seq<Op>, key: string, limit: int, from: int)
    requires w >= 1 && limit >= 1 && Nondecreasing(ops) && OnlyIncrements(ops, key)
    ensures LocalAdmitted(w, ops, key, limit, from) <= 2 * limit - 1
  {
    AllowanceHolds(w, ops, key, limit, from);
  }

  /** `n` requests at the same moment. */
  function Burst(key: string, now: int, n: nat): seq<Op> {
    seq(n, _ => Increment(key, now))
  }

  /** One request opens the window, the rest arrive at its end, and a full window follows. */
  function WorstCase(key: string, w: int, limit: int): seq<Op>
    requires limit >= 1
  {
    [Increment(key, 0)] + Burst(key, w - 1, limit - 1) + Burst(key, w, limit)
  }

  lemma BurstGrows(ops: seq<Op>, key: string, now: int, n: nat)
    requires n > 0
    ensures ops + Burst(key, now, n) == ops + Burst(key, now, n - 1) + [Increment(key, now)]
  {
  }

  lemma {:induction false} BurstRuns(w: int, ops: seq<Op>, l: Local, key: string, now: int, n: nat, limit: int, from: int)
    requires l == LocalRun(w, ops).0 && key in l && now < l[key].resetAt
    requires l[key].count + n <= limit && Within(now, from, w)
    ensures LocalRun(w, ops + Burst(key, now, n)).0 == l[key := Window(l[key].count + n, l[key].resetAt)]
    ensures LocalAdmitted(w, ops + Burst(key, now, n), key, limit, from)
         == LocalAdmitted(w, ops, key, limit, from) + n
  {
    if n == 0 {
      assert ops + Burst(key, now, n) == ops;
    } else {
      BurstRuns(w, ops, l, key, now, n - 1, limit, from);
      BurstGrows(ops, key, now, n);
    }
  }

  lemma FirstWindowOf(key: string, w: int, limit: int)
    requires w >= 2 && limit >= 1
    ensures var full := [Increment(key, 0)] + Burst(key, w - 1, limit - 1);
            && LocalRun(w, full).0 == map[key := Window(limit, w)]
            && LocalAdmitted(w, full, key, limit, w - 1) == limit - 1
  {
    var first := [Increment(key, 0)];
    assert first[..0] == [];
    LocalAdmittedStep(w, first, key, limit, w - 1);
    BurstRuns(w, first, LocalRun(w, first).0, key, w - 1, limit - 1, limit, w - 1);
  }

  lemma SecondWindowOf(key: string, w: int, limit: int, full: seq<Op>)
    requires w >= 2 && limit >= 1 && LocalRun(w, full).0 == map[key := Window(limit, w)]
    ensures LocalAdmitted(w, full + Burst(key, w, limit), key, limit, w - 1)
         == LocalAdmitted(w, full, key, limit, w - 1) + limit
  {
    var next := full + [Increment(key, w)];
    assert next[..|next| - 1] == full;
    LocalAdmittedStep(w, next, key, limit, w - 1);
    BurstRuns(w, next, LocalRun(w, next).0, key, w, limit - 1, limit, w - 1);
    assert full + Burst(key, w, limit) == next + Burst(key, w, limit - 1);
  }

  /** The bound is reached, for every limit and every window of at least two milliseconds. */
  lemma WorstCaseReachesTheBound(key: string, w: int, limit: int)
    requires w >= 2 && limit >= 1
    ensures Nondecreasing(WorstCase(key, w, limit)) && OnlyIncrements(WorstCase(key, w, limit), key)
    ensures LocalAdmitted(w, WorstCase(key, w, limit), key, limit, w - 1) == 2 * limit - 1
  {
    FirstWindowOf(key, w, limit);
    SecondWindowOf(key, w, limit, [Increment(key, 0)] + Burst(key, w - 1, limit - 1));
  }

  // ---------------------------------------------------------------------------
  // What the replies say
  // ---------------------------------------------------------------------------

  datatype Standing = Nothing | Standing(hits: int, reset: int)

  /**
   Where a key stands by the replies alone: the last increment's reply, less one for
   each decrement since and never below zero; nothing at first and after a reset.
   */
  function StandingOf(ops: seq<Op>, replies: seq<Reply>, key: string): Standing
    requires |replies| == |ops|
  {
    if ops == [] then Nothing
    else
      var n := |ops| - 1;
      var earlier := StandingOf(ops[..n], replies[..n], key);
      if ops[n].key != key then earlier
      else
        match ops[n]
        case Increment(_, _) => if replies[n].Hits? then Standing(replies[n].totalHits, replies[n].resetTime) else Nothing
        case Decrement(_, _) => if earlier.Standing? && earlier.hits > 0 then earlier.(hits := earlier.hits - 1) else earlier
        case ResetKey(_, _) => Nothing
  }

  lemma {:induction false} WindowIsStanding(w: int, ops: seq<Op>, key: string)
    ensures var (l, replies) := LocalRun(w, ops);
            StandingOf(ops, replies, key) == if key in l then Standing(l[key].count, l[key].resetAt) else Nothing
  {
    if ops != [] {
      var n := |ops| - 1;
      WindowIsStanding(w, ops[..n], key);
      assert LocalRun(w, ops).1[..n] == LocalRun(w, ops[..n]).1;
    }
  }

  /**
   Every reply follows from the ones before it: an increment is told one more than
   where its key stands until the reset time it stands with, and from then on, or
   with nothing standing, it opens a window of its own and is told 1. No other call
   is told a count.
   */
  lemma ReplyFollows(w: int, ops: seq<Op>, op: Op)
    ensures var replies := LocalRun(w, ops).1;
            var reply, standing := LocalRun(w, ops + [op]).1[|ops|], StandingOf(ops, replies, op.key);
            && LocalRun(w, ops + [op]).1[..|ops|] == replies
            && reply == if !op.Increment? then Done
                        else if standing.Nothing? || op.now >= standing.reset then Hits(1, op.now + w)
                        else Hits(standing.hits + 1, standing.reset)
  {
    assert (ops + [op])[..|ops|] == ops;
    WindowIsStanding(w, ops, op.key);
  }

  // ---------------------------------------------------------------------------
  // Outages
  // ---------------------------------------------------------------------------

  function StoreRun(w: int, failOpen: bool, calls: seq<Call>): (r: (Redis, Local, seq<Option<Reply>>))
    ensures |r.2| == |calls|
  {
    if calls == [] then (map[], map[], [])
    else
      var before := StoreRun(w, failOpen, calls[..|calls| - 1]);
      var step := Serve(before.0, before.1, w, failOpen, calls[|calls| - 1]);
      (step.0, step.1, before.2 + [step.2])
  }

  /** A call belongs to Redis when Redis ran it, and to the process when no answer came; a lost one to both. */
  predicate In(c: Call, remote: bool) {
    if remote then !c.answer.Down? else !c.answer.Up?
  }

  /** The calls that Redis ran, or those that no answer came to. */
  function Part(calls: seq<Call>, remote: bool): (r: (seq<Op>, seq<bool>))
    ensures |r.0| == |r.1|
  {
    if calls == [] then ([], [])
    else
      var n := |calls| - 1;
      var earlier := Part(calls[..n], remote);
      if In(calls[n], remote) then (earlier.0 + [calls[n].op], earlier.1 + [calls[n].evict]) else earlier
  }

  function StoreAdmitted(w: int, failOpen: bool, calls: seq<Call>, key: string, limit: int, from: int): nat {
    if calls == [] then 0
    else
      var n := |calls| - 1;
      var reply := StoreRun(w, failOpen, calls).2[n];
      StoreAdmitted(w, failOpen, calls[..n], key, limit, from)
        + (if reply.Some? && Passes(calls[n].op, reply.value, key, limit) && Within(calls[n].op.now, from, w)
           then 1 else 0)
  }

  predicate CallsNondecreasing(calls: seq<Call>) {
    forall i, j :: 0 <= i < j < |calls| ==> calls[i].op.now <= calls[j].op.now
  }

  predicate CallsOnlyIncrement(calls: seq<Call>, key: string) {
    forall k :: 0 <= k < |calls| && calls[k].op.key == key ==> calls[k].op.Increment?
  }

  lemma PartIsTimed(calls: seq<Call>, remote: bool, key: string)
    requires CallsNondecreasing(calls) && CallsOnlyIncrement(calls, key)
    ensures Nondecreasing(Part(calls, remote).0) && OnlyIncrements(Part(calls, remote).0, key)
    ensures forall k :: 0 <= k < |Part(calls, remote).0| ==> calls != [] && Part(calls, remote).0[k].now <= calls[|calls| - 1].op.now
  {
    if calls != [] {
      PartIsTimed(calls[..|calls| - 1], remote, key);
    }
  }

  function RedisAdmitted(w: int, calls: seq<Call>, key: string, limit: int, from: int): nat {
    var part := Part(calls, true);
    Admitted(part.0, RedisRun(w, part.0, part.1).1, key, limit, from, w)
  }

  /** The call is a request that Redis counts and would let pass, but its answer is lost. */
  function LostOne(w: int, earlier: seq<Call>, call: Call, key: string, limit: int, from: int): nat {
    var part := Part(earlier, true);
    var reply := RedisStep(RedisRun(w, part.0, part.1).0, w, call.op, call.evict).1;
    if call.answer.Lost? && Passes(call.op, reply, key, limit) && Within(call.op.now, from, w) then 1 else 0
  }

  /** How many such requests there are. */
  function LostAdmitted(w: int, calls: seq<Call>, key: string, limit: int, from: int): nat {
    if calls == [] then 0
    else
      var n := |calls| - 1;
      LostAdmitted(w, calls[..n], key, limit, from) + LostOne(w, calls[..n], calls[n], key, limit, from)
  }

  lemma RedisAdmittedStep(
      w: int, ops: seq<Op>, evictions: seq<bool>, op: Op, evict: bool, key: string, limit: int, from: int)
    requires |evictions| == |ops|
    ensures var step := RedisStep(RedisRun(w, ops, evictions).0, w, op, evict);
            var run := RedisRun(w, ops + [op], evictions + [evict]);
            && run.0 == step.0
            && Admitted(ops + [op], run.1, key, limit, from, w)
            == Admitted(ops, RedisRun(w, ops, evictions).1, key, limit, from, w)
             + if Passes(op, step.1, key, limit) && Within(op.now, from, w) then 1 else 0
  {
    assert (ops + [op])[..|ops|] == ops && (evictions + [evict])[..|ops|] == evictions;
    var run := RedisRun(w, ops + [op], evictions + [evict]);
    assert run.1[..|ops|] == RedisRun(w, ops, evictions).1;
  }

  ghost predicate Separate(w: int, failOpen: bool, calls: seq<Call>, key: string, limit: int, from: int) {
    var run := StoreRun(w, failOpen, calls);
    var up, down := Part(calls, true), Part(calls, false);
    && run.0 == RedisRun(w, up.0, up.1).0
    && run.1 == (if failOpen then LocalRun(w, down.0).0 else map[])
    && StoreAdmitted(w, failOpen, calls, key, limit, from) + LostAdmitted(w, calls, key, limit, from)
    == RedisAdmitted(w, calls, key, limit, from) + if failOpen then LocalAdmitted(w, down.0, key, limit, from) else 0
  }

  /** The parts, the store and the count after one more call. */
  lemma OneMoreCall(w: int, failOpen: bool, earlier: seq<Call>, call: Call, key: string, limit: int, from: int)
    ensures var calls, before := earlier + [call], StoreRun(w, failOpen, earlier);
            var step := Serve(before.0, before.1, w, failOpen, call);
            && StoreRun(w, failOpen, calls).0 == step.0 && StoreRun(w, failOpen, calls).1 == step.1
            && StoreAdmitted(w, failOpen, calls, key, limit, from)
            == StoreAdmitted(w, failOpen, earlier, key, limit, from)
             + (if step.2.Some? && Passes(call.op, step.2.value, key, limit) && Within(call.op.now, from, w)
                then 1 else 0)
    ensures LostAdmitted(w, earlier + [call], key, limit, from)
         == LostAdmitted(w, earlier, key, limit, from) + LostOne(w, earlier, call, key, limit, from)
  {
    assert (earlier + [call])[..|earlier|] == earlier;
  }

  /** One more call on the side of Redis. */
  lemma {:induction false} RedisSide(
      w: int, ops: seq<Op>, evictions: seq<bool>, after: (seq<Op>, seq<bool>), call: Call, key: string, limit: int, from: int)
    requires |evictions| == |ops| && |after.1| == |after.0|
    requires after == if In(call, true) then (ops + [call.op], evictions + [call.evict]) else (ops, evictions)
    ensures var step := RedisStep(RedisRun(w, ops, evictions).0, w, call.op, call.evict);
            && RedisRun(w, after.0, after.1).0 == (if call.answer.Down? then RedisRun(w, ops, evictions).0 else step.0)
            && Admitted(after.0, RedisRun(w, after.0, after.1).1, key, limit, from, w)
            == Admitted(ops, RedisRun(w, ops, evictions).1, key, limit, from, w)
             + (if !call.answer.Down? && Passes(call.op, step.1, key, limit) && Within(call.op.now, from, w) then 1 else 0)
  {
    hide RedisRun, Admitted, Passes, Within;
    if !call.answer.Down? {
      RedisAdmittedStep(w, ops, evictions, call.op, call.evict, key, limit, from);
    }
  }

  /** And on the side of the process. */
  lemma {:induction false} LocalSide(
      w: int, ops: seq<Op>, after: seq<Op>, call: Call, key: string, limit: int, from: int)
    requires after == if In(call, false) then ops + [call.op] else ops
    ensures var step := LocalStep(LocalRun(w, ops).0, w, call.op);
            && LocalRun(w, after).0 == (if call.answer.Up? then LocalRun(w, ops).0 else step.0)
            && LocalAdmitted(w, after, key, limit, from)
            == LocalAdmitted(w, ops, key, limit, from)
             + (if !call.answer.Up? && Passes(call.op, step.1, key, limit) && Within(call.op.now, from, w) then 1 else 0)
  {
    hide LocalRun, LocalAdmitted, Passes, Within;
    if !call.answer.Up? {
      assert after[..|after| - 1] == ops;
      LocalAdmittedStep(w, after, key, limit, from);
    }
  }

  lemma PartStep(earlier: seq<Call>, call: Call, remote: bool)
    ensures Part(earlier + [call], remote) ==
            if In(call, remote) then (Part(earlier, remote).0 + [call.op], Part(earlier, remote).1 + [call.evict])
            else Part(earlier, remote)
  {
    assert (earlier + [call])[..|earlier|] == earlier;
  }

  lemma CallStaysSeparate(w: int, failOpen: bool, earlier: seq<Call>, call: Call, key: string, limit: int, from: int)
    requires Separate(w, failOpen, earlier, key, limit, from)
    ensures Separate(w, failOpen, earlier + [call], key, limit, from)
  {
    hide StoreRun, StoreAdmitted, LostAdmitted, Part, RedisRun, LocalRun, Admitted, LocalAdmitted, RedisStep, LocalStep,
         Passes, Within;
    OneMoreCall(w, failOpen, earlier, call, key, limit, from);
    PartStep(earlier, call, true);
    PartStep(earlier, call, false);
    var up, calls := Part(earlier, true), earlier + [call];
    RedisSide(w, up.0, up.1, Part(calls, true), call, key, limit, from);
    LocalSide(w, Part(earlier, false).0, Part(calls, false).0, call, key, limit, from);
  }

  lemma NothingIsSeparate(w: int, failOpen: bool, key: string, limit: int, from: int)
    ensures Separate(w, failOpen, [], key, limit, from)
  {
  }

  /** Each backing store sees exactly its own part of the calls. */
  lemma {:induction false} StoresAreSeparate(
      w: int, failOpen: bool, calls: seq<Call>, key: string, limit: int, from: int)
    ensures Separate(w, failOpen, calls, key, limit, from)
  {
    hide Separate;
    if calls == [] {
      NothingIsSeparate(w, failOpen, key, limit, from);
    } else {
      var earlier, call := calls[..|calls| - 1], calls[|calls| - 1];
      StoresAreSeparate(w, failOpen, earlier, key, limit, from);
      assert calls == earlier + [call];
      CallStaysSeparate(w, failOpen, earlier, call, key, limit, from);
    }
  }

  /**
   However Redis comes and goes, and whichever of its answers are lost, a limiter that fails closed admits at most
   `2 * limit - 1` requests of a key per window length, and one replica of a
   limiter that fails open at most twice that.
   */
  lemma OutagesAdmitAtMost(w: int, failOpen: bool, calls: seq<Call>, key: string, limit: int, from: int)
    requires w >= 1 && limit >= 1 && CallsNondecreasing(calls) && CallsOnlyIncrement(calls, key)
    ensures StoreAdmitted(w, failOpen, calls, key, limit, from)
         <= if failOpen then 2 * (2 * limit - 1) else 2 * limit - 1
  {
    StoresAreSeparate(w, failOpen, calls, key, limit, from);
    PartIsTimed(calls, true, key);
    PartIsTimed(calls, false, key);
    var up, down := Part(calls, true), Part(calls, false);
    RedisRefinesLocal(w, up.0, up.1);
    WindowAdmitsAtMost(w, up.0, key, limit, from);
    WindowAdmitsAtMost(w, down.0, key, limit, from);
  }
}
