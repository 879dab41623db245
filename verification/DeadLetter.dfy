/**
 The dead-letter queue of failed dispatches (dead-letter-queue.service.ts): one
 retry, and passes of `retryAll` over the oldest open rows.
 */
module DeadLetter {
  import opened Wrappers

  datatype DispatchStatus = Pending | Retrying | Resolved | Abandoned

  /** Rows are in creation order and the index is the id. */
  datatype Row = Row(status: DispatchStatus, attempts: nat)

  /** `sent` lists the rows handed to a dispatch handler, in order. */
  datatype Queue = Queue(rows: seq<Row>, sent: seq<nat>)

  /** Whether the handler succeeds, and whether the two database writes of a retry go through. */
  datatype Env = Env(delivered: bool, first: bool, second: bool)

  predicate Open(r: Row) {
    r.status.Pending? || r.status.Retrying?
  }

  /** `ok` tells whether the insert goes through; a failed one is only logged. */
  function Record(q: Queue, ok: bool): (Queue, Option<nat>) {
    if ok then (q.(rows := q.rows + [Row(Pending, 1)]), Some(|q.rows|)) else (q, None)
  }

  /** The row after a retry, or `None` when the retry throws and leaves it as it was. */
  function AfterRetry(r: Row, max: nat, env: Env): Option<Row> {
    if r.status.Resolved? then Some(r)
    else if env.delivered && env.first then Some(Row(Resolved, r.attempts + 1))
    else if env.second then Some(Row(if r.attempts + 1 >= max then Abandoned else Retrying, r.attempts + 1))
    else None
  }

  function Retry(q: Queue, id: nat, max: nat, env: Env): (Queue, Option<Row>) {
    if id >= |q.rows| then (q, None)
    else
      var after := AfterRetry(q.rows[id], max, env);
      var sent := if q.rows[id].status.Resolved? then q.sent else q.sent + [id];
      (Queue(if after.Some? then q.rows[id := after.value] else q.rows, sent), after)
  }

  function Capped(limit: int): nat {
    if limit < 1 then 1 else if limit > 200 then 200 else limit
  }

  /** The oldest open rows, at most `cap` of them. */
  function Select(rows: seq<Row>, cap: nat): (r: seq<nat>)
    ensures |r| <= cap && |r| <= |rows|
    ensures forall k :: 0 <= k < |r| ==> r[k] < |rows| && Open(rows[r[k]])
    ensures forall j, k :: 0 <= j < k < |r| ==> r[j] < r[k]
    ensures forall i :: 0 <= i < |rows| && Open(rows[i]) && i !in r ==> |r| == cap && forall k :: 0 <= k < |r| ==> r[k] < i
  {
    if rows == [] then []
    else
      var n := |rows| - 1;
      var older := Select(rows[..n], cap);
      if |older| < cap && Open(rows[n]) then older + [n] else older
  }

  datatype Summary = Summary(attempted: nat, resolved: nat, failed: nat, abandoned: nat)

  /** Retries of the given rows one after the other, up to the first that throws. */
  function Pass(q: Queue, ids: seq<nat>, max: nat, envs: nat -> Env): (r: (Queue, bool))
    ensures |r.0.rows| == |q.rows|
  {
    if ids == [] then (q, true)
    else
      var n := |ids| - 1;
      var before := Pass(q, ids[..n], max, envs);
      if !before.1 then before
      else
        var step := Retry(before.0, ids[n], max, envs(ids[n]));
        (step.0, step.1.Some? || ids[n] >= |q.rows|)
  }

  /** The status each row was left in by its retry. */
  function Results(q: Queue, ids: seq<nat>, max: nat, envs: nat -> Env): (r: seq<Option<DispatchStatus>>)
    ensures |r| == |ids|
  {
    if ids == [] then []
    else
      var n := |ids| - 1;
      var result := Retry(Pass(q, ids[..n], max, envs).0, ids[n], max, envs(ids[n])).1;
      Results(q, ids[..n], max, envs) + [if result.Some? then Some(result.value.status) else None]
  }

  function CountOf(results: seq<Option<DispatchStatus>>, status: DispatchStatus): nat {
    if results == [] then 0
    else CountOf(results[..|results| - 1], status) + if results[|results| - 1] == Some(status) then 1 else 0
  }

  lemma OneMoreResult(q: Queue, ids: seq<nat>, i: nat, max: nat, envs: nat -> Env)
    requires i < |ids|
    ensures var result := Retry(Pass(q, ids[..i], max, envs).0, ids[i], max, envs(ids[i])).1;
            var results := Results(q, ids[..i], max, envs);
            var status := if result.Some? then Some(result.value.status) else None;
            && Results(q, ids[..i + 1], max, envs) == results + [status]
            && forall s :: CountOf(results + [status], s) == CountOf(results, s) + if status == Some(s) then 1 else 0
  {
    var results := Results(q, ids[..i], max, envs);
    assert ids[..i + 1][..i] == ids[..i];
    forall status: Option<DispatchStatus>, s
      ensures CountOf(results + [status], s) == CountOf(results, s) + if status == Some(s) then 1 else 0
    {
      assert (results + [status])[..|results|] == results;
    }
  }

  /** What a pass that did not throw reports: its rows by how their retries ended. */
  predicate Reports(s: Summary, results: seq<Option<DispatchStatus>>) {
    && s.attempted == |results|
    && s.resolved == CountOf(results, Resolved) && s.abandoned == CountOf(results, Abandoned)
    && s.failed == s.attempted - s.resolved
  }

  class DeadLetterQueueService {
    var rows: seq<Row>
    var sent: seq<nat>

    constructor ()
      ensures View() == Queue([], [])
    {
      rows, sent := [], [];
    }

    ghost function View(): Queue
      reads this
    {
      Queue(rows, sent)
    }

    method RecordFailure(ok: bool) returns (id: Option<nat>)
      modifies this
      ensures (View(), id) == Record(old(View()), ok)
    {
      if !ok { return None; }
      rows := rows + [Row(Pending, 1)];
      id := Some(|rows| - 1);
    }

    method RetryOne(id: nat, max: nat, env: Env) returns (result: Option<Row>)
      modifies this
      ensures (View(), result) == Retry(old(View()), id, max, env)
    {
      if id >= |rows| { return None; }
      var row := rows[id];
      if row.status.Resolved? {
        assert rows[id := row] == rows;
        return Some(row);
      }
      sent := sent + [id];
      if env.delivered && env.first {
        rows := rows[id := Row(Resolved, row.attempts + 1)];
        return Some(rows[id]);
      }
      if !env.second { return None; }
      var nextAttempts := row.attempts + 1;
      var nextStatus := if nextAttempts >= max then Abandoned else Retrying;
      rows := rows[id := Row(nextStatus, nextAttempts)];
      result := Some(rows[id]);
    }

    /** The loop over the rows that were read; `None` is the error of a retry that threw. */
    method RetryRows(ids: seq<nat>, max: nat, envs: nat -> Env) returns (summary: Option<Summary>)
      requires forall k :: 0 <= k < |ids| ==> ids[k] < |rows|
      modifies this
      ensures (View(), summary.Some?) == Pass(old(View()), ids, max, envs)
      ensures summary.Some? ==> Reports(summary.value, Results(old(View()), ids, max, envs))
    {
      var resolved, failed, abandoned := 0, 0, 0;
      ghost var start := View();
      for i := 0 to |ids|
        invariant (View(), true) == Pass(start, ids[..i], max, envs)
        invariant |rows| == |start.rows|
        invariant i == resolved + failed
        invariant resolved == CountOf(Results(start, ids[..i], max, envs), Resolved)
        invariant abandoned == CountOf(Results(start, ids[..i], max, envs), Abandoned)
      {
        hide Pass, Results, CountOf, Retry;
        PassStep(start, ids, i, max, envs);
        OneMoreResult(start, ids, i, max, envs);
        var result := RetryOne(ids[i], max, envs(ids[i]));
        if result.None? {
          PassFrom(start, ids, i + 1, max, envs);
          return None;
        }
        match result.value.status {
          case Resolved => resolved := resolved + 1;
          case Abandoned => abandoned, failed := abandoned + 1, failed + 1;
          case _ => failed := failed + 1;
        }
      }
      assert ids[..|ids|] == ids;
      summary := Some(Summary(|ids|, resolved, failed, abandoned));
    }

    method RetryAll(limit: int, max: nat, envs: nat -> Env) returns (summary: Option<Summary>)
      modifies this
      ensures var ids := Select(old(rows), Capped(limit));
              (View(), summary.Some?) == Pass(old(View()), ids, max, envs)
      ensures summary.Some? ==>
                Reports(summary.value, Results(old(View()), Select(old(rows), Capped(limit)), max, envs))
    {
      var ids := Select(rows, Capped(limit));
      summary := RetryRows(ids, max, envs);
    }
  }

  lemma PassStep(q: Queue, ids: seq<nat>, i: nat, max: nat, envs: nat -> Env)
    requires i < |ids| && Pass(q, ids[..i], max, envs).1
    ensures var before := Pass(q, ids[..i], max, envs).0;
            var step := Retry(before, ids[i], max, envs(ids[i]));
            Pass(q, ids[..i + 1], max, envs) == (step.0, step.1.Some? || ids[i] >= |q.rows|)
  {
    assert ids[..i + 1][..i] == ids[..i];
  }

  /** A pass that has thrown stays where it is. */
  lemma {:induction false} PassFrom(q: Queue, ids: seq<nat>, i: nat, max: nat, envs: nat -> Env)
    requires i <= |ids|
    ensures !Pass(q, ids[..i], max, envs).1 ==> Pass(q, ids, max, envs) == Pass(q, ids[..i], max, envs)
  {
    if i < |ids| {
      PassFrom(q, ids[..|ids| - 1], i, max, envs);
      assert ids[..|ids| - 1][..i] == ids[..i];
    } else {
      assert ids[..i] == ids;
    }
  }

  // ---------------------------------------------------------------------------
  // One row
  // ---------------------------------------------------------------------------

  /** A failure is queued, open and with one attempt used, exactly when its insert goes through. */
  lemma FailureIsQueued(q: Queue, ok: bool)
    ensures var (after, id) := Record(q, ok);
            && after.sent == q.sent && (id.Some? <==> ok) && (!ok ==> after == q)
            && (ok ==> id == Some(|q.rows|) && after.rows == q.rows + [Row(Pending, 1)])
  {
  }

  /** A pass takes as many of the oldest open rows as it is asked for, at least one and at most 200. */
  lemma PassTakesTheOldest(rows: seq<Row>, limit: int, i: nat)
    requires i < |rows| && Open(rows[i])
    ensures var ids := Select(rows, Capped(limit));
            && |ids| <= 200 && (limit >= 1 ==> |ids| <= limit) && |ids| >= 1
            && (i !in ids ==>
                  && (forall k :: 0 <= k < |ids| ==> ids[k] < i)
                  && |ids| == if limit < 1 then 1 else if limit < 200 then limit else 200)
  {
  }

  /** The dispatch went out and its success is recorded. */
  predicate GoesThrough(env: Env) {
    env.delivered && env.first
  }

  /**
   What a retry does, for every row and everything it meets: an unknown id and a
   RESOLVED row are left alone, and every other row is dispatched once. It is then
   RESOLVED exactly when the dispatch went out and was recorded, and otherwise one
   attempt nearer to ABANDONED, which it becomes with the attempt that reaches the
   cap; if that cannot be recorded either, the retry throws and the row is as before.
   */
  lemma RetryTold(q: Queue, id: nat, max: nat, env: Env)
    ensures var (after, result) := Retry(q, id, max, env);
            && |after.rows| == |q.rows| && (forall k :: 0 <= k < |q.rows| && k != id ==> after.rows[k] == q.rows[k])
            && (id >= |q.rows| ==> after == q && result.None?)
            && (id < |q.rows| ==>
                  var was, now := q.rows[id], after.rows[id];
                  && (result.Some? ==> result == Some(now))
                  && (was.status.Resolved? ==> after == q && result.Some?)
                  && (!was.status.Resolved? ==>
                        && after.sent == q.sent + [id]
                        && (now.status.Resolved? <==> GoesThrough(env))
                        && (now != was <==> GoesThrough(env) || env.second) && (result.Some? <==> now != was)
                        && (now != was ==> now.attempts == was.attempts + 1)
                        && (now != was && !now.status.Resolved? ==>
                              now.status == if was.attempts + 1 >= max then Abandoned else Retrying)))
  {
    assert id < |q.rows| ==> q.rows[id := q.rows[id]] == q.rows;
  }

  /** Visits an open row has left: at least one, and one more for each attempt below the cap. */
  function Left(r: Row, max: nat): nat {
    if !Open(r) then 0 else if r.attempts + 1 >= max then 1 else max - r.attempts
  }

  function Visits(r: Row, max: nat, delivered: seq<bool>): Row {
    if delivered == [] then r
    else
      var before := Visits(r, max, delivered[..|delivered| - 1]);
      if Open(before) then AfterRetry(before, max, Env(delivered[|delivered| - 1], true, true)).value else before
  }

  /**
   However the dispatches turn out, a row is closed after the visits it has left:
   a new one after `max - 1`, if `max >= 2`.
   */
  lemma {:induction false} RowIsClosedInTime(r: Row, max: nat, delivered: seq<bool>)
    ensures Left(Visits(r, max, delivered), max) <= if |delivered| >= Left(r, max) then 0 else Left(r, max) - |delivered|
    ensures r == Row(Pending, 1) && max >= 2 && |delivered| >= max - 1 ==> !Open(Visits(r, max, delivered))
  {
    if delivered != [] {
      RowIsClosedInTime(r, max, delivered[..|delivered| - 1]);
    }
  }

  /** The bound is reached: a new row whose dispatches all fail is still open after any fewer visits. */
  lemma {:induction false} FailingRowUsesThemAll(max: nat, delivered: seq<bool>)
    requires max >= 2 && forall k :: 0 <= k < |delivered| ==> !delivered[k]
    ensures |delivered| < max - 1 ==> Open(Visits(Row(Pending, 1), max, delivered))
    ensures |delivered| <= max - 1 ==> Visits(Row(Pending, 1), max, delivered).attempts == 1 + |delivered|
    ensures |delivered| == max - 1 ==> Visits(Row(Pending, 1), max, delivered).status == Abandoned
  {
    if delivered != [] {
      FailingRowUsesThemAll(max, delivered[..|delivered| - 1]);
    }
  }

  /** A dispatch that went out is sent again by the next visit exactly when its success could not be recorded. */
  lemma DeliveredTwiceIff(q: Queue, id: nat, max: nat, env: Env, later: Env)
    requires id < |q.rows| && !q.rows[id].status.Resolved? && env.delivered
    ensures var once := Retry(q, id, max, env).0;
            Retry(once, id, max, later).0.sent == once.sent + [id] <==> !env.first
  {
    var once := Retry(q, id, max, env).0;
    assert |once.sent + [id]| == |once.sent| + 1;
  }

  // ---------------------------------------------------------------------------
  // Passes
  // ---------------------------------------------------------------------------

  function TotalLeft(rows: seq<Row>, max: nat): nat {
    if rows == [] then 0 else TotalLeft(rows[..|rows| - 1], max) + Left(rows[|rows| - 1], max)
  }

  lemma {:induction false} TotalUpdate(rows: seq<Row>, id: nat, r: Row, max: nat)
    requires id < |rows|
    ensures TotalLeft(rows[id := r], max) == TotalLeft(rows, max) - Left(rows[id], max) + Left(r, max)
  {
    var n := |rows| - 1;
    if id == n {
      assert rows[id := r][..n] == rows[..n];
    } else {
      assert rows[id := r][..n] == rows[..n][id := r];
      TotalUpdate(rows[..n], id, r, max);
    }
  }

  predicate WritesWork(envs: nat -> Env, ids: seq<nat>) {
    forall k :: 0 <= k < |ids| ==> envs(ids[k]).first && envs(ids[k]).second
  }

  /** With working writes, a pass takes at least one from the total for every row it visits. */
  lemma {:induction false} PassProgress(q: Queue, ids: seq<nat>, max: nat, envs: nat -> Env)
    requires WritesWork(envs, ids)
    requires forall k :: 0 <= k < |ids| ==> ids[k] < |q.rows| && Open(q.rows[ids[k]])
    requires forall j, k :: 0 <= j < k < |ids| ==> ids[j] < ids[k]
    ensures Pass(q, ids, max, envs).1
    ensures TotalLeft(Pass(q, ids, max, envs).0.rows, max) + |ids| <= TotalLeft(q.rows, max)
    ensures forall i :: 0 <= i < |q.rows| && i !in ids ==> Pass(q, ids, max, envs).0.rows[i] == q.rows[i]
  {
    if ids != [] {
      var n := |ids| - 1;
      PassProgress(q, ids[..n], max, envs);
      var before := Pass(q, ids[..n], max, envs).0;
      assert ids[n] !in ids[..n];
      var after := AfterRetry(before.rows[ids[n]], max, envs(ids[n])).value;
      TotalUpdate(before.rows, ids[n], after, max);
    }
  }

  lemma {:induction false} NothingSelected(rows: seq<Row>, cap: nat, max: nat)
    requires cap >= 1
    ensures Select(rows, cap) == [] <==> TotalLeft(rows, max) == 0
    ensures TotalLeft(rows, max) == 0 <==> forall i :: 0 <= i < |rows| ==> !Open(rows[i])
  {
    if rows != [] {
      NothingSelected(rows[..|rows| - 1], cap, max);
    }
  }

  function OnePass(q: Queue, limit: int, max: nat, envs: nat -> Env): (r: Queue)
    ensures |r.rows| == |q.rows|
  {
    Pass(q, Select(q.rows, Capped(limit)), max, envs).0
  }

  /** The queue after each of a series of passes; `envs[k]` is what the k-th of them meets. */
  ghost predicate PassesRun(qs: seq<Queue>, limit: int, max: nat, envs: seq<nat -> Env>) {
    |qs| == |envs| + 1 && forall k :: 0 <= k < |envs| ==> qs[k + 1] == OnePass(qs[k], limit, max, envs[k])
  }

  ghost predicate AlwaysRecorded(envs: nat -> Env) {
    forall id :: envs(id).first && envs(id).second
  }

  lemma PassTakesOne(q: Queue, limit: int, max: nat, envs: nat -> Env)
    requires AlwaysRecorded(envs)
    ensures TotalLeft(OnePass(q, limit, max, envs).rows, max)
         <= if TotalLeft(q.rows, max) == 0 then 0 else TotalLeft(q.rows, max) - 1
  {
    NothingSelected(q.rows, Capped(limit), max);
    PassProgress(q, Select(q.rows, Capped(limit)), max, envs);
  }

  lemma {:induction false} PassesShrink(qs: seq<Queue>, limit: int, max: nat, envs: seq<nat -> Env>, n: nat)
    requires PassesRun(qs, limit, max, envs) && n < |qs|
    requires forall k :: 0 <= k < |envs| ==> AlwaysRecorded(envs[k])
    ensures |qs[n].rows| == |qs[0].rows|
    ensures TotalLeft(qs[n].rows, max)
         <= if n >= TotalLeft(qs[0].rows, max) then 0 else TotalLeft(qs[0].rows, max) - n
  {
    hide OnePass, TotalLeft, AlwaysRecorded;
    if n > 0 {
      PassesShrink(qs, limit, max, envs, n - 1);
      PassTakesOne(qs[n - 1], limit, max, envs[n - 1]);
    }
  }

  /**
   Repeated passes without new failures drain the queue: whatever the handlers do,
   as long as the database writes work, no row is open after as many passes as
   there were visits left in all.
   */
  lemma PassesDrain(qs: seq<Queue>, limit: int, max: nat, envs: seq<nat -> Env>)
    requires PassesRun(qs, limit, max, envs)
    requires forall k :: 0 <= k < |envs| ==> AlwaysRecorded(envs[k])
    requires |envs| >= TotalLeft(qs[0].rows, max)
    ensures forall i :: 0 <= i < |qs[|envs|].rows| ==> !Open(qs[|envs|].rows[i])
  {
    PassesShrink(qs, limit, max, envs, |envs|);
    NothingSelected(qs[|envs|].rows, Capped(limit), max);
  }

  /**
   A row whose retry cannot be recorded stops every pass before the younger rows,
   for as long as it is the oldest open one.
   */
  lemma UnrecordableRowBlocksTheRest(q: Queue, limit: int, max: nat, envs: nat -> Env)
    requires Select(q.rows, Capped(limit)) != []
    requires var e := envs(Select(q.rows, Capped(limit))[0]); !e.second && !(e.delivered && e.first)
    ensures Pass(q, Select(q.rows, Capped(limit)), max, envs).0.rows == q.rows
    ensures !Pass(q, Select(q.rows, Capped(limit)), max, envs).1
  {
    var ids := Select(q.rows, Capped(limit));
    hide Select, Capped;
    assert ids[..1] == [ids[0]] && ids[..1][..0] == [];
    assert Pass(q, ids[..1][..0], max, envs) == (q, true);
    PassFrom(q, ids, 1, max, envs);
  }

  // ---------------------------------------------------------------------------
  // Resolved rows
  // ---------------------------------------------------------------------------

  datatype Op = OpRecord(ok: bool) | OpRetry(id: nat, max: nat, env: Env)

  function Run(q: Queue, ops: seq<Op>): Queue {
    if ops == [] then q
    else
      var before := Run(q, ops[..|ops| - 1]);
      match ops[|ops| - 1]
      case OpRecord(ok) => Record(before, ok).0
      case OpRetry(id, max, env) => Retry(before, id, max, env).0
  }

  /** A RESOLVED row is never dispatched again and never changes, whatever is recorded or retried. */
  lemma {:induction false} ResolvedIsNeverSent(q: Queue, ops: seq<Op>, id: nat)
    requires id < |q.rows| && q.rows[id].status.Resolved?
    ensures var end := Run(q, ops);
            && id < |end.rows| && end.rows[id] == q.rows[id]
            && q.sent <= end.sent && id !in end.sent[|q.sent|..]
  {
    if ops != [] {
      var n := |ops| - 1;
      ResolvedIsNeverSent(q, ops[..n], id);
      var before, end := Run(q, ops[..n]), Run(q, ops);
      if end.sent != before.sent {
        assert end.sent == before.sent + [ops[n].id];
        assert end.sent[|q.sent|..] == before.sent[|q.sent|..] + [ops[n].id];
      }
    }
  }
}
