/**
 The sliding-window limiter for WebSocket events (`SocketRateLimiter` of
 src/socket.ts). It keeps only the timestamps that were recent at the key's last
 call; the proofs compare it with a limiter that remembers everything.
 */
module SlidingWindow {
  datatype Call = Call(key: string, now: int)

  type Windows = map<string, seq<int>>

  /** The timestamps less than `w` before `now`, in order. */
  function Recent(ts: seq<int>, now: int, w: int): (r: seq<int>)
    ensures |r| <= |ts|
  {
    if ts == [] then []
    else
      var n := |ts| - 1;
      Recent(ts[..n], now, w) + (if now - ts[n] < w then [ts[n]] else [])
  }

  function Kept(windows: Windows, key: string): seq<int> {
    if key in windows then windows[key] else []
  }

  function Step(windows: Windows, max: nat, w: int, c: Call): (Windows, bool) {
    var timestamps := Recent(Kept(windows, c.key), c.now, w);
    if |timestamps| >= max then (windows[c.key := timestamps], false)
    else (windows[c.key := timestamps + [c.now]], true)
  }

  class SocketRateLimiter {
    const max: nat
    const windowMs: int
    var windows: Windows

    constructor (max: nat, windowMs: int)
      ensures this.max == max && this.windowMs == windowMs && windows == map[]
    {
      this.max, this.windowMs, windows := max, windowMs, map[];
    }

    method IsAllowed(key: string, now: int) returns (allowed: bool)
      modifies this
      ensures (windows, allowed) == Step(old(windows), max, windowMs, Call(key, now))
    {
      var timestamps := if key in windows then windows[key] else [];
      timestamps := Recent(timestamps, now, windowMs);
      if |timestamps| >= max {
        windows := windows[key := timestamps];
        return false;
      }
      timestamps := timestamps + [now];
      windows := windows[key := timestamps];
      allowed := true;
    }
  }

  /** A history of calls with the limiter's answers. */
  function Run(max: nat, w: int, calls: seq<Call>): (r: (Windows, seq<bool>))
    ensures |r.1| == |calls|
  {
    if calls == [] then (map[], [])
    else
      var before := Run(max, w, calls[..|calls| - 1]);
      var step := Step(before.0, max, w, calls[|calls| - 1]);
      (step.0, before.1 + [step.1])
  }

  predicate Nondecreasing(calls: seq<Call>) {
    forall i, j :: 0 <= i < j < |calls| ==> calls[i].now <= calls[j].now
  }

  // ---------------------------------------------------------------------------
  // The reference: count over the whole history
  // ---------------------------------------------------------------------------

  /** The times of the key's allowed calls in the whole history. */
  function AllowedTimes(calls: seq<Call>, verdicts: seq<bool>, key: string): seq<int>
    requires |verdicts| == |calls|
  {
    if calls == [] then []
    else
      var n := |calls| - 1;
      AllowedTimes(calls[..n], verdicts[..n], key)
        + (if calls[n].key == key && verdicts[n] then [calls[n].now] else [])
  }

  function CountBetween(ts: seq<int>, from: int, to: int): nat {
    if ts == [] then 0
    else
      var n := |ts| - 1;
      CountBetween(ts[..n], from, to) + (if from <= ts[n] < to then 1 else 0)
  }

  /** A limiter without pruning: allowed iff fewer than `max` allowed calls lie in `(now - w, now]`. */
  function Reference(max: nat, w: int, calls: seq<Call>): (verdicts: seq<bool>)
    ensures |verdicts| == |calls|
  {
    if calls == [] then []
    else
      var n := |calls| - 1;
      var earlier := Reference(max, w, calls[..n]);
      var times := AllowedTimes(calls[..n], earlier, calls[n].key);
      earlier + [CountBetween(times, calls[n].now - w + 1, calls[n].now + 1) < max]
  }

  lemma RecentAppend(ts: seq<int>, t: int, now: int, w: int)
    ensures Recent(ts + [t], now, w) == Recent(ts, now, w) + (if now - t < w then [t] else [])
  {
    assert (ts + [t])[..|ts|] == ts;
  }

  /** Pruning twice is pruning once at the later time. */
  lemma {:induction false} RecentOfRecent(ts: seq<int>, earlier: int, now: int, w: int)
    requires earlier <= now
    ensures Recent(Recent(ts, earlier, w), now, w) == Recent(ts, now, w)
  {
    if ts != [] {
      var n := |ts| - 1;
      RecentOfRecent(ts[..n], earlier, now, w);
      if earlier - ts[n] < w {
        RecentAppend(Recent(ts[..n], earlier, w), ts[n], now, w);
      } else {
        assert Recent(ts[..n], earlier, w) + [] == Recent(ts[..n], earlier, w);
      }
    }
  }

  lemma RecentCounts(ts: seq<int>, now: int, w: int)
    requires forall k :: 0 <= k < |ts| ==> ts[k] <= now
    ensures |Recent(ts, now, w)| == CountBetween(ts, now - w + 1, now + 1)
  {
    if ts != [] {
      RecentCounts(ts[..|ts| - 1], now, w);
    }
  }

  lemma AllowedTimesBounded(calls: seq<Call>, verdicts: seq<bool>, key: string, now: int)
    requires |verdicts| == |calls| && forall k :: 0 <= k < |calls| ==> calls[k].now <= now
    ensures forall k :: 0 <= k < |AllowedTimes(calls, verdicts, key)| ==> AllowedTimes(calls, verdicts, key)[k] <= now
  {
    if calls != [] {
      AllowedTimesBounded(calls[..|calls| - 1], verdicts[..|calls| - 1], key, now);
    }
  }

  /** What is kept of a key answers every later question like the key's whole history. */
  ghost predicate Faithful(windows: Windows, max: nat, w: int, times: seq<int>, key: string, last: int) {
    && |Kept(windows, key)| <= max
    && forall now :: last <= now ==> Recent(Kept(windows, key), now, w) == Recent(times, now, w)
  }

  lemma KeptAnswers(windows: Windows, max: nat, w: int, c: Call, times: seq<int>, last: int, now: int)
    requires Faithful(windows, max, w, times, c.key, last) && last <= c.now <= now
    ensures var step := Step(windows, max, w, c);
            Recent(Kept(step.0, c.key), now, w) == Recent(if step.1 then times + [c.now] else times, now, w)
  {
    var kept := Recent(Kept(windows, c.key), c.now, w);
    assert kept == Recent(times, c.now, w);
    RecentOfRecent(times, c.now, now, w);
    RecentAppend(kept, c.now, now, w);
    RecentAppend(times, c.now, now, w);
  }

  lemma AllowedTimesStep(calls: seq<Call>, max: nat, w: int, key: string)
    requires calls != []
    ensures var n := |calls| - 1;
            var step := Step(Run(max, w, calls[..n]).0, max, w, calls[n]);
            && Run(max, w, calls).0 == step.0 && Run(max, w, calls).1[n] == step.1
            && AllowedTimes(calls, Run(max, w, calls).1, key)
            == AllowedTimes(calls[..n], Run(max, w, calls[..n]).1, key)
             + if calls[n].key == key && step.1 then [calls[n].now] else []
  {
    var n := |calls| - 1;
    assert Run(max, w, calls).1[..n] == Run(max, w, calls[..n]).1;
  }

  lemma {:induction false} RunIsFaithful(max: nat, w: int, calls: seq<Call>, key: string, last: int)
    requires Nondecreasing(calls) && forall k :: 0 <= k < |calls| ==> calls[k].now <= last
    ensures Faithful(Run(max, w, calls).0, max, w, AllowedTimes(calls, Run(max, w, calls).1, key), key, last)
  {
    if calls != [] {
      var n := |calls| - 1;
      RunIsFaithful(max, w, calls[..n], key, calls[n].now);
      AllowedTimesStep(calls, max, w, key);
      var times := AllowedTimes(calls[..n], Run(max, w, calls[..n]).1, key);
      assert times + [] == times;
      var c, windows := calls[n], Run(max, w, calls[..n]).0;
      if c.key == key {
        forall now | c.now <= now
          ensures Recent(Kept(Run(max, w, calls).0, key), now, w)
               == Recent(AllowedTimes(calls, Run(max, w, calls).1, key), now, w)
        {
          KeptAnswers(windows, max, w, c, times, c.now, now);
        }
      } else {
        assert Kept(Run(max, w, calls).0, key) == Kept(windows, key);
      }
    }
  }

  lemma VerdictFrom(windows: Windows, max: nat, w: int, c: Call, times: seq<int>)
    requires Faithful(windows, max, w, times, c.key, c.now)
    requires forall k :: 0 <= k < |times| ==> times[k] <= c.now
    ensures Step(windows, max, w, c).1 <==> CountBetween(times, c.now - w + 1, c.now + 1) < max
  {
    RecentCounts(times, c.now, w);
    assert Recent(Kept(windows, c.key), c.now, w) == Recent(times, c.now, w);
  }

  lemma VerdictAfter(max: nat, w: int, before: seq<Call>, c: Call)
    requires Nondecreasing(before) && forall k :: 0 <= k < |before| ==> before[k].now <= c.now
    ensures var times := AllowedTimes(before, Run(max, w, before).1, c.key);
            && (forall k :: 0 <= k < |times| ==> times[k] <= c.now)
            && (Step(Run(max, w, before).0, max, w, c).1 <==> CountBetween(times, c.now - w + 1, c.now + 1) < max)
  {
    var run := Run(max, w, before);
    RunIsFaithful(max, w, before, c.key, c.now);
    AllowedTimesBounded(before, run.1, c.key, c.now);
    VerdictFrom(run.0, max, w, c, AllowedTimes(before, run.1, c.key));
  }

  lemma InitIsOrdered(calls: seq<Call>, before: seq<Call>, c: Call)
    requires calls == before + [c] && Nondecreasing(calls)
    ensures Nondecreasing(before) && forall k :: 0 <= k < |before| ==> before[k].now <= c.now
  {
    assert calls[|before|] == c;
    assert forall k :: 0 <= k < |before| ==> calls[k] == before[k];
  }

  /** The last answer of a history, by counting in all of it. */
  lemma LastVerdict(max: nat, w: int, calls: seq<Call>, before: seq<Call>, c: Call)
    requires calls == before + [c] && Nondecreasing(calls)
    ensures var times := AllowedTimes(before, Run(max, w, before).1, c.key);
            Run(max, w, calls).1 == Run(max, w, before).1 + [CountBetween(times, c.now - w + 1, c.now + 1) < max]
  {
    InitIsOrdered(calls, before, c);
    VerdictAfter(max, w, before, c);
    assert calls[..|calls| - 1] == before;
  }

  /** The pruned limiter gives the answers of the one that forgets nothing, on every history. */
  lemma {:induction false} PruningIsExact(max: nat, w: int, calls: seq<Call>)
    requires Nondecreasing(calls)
    ensures Run(max, w, calls).1 == Reference(max, w, calls)
  {
    hide Run, Step, AllowedTimes, CountBetween;
    if calls != [] {
      PruningIsExact(max, w, calls[..|calls| - 1]);
      assert calls == calls[..|calls| - 1] + [calls[|calls| - 1]];
      LastVerdict(max, w, calls, calls[..|calls| - 1], calls[|calls| - 1]);
    }
  }

  /** No key ever holds more than `max` timestamps. */
  lemma KeptIsBounded(max: nat, w: int, calls: seq<Call>, key: string)
    requires Nondecreasing(calls)
    ensures |Kept(Run(max, w, calls).0, key)| <= max
  {
    if calls != [] {
      RunIsFaithful(max, w, calls, key, calls[|calls| - 1].now);
    }
  }

  // ---------------------------------------------------------------------------
  // What the limiter guarantees
  // ---------------------------------------------------------------------------

  lemma CountAppend(ts: seq<int>, t: int, from: int, to: int)
    ensures CountBetween(ts + [t], from, to) == CountBetween(ts, from, to) + if from <= t < to then 1 else 0
  {
    assert (ts + [t])[..|ts|] == ts;
  }

  lemma CountWidens(ts: seq<int>, from: int, to: int, from': int, to': int)
    requires from' <= from
    requires forall k :: 0 <= k < |ts| && ts[k] < to ==> ts[k] < to'
    ensures CountBetween(ts, from, to) <= CountBetween(ts, from', to')
  {
    if ts != [] {
      CountWidens(ts[..|ts| - 1], from, to, from', to');
    }
  }

  function AllowedIn(max: nat, w: int, calls: seq<Call>, key: string, from: int): nat {
    CountBetween(AllowedTimes(calls, Run(max, w, calls).1, key), from, from + w)
  }

  lemma LastCallFits(max: nat, w: int, calls: seq<Call>, from: int)
    requires calls != [] && Nondecreasing(calls) && Run(max, w, calls).1[|calls| - 1]
    requires from <= calls[|calls| - 1].now < from + w
    ensures AllowedIn(max, w, calls[..|calls| - 1], calls[|calls| - 1].key, from) < max
  {
    var before, c := calls[..|calls| - 1], calls[|calls| - 1];
    assert calls == before + [c];
    LastVerdict(max, w, calls, before, c);
    InitIsOrdered(calls, before, c);
    AllowedTimesBounded(before, Run(max, w, before).1, c.key, c.now);
    CountWidens(AllowedTimes(before, Run(max, w, before).1, c.key), from, from + w, c.now - w + 1, c.now + 1);
  }

  lemma AllowedInStep(max: nat, w: int, calls: seq<Call>, key: string, from: int)
    requires calls != []
    ensures var n := |calls| - 1;
            AllowedIn(max, w, calls, key, from)
            == AllowedIn(max, w, calls[..n], key, from)
             + if calls[n].key == key && Run(max, w, calls).1[n] && from <= calls[n].now < from + w then 1 else 0
  {
    var n := |calls| - 1;
    AllowedTimesStep(calls, max, w, key);
    var times := AllowedTimes(calls[..n], Run(max, w, calls[..n]).1, key);
    CountAppend(times, calls[n].now, from, from + w);
    assert times + [] == times;
  }

  /** At most `max` allowed calls of a key in every half-open interval of the window's length. */
  lemma {:induction false} IntervalAdmitsAtMostMax(max: nat, w: int, calls: seq<Call>, key: string, from: int)
    requires Nondecreasing(calls)
    ensures AllowedIn(max, w, calls, key, from) <= max
  {
    if calls != [] {
      var n := |calls| - 1;
      IntervalAdmitsAtMostMax(max, w, calls[..n], key, from);
      AllowedInStep(max, w, calls, key, from);
      if calls[n].key == key && Run(max, w, calls).1[n] && from <= calls[n].now < from + w {
        LastCallFits(max, w, calls, from);
      }
    }
  }

  /** No call is refused without need: the window that ends with it is full, with exactly `max` allowed calls. */
  lemma RefusedOnlyWhenFull(max: nat, w: int, before: seq<Call>, c: Call)
    requires Nondecreasing(before) && forall k :: 0 <= k < |before| ==> before[k].now <= c.now
    requires !Step(Run(max, w, before).0, max, w, c).1
    ensures AllowedIn(max, w, before, c.key, c.now - w + 1) == max
  {
    hide Step, Run, AllowedTimes, CountBetween, Nondecreasing;
    VerdictAfter(max, w, before, c);
    IntervalAdmitsAtMostMax(max, w, before, c.key, c.now - w + 1);
  }

  /** The calls of one key, and their answers. */
  function Of(calls: seq<Call>, verdicts: seq<bool>, key: string): (seq<Call>, seq<bool>)
    requires |verdicts| == |calls|
  {
    if calls == [] then ([], [])
    else
      var n := |calls| - 1;
      var earlier := Of(calls[..n], verdicts[..n], key);
      if calls[n].key == key then (earlier.0 + [calls[n]], earlier.1 + [verdicts[n]]) else earlier
  }

  /** Keys do not affect each other: a key is answered as if it were alone. */
  lemma {:induction false} KeysAreIndependent(max: nat, w: int, calls: seq<Call>, key: string)
    ensures var own := Of(calls, Run(max, w, calls).1, key);
            && Run(max, w, own.0).1 == own.1
            && Kept(Run(max, w, own.0).0, key) == Kept(Run(max, w, calls).0, key)
  {
    if calls != [] {
      var n := |calls| - 1;
      KeysAreIndependent(max, w, calls[..n], key);
      assert Run(max, w, calls).1[..n] == Run(max, w, calls[..n]).1;
      var earlier := Of(calls[..n], Run(max, w, calls[..n]).1, key);
      assert (earlier.0 + [calls[n]])[..|earlier.0|] == earlier.0;
    }
  }
}
