/**
 The leaderboard (src/services/leaderboard.service.ts): the incremental per-user
 aggregate, its accuracy figure, the two ways to compute a rank, and how its idea
 of a correct prediction compares with settlement's.
 */
module Leaderboard {
  import opened Wrappers
  import opened Sums
  import L = PredictionLedger
  import PriceRanges

  datatype Side = Up | Down

  datatype Prediction = Prediction(
    user: string, side: Option<Side>, range: Option<PriceRanges.Range>, amount: real, status: L.ChainStatus)

  datatype Round = Round(mode: L.Mode, startPrice: real, endPrice: Option<real>, predictions: seq<Prediction>)

  // ---------------------------------------------------------------------------
  // Processing rounds
  // ---------------------------------------------------------------------------

  /** `calculatePredictionResult` on a closed round; both ends of a range count. */
  predicate IsCorrect(p: Prediction, mode: L.Mode, startPrice: real, endPrice: real) {
    match mode
    case UpDown =>
      var priceWentUp := endPrice > startPrice;
      (p.side == Some(Up) && priceWentUp) || (p.side == Some(Down) && !priceWentUp)
    case Legends => p.range.Some? && p.range.value.min <= endPrice <= p.range.value.max
  }

  /** What one prediction contributes. */
  datatype Result = Result(user: string, mode: L.Mode, correct: bool, amount: real)

  datatype Stats = Stats(
    totalPredictions: nat, correctPredictions: nat, totalEarnings: real,
    upDownWins: nat, upDownLosses: nat, upDownEarnings: real,
    legendsWins: nat, legendsLosses: nat, legendsEarnings: real)

  type Table = map<string, Stats>

  function Earned(r: Result): real {
    if r.correct then r.amount else -r.amount
  }

  function One(b: bool): nat {
    if b then 1 else 0
  }

  function Upsert(table: Table, r: Result): Table {
    var upDown, legends := r.mode.UpDown?, r.mode.Legends?;
    if r.user !in table then
      table[r.user := Stats(
        1, One(r.correct), Earned(r),
        One(upDown && r.correct), One(upDown && !r.correct), if upDown then Earned(r) else 0.0,
        One(legends && r.correct), One(legends && !r.correct), if legends then Earned(r) else 0.0)]
    else
      var s := table[r.user];
      table[r.user := Stats(
        s.totalPredictions + 1, s.correctPredictions + One(r.correct), s.totalEarnings + Earned(r),
        s.upDownWins + One(upDown && r.correct), s.upDownLosses + One(upDown && !r.correct),
        s.upDownEarnings + (if upDown then Earned(r) else 0.0),
        s.legendsWins + One(legends && r.correct), s.legendsLosses + One(legends && !r.correct),
        s.legendsEarnings + (if legends then Earned(r) else 0.0))]
  }

  function UpsertAll(table: Table, results: seq<Result>): Table {
    if results == [] then table
    else Upsert(UpsertAll(table, results[..|results| - 1]), results[|results| - 1])
  }

  /** The results of a closed round's eligible predictions, in order. */
  function ResultsOf(predictions: seq<Prediction>, mode: L.Mode, startPrice: real, endPrice: real): seq<Result> {
    if predictions == [] then []
    else
      var n := |predictions| - 1;
      var p := predictions[n];
      ResultsOf(predictions[..n], mode, startPrice, endPrice)
        + (if p.status.Confirmed? || p.status.NotRequired?
           then [Result(p.user, mode, IsCorrect(p, mode, startPrice, endPrice), p.amount)] else [])
  }

  function Processed(round: Round, upTo: nat): seq<Result> {
    if round.endPrice.None? then []
    else
      var all := ResultsOf(round.predictions, round.mode, round.startPrice, round.endPrice.value);
      if upTo < |all| then all[..upTo] else all
  }

  class LeaderboardService {
    var table: Table

    constructor ()
      ensures table == map[]
    {
      table := map[];
    }

    /** Each upsert is its own transaction; the one numbered `failAt` throws and ends the call. */
    method UpdateUserStatsForRound(round: Round, failAt: nat) returns (ok: bool)
      modifies this
      ensures table == UpsertAll(old(table), Processed(round, failAt))
      ensures ok <==> round.endPrice.Some?
                      && failAt >= |ResultsOf(round.predictions, round.mode, round.startPrice, round.endPrice.value)|
    {
      if round.endPrice.None? { return false; }
      var endPrice := round.endPrice.value;
      var written := 0;
      ghost var all := ResultsOf(round.predictions, round.mode, round.startPrice, endPrice);
      for i := 0 to |round.predictions|
        invariant written == |ResultsOf(round.predictions[..i], round.mode, round.startPrice, endPrice)| <= failAt
        invariant table == UpsertAll(old(table), ResultsOf(round.predictions[..i], round.mode, round.startPrice, endPrice))
      {
        assert round.predictions[..i + 1][..i] == round.predictions[..i];
        var p := round.predictions[i];
        ghost var done := ResultsOf(round.predictions[..i], round.mode, round.startPrice, endPrice);
        ghost var next := ResultsOf(round.predictions[..i + 1], round.mode, round.startPrice, endPrice);
        if p.status.Confirmed? || p.status.NotRequired? {
          if written == failAt {
            ResultsGrow(round.predictions, i, round.mode, round.startPrice, endPrice);
            ResultsGrow(round.predictions, i + 1, round.mode, round.startPrice, endPrice);
            assert all[..failAt] == done;
            return false;
          }
          var isCorrect := IsCorrect(p, round.mode, round.startPrice, endPrice);
          assert next == done + [Result(p.user, round.mode, isCorrect, p.amount)];
          table := Upsert(table, Result(p.user, round.mode, isCorrect, p.amount));
          written := written + 1;
        } else {
          assert next == done + [] && done + [] == done;
        }
      }
      assert round.predictions[..|round.predictions|] == round.predictions;
      ok := true;
    }
  }

  lemma ResultsGrow(predictions: seq<Prediction>, i: nat, mode: L.Mode, startPrice: real, endPrice: real)
    requires i <= |predictions|
    ensures ResultsOf(predictions[..i], mode, startPrice, endPrice) <= ResultsOf(predictions, mode, startPrice, endPrice)
  {
    if i < |predictions| {
      var n := |predictions| - 1;
      ResultsGrow(predictions[..n], i, mode, startPrice, endPrice);
      assert predictions[..n][..i] == predictions[..i];
    } else {
      assert predictions[..i] == predictions;
    }
  }

  // ---------------------------------------------------------------------------
  // The aggregate equals recomputation
  // ---------------------------------------------------------------------------

  function Count<T>(s: seq<T>, p: T -> bool): nat {
    if s == [] then 0 else Count(s[..|s| - 1], p) + if p(s[|s| - 1]) then 1 else 0
  }

  lemma CountAppend<T>(s: seq<T>, x: T, p: T -> bool)
    ensures Count(s + [x], p) == Count(s, p) + if p(x) then 1 else 0
  {
    assert (s + [x])[..|s|] == s;
  }

  /** A user's row computed from scratch, column by column. */
  ghost function Recompute(results: seq<Result>, user: string): Stats {
    Stats(
      Count(results, (r: Result) => r.user == user),
      Count(results, (r: Result) => r.user == user && r.correct),
      Sum(results, (r: Result) => if r.user == user then Earned(r) else 0.0),
      Count(results, (r: Result) => r.user == user && r.mode.UpDown? && r.correct),
      Count(results, (r: Result) => r.user == user && r.mode.UpDown? && !r.correct),
      Sum(results, (r: Result) => if r.user == user && r.mode.UpDown? then Earned(r) else 0.0),
      Count(results, (r: Result) => r.user == user && r.mode.Legends? && r.correct),
      Count(results, (r: Result) => r.user == user && r.mode.Legends? && !r.correct),
      Sum(results, (r: Result) => if r.user == user && r.mode.Legends? then Earned(r) else 0.0))
  }

  lemma {:induction false} NoRowMeansNoResult(results: seq<Result>, user: string)
    requires Count(results, (r: Result) => r.user == user) == 0
    ensures Recompute(results, user) == Stats(0, 0, 0.0, 0, 0, 0.0, 0, 0, 0.0)
  {
    if results != [] {
      NoRowMeansNoResult(results[..|results| - 1], user);
    }
  }

  /** After any processing, a user has a row exactly when a result of theirs was processed, and it is the recomputed one. */
  lemma {:induction false} RowsAreRecomputed(results: seq<Result>, user: string)
    ensures user in UpsertAll(map[], results) <==> Count(results, (r: Result) => r.user == user) > 0
    ensures user in UpsertAll(map[], results) ==> UpsertAll(map[], results)[user] == Recompute(results, user)
  {
    if results != [] {
      var n := |results| - 1;
      RowsAreRecomputed(results[..n], user);
      if user !in UpsertAll(map[], results[..n]) {
        NoRowMeansNoResult(results[..n], user);
      }
    }
  }

  /** The columns of a row hang together, and no user gains or loses more than they staked. */
  lemma {:induction false} RowsAreConsistent(results: seq<Result>, user: string)
    requires forall k :: 0 <= k < |results| ==> results[k].amount >= 0.0
    ensures var s := Recompute(results, user);
            && s.totalPredictions == s.upDownWins + s.upDownLosses + s.legendsWins + s.legendsLosses
            && s.correctPredictions == s.upDownWins + s.legendsWins
            && s.totalEarnings == s.upDownEarnings + s.legendsEarnings
            && -Staked(results, user) <= s.totalEarnings <= Staked(results, user)
  {
    if results != [] {
      RowsAreConsistent(results[..|results| - 1], user);
    }
  }

  ghost function Staked(results: seq<Result>, user: string): real {
    Sum(results, (r: Result) => if r.user == user then r.amount else 0.0)
  }

  /** The stakes of the user's results of that mode, or of any mode, that came out so. */
  ghost function Stakes(results: seq<Result>, user: string, mode: Option<L.Mode>, correct: bool): real {
    Sum(results, (r: Result) =>
          if r.user == user && (mode.None? || r.mode == mode.value) && r.correct == correct then r.amount else 0.0)
  }

  /** Earnings are the stakes of the correct results less the stakes of the others, in all and mode by mode. */
  lemma {:induction false} EarningsAreTheStakes(results: seq<Result>, user: string)
    ensures var s := Recompute(results, user);
            && s.totalEarnings == Stakes(results, user, None, true) - Stakes(results, user, None, false)
            && s.upDownEarnings
               == Stakes(results, user, Some(L.UpDown), true) - Stakes(results, user, Some(L.UpDown), false)
            && s.legendsEarnings
               == Stakes(results, user, Some(L.Legends), true) - Stakes(results, user, Some(L.Legends), false)
  {
    if results != [] {
      EarningsAreTheStakes(results[..|results| - 1], user);
    }
  }

  /** The predictions that count: those on chain, and those that need no chain. */
  predicate Eligible(p: Prediction) {
    p.status.Confirmed? || p.status.NotRequired?
  }

  /** Each eligible prediction gives one result, and no other gives any. */
  lemma {:induction false} ResultsAreThePredictions(
      predictions: seq<Prediction>, mode: L.Mode, startPrice: real, endPrice: real, test: Result -> bool)
    ensures Count(ResultsOf(predictions, mode, startPrice, endPrice), test)
         == Count(predictions, (p: Prediction) =>
                    Eligible(p) && test(Result(p.user, mode, IsCorrect(p, mode, startPrice, endPrice), p.amount)))
  {
    if predictions != [] {
      var n := |predictions| - 1;
      ResultsAreThePredictions(predictions[..n], mode, startPrice, endPrice, test);
      var p, earlier := predictions[n], ResultsOf(predictions[..n], mode, startPrice, endPrice);
      if Eligible(p) {
        CountAppend(earlier, Result(p.user, mode, IsCorrect(p, mode, startPrice, endPrice), p.amount), test);
      } else {
        assert earlier + [] == earlier;
      }
    }
  }

  /**
   A round counts for a user what the user's eligible predictions in it were, as many
   as were correct, whatever the status of the others; and one that is not closed
   counts nothing.
   */
  lemma RoundIsCounted(round: Round, user: string, upTo: nat)
    requires upTo >= |round.predictions|
    ensures var table := UpsertAll(map[], Processed(round, upTo));
            var mine := Count(round.predictions, (p: Prediction) => Eligible(p) && p.user == user);
            && (user in table <==> round.endPrice.Some? && mine > 0)
            && (user in table ==>
                  && table[user].totalPredictions == mine
                  && table[user].correctPredictions
                     == Count(round.predictions, (p: Prediction) =>
                                Eligible(p) && p.user == user
                                && IsCorrect(p, round.mode, round.startPrice, round.endPrice.value)))
  {
    if round.endPrice.Some? {
      var start, end := round.startPrice, round.endPrice.value;
      var all := ResultsOf(round.predictions, round.mode, start, end);
      AtMostOneEach(round.predictions, round.mode, start, end);
      assert Processed(round, upTo) == all;
      RowsAreRecomputed(all, user);
      ResultsAreThePredictions(round.predictions, round.mode, start, end, (r: Result) => r.user == user);
      ResultsAreThePredictions(round.predictions, round.mode, start, end, (r: Result) => r.user == user && r.correct);
      SameCount(round.predictions,
                (p: Prediction) => Eligible(p) && p.user == user,
                (p: Prediction) => Eligible(p) && ((r: Result) => r.user == user)(
                                     Result(p.user, round.mode, IsCorrect(p, round.mode, start, end), p.amount)));
      SameCount(round.predictions,
                (p: Prediction) => Eligible(p) && p.user == user && IsCorrect(p, round.mode, start, end),
                (p: Prediction) => Eligible(p) && ((r: Result) => r.user == user && r.correct)(
                                     Result(p.user, round.mode, IsCorrect(p, round.mode, start, end), p.amount)));
    }
  }

  lemma {:induction false} SameCount<T>(s: seq<T>, p: T -> bool, q: T -> bool)
    requires forall x :: p(x) <==> q(x)
    ensures Count(s, p) == Count(s, q)
  {
    if s != [] {
      SameCount(s[..|s| - 1], p, q);
    }
  }

  lemma {:induction false} AtMostOneEach(predictions: seq<Prediction>, mode: L.Mode, startPrice: real, endPrice: real)
    ensures |ResultsOf(predictions, mode, startPrice, endPrice)| <= |predictions|
  {
    if predictions != [] {
      AtMostOneEach(predictions[..|predictions| - 1], mode, startPrice, endPrice);
    }
  }

  /** A call that fails at an upsert has processed the results before it, and only those. */
  lemma ProcessedUpTo(round: Round, upTo: nat)
    ensures var all := Processed(round, |round.predictions|);
            && Processed(round, upTo) <= all && |Processed(round, upTo)| == if upTo < |all| then upTo else |all|
  {
    if round.endPrice.Some? {
      AtMostOneEach(round.predictions, round.mode, round.startPrice, round.endPrice.value);
    }
  }

  /** Rounds leave no mark of having been processed: a rerun after a failure counts its first part twice. */
  lemma RerunCountsTwice(earlier: seq<Result>, round: seq<Result>, failAt: nat, user: string)
    requires failAt <= |round| && user in UpsertAll(map[], earlier + round[..failAt] + round)
    ensures UpsertAll(map[], earlier + round[..failAt] + round)[user].totalPredictions
         == Recompute(earlier + round, user).totalPredictions + Recompute(round[..failAt], user).totalPredictions
  {
    var mine := (r: Result) => r.user == user;
    RowsAreRecomputed(earlier + round[..failAt] + round, user);
    CountConcat(earlier + round[..failAt], round, mine);
    CountConcat(earlier, round[..failAt], mine);
    CountConcat(earlier, round, mine);
  }

  lemma CountConcat<T>(a: seq<T>, b: seq<T>, p: T -> bool)
    ensures Count(a + b, p) == Count(a, p) + Count(b, p)
  {
    if b == [] {
      assert a + b == a;
    } else {
      CountConcat(a, b[..|b| - 1], p);
      CountAppend(a + b[..|b| - 1], b[|b| - 1], p);
      assert a + b == a + b[..|b| - 1] + [b[|b| - 1]];
    }
  }

  // ---------------------------------------------------------------------------
  // Accuracy
  // ---------------------------------------------------------------------------

  /** In percent, rounded to two decimals. */
  function CalculateAccuracy(correct: nat, total: nat): real {
    if total == 0 then 0.0
    else ((correct as real) / (total as real) * 10000.0 + 0.5).Floor as real / 100.0
  }

  /**
   The figure is within half a hundredth of the true percentage, and shows 100
   exactly when at most one in 20000 missed.
   */
  lemma AccuracyIsClose(correct: nat, total: nat)
    requires correct <= total && total > 0
    ensures var a, truth := CalculateAccuracy(correct, total), (correct as real) / (total as real) * 100.0;
            truth - 0.005 < a <= truth + 0.005 && 0.0 <= a <= 100.0
    ensures CalculateAccuracy(correct, total) == 100.0 <==> 20000 * (total - correct) <= total
    ensures CalculateAccuracy(0, 0) == 0.0
  {
    var q := (correct as real) / (total as real);
    assert q * (total as real) == correct as real;
    var x := q * 10000.0 + 0.5;
    assert x.Floor as real <= x < x.Floor as real + 1.0;
    SignOfFactor(q - 1.0, total as real);
    SignOfFactor(-q, total as real);
    assert 0.0 <= q <= 1.0;
    ScaleByTotal(total, correct, q);
  }

  lemma SignOfFactor(a: real, t: real)
    requires t > 0.0
    ensures a * t <= 0.0 <==> a <= 0.0
  {
    if a > 0.0 {
      assert a * t > 0.0;
    } else {
      assert -a * t >= 0.0;
    }
  }

  lemma ScaleByTotal(total: nat, correct: nat, q: real)
    requires correct <= total && total > 0 && q * (total as real) == correct as real
    ensures 20000 * (total - correct) <= total <==> q * 10000.0 + 0.5 >= 10000.0
  {
    var t, c, a := total as real, correct as real, 20000.0 * (1.0 - q) - 1.0;
    assert a * t == 20000.0 * (t - q * t) - t;
    assert 20000.0 * (t - c) - t == (20000 * (total - correct) - total) as real;
    SignOfFactor(a, t);
  }

  // ---------------------------------------------------------------------------
  // Ranks
  // ---------------------------------------------------------------------------

  datatype Entry = Entry(user: string, earnings: real)

  /** The order of the sorted set read backwards, and of the database page: earnings never rise. */
  predicate Ranked(entries: seq<Entry>) {
    forall i, j :: 0 <= i < j < |entries| ==> entries[i].earnings >= entries[j].earnings
  }

  predicate DistinctEarnings(entries: seq<Entry>) {
    forall i, j :: 0 <= i < j < |entries| ==> entries[i].earnings != entries[j].earnings
  }

  /** `COUNT(*) WHERE totalEarnings > x`. */
  function CountAbove(entries: seq<Entry>, x: real): nat {
    Count(entries, (e: Entry) => e.earnings > x)
  }

  function CountFrom(entries: seq<Entry>, x: real): nat {
    Count(entries, (e: Entry) => e.earnings >= x)
  }

  lemma CountAll<T>(s: seq<T>, p: T -> bool, n: nat)
    requires n <= |s| && (forall k :: 0 <= k < n ==> p(s[k])) && (forall k :: n <= k < |s| ==> !p(s[k]))
    ensures Count(s, p) == n
  {
    if |s| > n {
      CountAll(s[..|s| - 1], p, n);
    } else if n > 0 {
      CountAll(s[..n - 1], p, n - 1);
    }
  }

  lemma CountBounds<T>(s: seq<T>, p: T -> bool, n: nat)
    requires n <= |s|
    ensures (forall k :: n <= k < |s| ==> !p(s[k])) ==> Count(s, p) <= n
    ensures (forall k :: 0 <= k < n ==> p(s[k])) ==> Count(s, p) >= n
  {
    if |s| > 0 {
      CountBounds(s[..|s| - 1], p, if n < |s| then n else n - 1);
    }
  }

  lemma {:induction false} CountPermuted<T>(s: seq<T>, t: seq<T>, p: T -> bool)
    requires multiset(s) == multiset(t)
    ensures Count(s, p) == Count(t, p)
  {
    if s == [] {
      assert t == [] by { assert |multiset(t)| == |t|; }
    } else {
      var init, last := s[..|s| - 1], s[|s| - 1];
      assert s == init + [last];
      var before, after := Around(t, last, init);
      RemoveMiddle(before, last, after, p);
      CountPermuted(init, before + after, p);
    }
  }

  /** A permutation of `init + [last]` has `last` somewhere, and the rest is a permutation of `init`. */
  lemma Around<T>(t: seq<T>, last: T, init: seq<T>) returns (before: seq<T>, after: seq<T>)
    requires multiset(init + [last]) == multiset(t)
    ensures t == before + [last] + after && multiset(init) == multiset(before + after)
  {
    assert last in multiset(init + [last]);
    var k :| 0 <= k < |t| && t[k] == last;
    before, after := t[..k], t[k + 1..];
    assert t == before + [last] + after;
    assert multiset(before + [last] + after) == multiset(before + after) + multiset{last};
    assert multiset(init + [last]) == multiset(init) + multiset{last};
    assert multiset(init) == multiset(init + [last]) - multiset{last};
  }

  lemma RemoveMiddle<T>(before: seq<T>, x: T, after: seq<T>, p: T -> bool)
    ensures multiset(before + after) == multiset(before + [x] + after) - multiset{x}
    ensures Count(before + [x] + after, p) == Count(before + after, p) + if p(x) then 1 else 0
  {
    CountConcat(before, after, p);
    CountConcat(before + [x], after, p);
    CountAppend(before, x, p);
  }

  /**
   The sorted-set position and the COUNT over the table, when both hold the same
   earnings: the rank lies between COUNT(greater) + 1 and COUNT(greater or equal),
   and is COUNT(greater) + 1 exactly when the entry before it earns more.
   */
  lemma SortedSetRank(ranked: seq<Entry>, rows: seq<Entry>, i: nat)
    requires Ranked(ranked) && multiset(ranked) == multiset(rows) && i < |ranked|
    ensures var x, rank := ranked[i].earnings, i + 1;
            && CountAbove(rows, x) + 1 <= rank <= CountFrom(rows, x)
            && (rank == CountAbove(rows, x) + 1 <==> i == 0 || ranked[i - 1].earnings > x)
  {
    var x := ranked[i].earnings;
    var above, from := (e: Entry) => e.earnings > x, (e: Entry) => e.earnings >= x;
    CountPermuted(ranked, rows, above);
    CountPermuted(ranked, rows, from);
    CountBounds(ranked, above, i);
    CountBounds(ranked, from, i + 1);
    if i > 0 && ranked[i - 1].earnings == x {
      CountBounds(ranked, above, i - 1);
    }
  }

  /** With distinct earnings every sorted-set page, and every rank on it, is the database's. */
  lemma PagesAgree(ranked: seq<Entry>, db: seq<Entry>, offset: nat, limit: nat)
    requires Ranked(ranked) && Ranked(db) && multiset(ranked) == multiset(db) && DistinctEarnings(db)
    requires offset + limit <= |db|
    ensures |ranked| == |db| && ranked[offset..offset + limit] == db[offset..offset + limit]
    ensures forall k :: offset <= k < offset + limit ==> k + 1 == CountAbove(db, ranked[k].earnings) + 1
  {
    assert |multiset(ranked)| == |ranked| && |multiset(db)| == |db|;
    forall i | 0 <= i < |db| ensures ranked[i] == db[i] && CountAbove(db, db[i].earnings) == i {
      SortedSetRank(db, db, i);
      assert db[i] in multiset(ranked);
      var j :| 0 <= j < |ranked| && ranked[j] == db[i];
      SameIndex(ranked, db, i, j);
    }
  }

  lemma SameIndex(ranked: seq<Entry>, db: seq<Entry>, i: nat, j: nat)
    requires Ranked(ranked) && Ranked(db) && multiset(ranked) == multiset(db) && DistinctEarnings(db)
    requires i < |db| && j < |ranked| && ranked[j] == db[i]
    ensures i == j
  {
    var x := db[i].earnings;
    SortedSetRank(db, db, i);
    SortedSetRank(ranked, db, j);
    CountBounds(db, (e: Entry) => e.earnings >= x, i + 1);
  }

  // ---------------------------------------------------------------------------
  // Reading the leaderboard, with and without the sorted set
  // ---------------------------------------------------------------------------

  function PositionOf(entries: seq<Entry>, user: string): (r: Option<nat>)
    ensures r.Some? ==> r.value < |entries| && entries[r.value].user == user
    ensures r.None? ==> forall i :: 0 <= i < |entries| ==> entries[i].user != user
  {
    if entries == [] then None
    else if entries[|entries| - 1].user == user then Some(|entries| - 1)
    else PositionOf(entries[..|entries| - 1], user)
  }

  predicate UniqueUsers(entries: seq<Entry>) {
    forall i, j :: 0 <= i < j < |entries| ==> entries[i].user != entries[j].user
  }

  /** The sorted set holds the table. */
  predicate InSync(zset: seq<Entry>, rows: seq<Entry>) {
    Ranked(zset) && multiset(zset) == multiset(rows) && UniqueUsers(rows)
  }

  lemma SameEntry(zset: seq<Entry>, rows: seq<Entry>, i: nat, j: nat)
    requires InSync(zset, rows) && i < |zset| && j < |rows| && zset[i].user == rows[j].user
    ensures zset[i] == rows[j]
  {
    assert zset[i] in multiset(rows);
    var k :| 0 <= k < |rows| && rows[k] == zset[i];
  }

  lemma SyncedRank(zset: seq<Entry>, rows: seq<Entry>, user: string)
    requires PositionOf(rows, user).Some?
    ensures InSync(zset, rows) ==>
              && PositionOf(zset, user).Some?
              && var x, rank := rows[PositionOf(rows, user).value].earnings, PositionOf(zset, user).value + 1;
                 && CountAbove(rows, x) + 1 <= rank <= CountFrom(rows, x)
                 && (DistinctEarnings(zset) ==> rank == CountAbove(rows, x) + 1)
  {
    if InSync(zset, rows) {
      var j := PositionOf(rows, user).value;
      assert rows[j] in multiset(zset);
      var k :| 0 <= k < |zset| && zset[k] == rows[j];
      var i := PositionOf(zset, user).value;
      SameEntry(zset, rows, i, j);
      SortedSetRank(zset, rows, i);
    }
  }

  /**
   The rank of one user: by the sorted set if it has the user, by counting
   otherwise. Where the sorted set is in sync both answers lie in the same bounds,
   and are the same when no two users earn the same.
   */
  method GetUserPosition(zset: Option<seq<Entry>>, rows: seq<Entry>, user: string) returns (rank: Option<nat>)
    ensures rank.None? <==> PositionOf(rows, user).None?
    ensures rank.Some? && (zset.None? || PositionOf(zset.value, user).None?) ==>
              rank.value == CountAbove(rows, rows[PositionOf(rows, user).value].earnings) + 1
    ensures rank.Some? && zset.Some? && InSync(zset.value, rows) ==>
              var x := rows[PositionOf(rows, user).value].earnings;
              && CountAbove(rows, x) + 1 <= rank.value <= CountFrom(rows, x)
              && (DistinctEarnings(zset.value) ==> rank.value == CountAbove(rows, x) + 1)
  {
    var row := PositionOf(rows, user);
    if row.None? { return None; }
    var stats := rows[row.value];
    if zset.Some? {
      SyncedRank(zset.value, rows, user);
      var zRank := PositionOf(zset.value, user);
      if zRank.Some? {
        return Some(zRank.value + 1);
      }
    }
    var above := CountGreater(rows, stats.earnings);
    rank := Some(above + 1);
  }

  method CountGreater(rows: seq<Entry>, x: real) returns (n: nat)
    ensures n == CountAbove(rows, x)
  {
    n := 0;
    for i := 0 to |rows|
      invariant n == CountAbove(rows[..i], x)
    {
      assert rows[..i + 1] == rows[..i] + [rows[i]];
      CountAppend(rows[..i], rows[i], (e: Entry) => e.earnings > x);
      if rows[i].earnings > x { n := n + 1; }
    }
    assert rows[..|rows|] == rows;
  }

  datatype Placed = Placed(entry: Entry, rank: nat)

  function Window(entries: seq<Entry>, offset: nat, limit: nat): seq<Entry> {
    if offset >= |entries| then []
    else if offset + limit >= |entries| then entries[offset..]
    else entries[offset..offset + limit]
  }

  /** A page is the entries from its offset on, as many as its limit or as there are. */
  lemma WindowTold(entries: seq<Entry>, offset: nat, limit: nat)
    ensures var page := Window(entries, offset, limit);
            && |page| == (if offset >= |entries| then 0 else if |entries| - offset < limit then |entries| - offset else limit)
            && forall k :: 0 <= k < |page| ==> page[k] == entries[offset + k]
  {
  }

  /** Members of the sorted set with their stats rows; a member without one is left out, and its rank with it. */
  function FromMembers(members: seq<Entry>, rows: seq<Entry>, offset: nat): seq<Placed> {
    if members == [] then []
    else
      var n := |members| - 1;
      var at := PositionOf(rows, members[n].user);
      FromMembers(members[..n], rows, offset)
        + (if at.Some? then [Placed(rows[at.value], offset + n + 1)] else [])
  }

  function Numbered(entries: seq<Entry>, offset: nat): seq<Placed> {
    seq(|entries|, i requires 0 <= i < |entries| => Placed(entries[i], offset + i + 1))
  }

  /** `ordered` is the table in the database's order. */
  method GetLeaderboard(zset: Option<seq<Entry>>, ordered: seq<Entry>, limit: nat, offset: nat)
    returns (leaderboard: seq<Placed>)
    ensures leaderboard ==
              if zset.Some? && Window(zset.value, offset, limit) != []
              then FromMembers(Window(zset.value, offset, limit), ordered, offset)
              else Numbered(Window(ordered, offset, limit), offset)
    ensures zset.Some? && InSync(zset.value, ordered) && Ranked(ordered) && DistinctEarnings(ordered) ==>
              leaderboard == Numbered(Window(ordered, offset, limit), offset)
  {
    if zset.Some? {
      var zsetMembers := Window(zset.value, offset, limit);
      if |zsetMembers| > 0 {
        leaderboard := [];
        for index := 0 to |zsetMembers|
          invariant leaderboard == FromMembers(zsetMembers[..index], ordered, offset)
        {
          assert zsetMembers[..index + 1][..index] == zsetMembers[..index];
          var at := PositionOf(ordered, zsetMembers[index].user);
          if at.Some? {
            leaderboard := leaderboard + [Placed(ordered[at.value], offset + index + 1)];
          }
        }
        assert zsetMembers[..|zsetMembers|] == zsetMembers;
        BothPathsAgree(zset.value, ordered, limit, offset);
        return;
      }
    }
    leaderboard := Numbered(Window(ordered, offset, limit), offset);
  }

  lemma SameOrder(zset: seq<Entry>, ordered: seq<Entry>)
    requires InSync(zset, ordered) && Ranked(ordered) && DistinctEarnings(ordered)
    ensures zset == ordered
  {
    PagesAgree(zset, ordered, 0, |ordered|);
    assert zset[0..0 + |ordered|] == zset;
  }

  lemma BothPathsAgree(zset: seq<Entry>, ordered: seq<Entry>, limit: nat, offset: nat)
    ensures InSync(zset, ordered) && Ranked(ordered) && DistinctEarnings(ordered) ==>
              (FromMembers(Window(zset, offset, limit), ordered, offset)
               == Numbered(Window(ordered, offset, limit), offset))
  {
    if InSync(zset, ordered) && Ranked(ordered) && DistinctEarnings(ordered) {
      SameOrder(zset, ordered);
      var window := Window(ordered, offset, limit);
      forall i | 0 <= i < |window| ensures window[i] in ordered {
        assert window[i] == ordered[offset + i];
      }
      OwnRows(window, ordered, offset);
    }
  }

  lemma {:induction false} OwnRows(members: seq<Entry>, rows: seq<Entry>, offset: nat)
    requires UniqueUsers(rows) && forall i :: 0 <= i < |members| ==> members[i] in rows
    ensures FromMembers(members, rows, offset) == Numbered(members, offset)
  {
    if members != [] {
      var init, last := members[..|members| - 1], members[|members| - 1];
      assert members == init + [last];
      OwnRows(init, rows, offset);
    }
  }

  // ---------------------------------------------------------------------------
  // Correct on the leaderboard, won at settlement
  // ---------------------------------------------------------------------------

  /** What settlement decides; `None` is a refund. */
  function UpDownWon(side: Option<Side>, startPrice: real, endPrice: real): Option<bool> {
    if endPrice == startPrice then None
    else Some(side == Some(if endPrice > startPrice then Up else Down))
  }

  function LegendsWon(ranges: seq<PriceRanges.Range>, range: PriceRanges.Range, endPrice: real): Option<bool> {
    var winner := PriceRanges.Winner(ranges, endPrice);
    if winner.None? then None else Some(winner.value == range)
  }

  /** UP_DOWN: the leaderboard counts a refunded DOWN as correct when the price did not move, and agrees otherwise. */
  lemma UpDownDisagreesIff(p: Prediction, startPrice: real, endPrice: real)
    ensures IsCorrect(p, L.UpDown, startPrice, endPrice) != (UpDownWon(p.side, startPrice, endPrice) == Some(true))
       <==> endPrice == startPrice && p.side == Some(Down)
  {
  }

  /**
   LEGENDS: the leaderboard counts a prediction as correct that settlement did not
   pay exactly when the price is the upper bound of a range other than the last.
   */
  lemma LegendsDisagreesIff(p: Prediction, ranges: seq<PriceRanges.Range>, startPrice: real, endPrice: real)
    requires PriceRanges.AllValid(ranges) && PriceRanges.PairwiseApart(ranges)
    requires p.range.Some? && p.range.value in ranges
    ensures IsCorrect(p, L.Legends, startPrice, endPrice) != (LegendsWon(ranges, p.range.value, endPrice) == Some(true))
       <==> endPrice == p.range.value.max && p.range.value != PriceRanges.Last(ranges)
  {
    PriceRanges.WinnerIff(ranges, endPrice, p.range.value);
    var i :| 0 <= i < |ranges| && ranges[i] == p.range.value;
    assert PriceRanges.Valid(ranges[i]);
  }
}
