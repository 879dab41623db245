/**
 Pool bookkeeping outside the prediction ledger: the in-memory bet store
 (src/data/bet-store.ts) and the transactional hackathon bet
 (src/services/hackathon.service.ts). Amounts are integers in units of 1e-8.
 */
module BetStore {
  import opened Wrappers

  datatype Mode = UpDown | Precision

  datatype Side = Up | Down

  datatype BetStatus = Stub | Submitted | Confirmed | Failed

  datatype Round = Round(mode: Mode, poolUp: int, poolDown: int, totalPool: int, predictionCount: nat)

  /** `side` is absent for precision bets and `round` for bets that found no round of their mode. */
  datatype Bet = Bet(round: Option<string>, side: Option<Side>, amount: int, status: BetStatus, txHash: Option<string>)

  datatype Store = Store(rounds: map<string, Round>, bets: seq<Bet>)

  datatype Op =
    | AddUpDown(round: string, upDownAmount: int, side: Side, upDownStatus: BetStatus)
    | AddPrecision(round: string, amount: int, status: BetStatus)
    | MarkSubmitted(bet: nat)
    | MarkConfirmed(bet: nat, hash: string)
    | MarkFailed(bet: nat)

  function Mark(s: Store, bet: nat, status: BetStatus, hash: Option<string>): Store {
    if bet >= |s.bets| then s
    else
      var b := s.bets[bet];
      s.(bets := s.bets[bet := b.(status := status, txHash := if hash.Some? then hash else b.txHash)])
  }

  function Apply(s: Store, op: Op): Store {
    match op
    case AddUpDown(id, amount, side, status) =>
      if id in s.rounds && s.rounds[id].mode.UpDown? then
        var r := s.rounds[id];
        var up := if side.Up? then r.poolUp + amount else r.poolUp;
        var down := if side.Down? then r.poolDown + amount else r.poolDown;
        Store(s.rounds[id := r.(poolUp := up, poolDown := down, totalPool := up + down)],
              s.bets + [Bet(Some(id), Some(side), amount, status, None)])
      else s.(bets := s.bets + [Bet(None, Some(side), amount, status, None)])
    case AddPrecision(id, amount, status) =>
      if id in s.rounds && s.rounds[id].mode.Precision? then
        var r := s.rounds[id];
        Store(s.rounds[id := r.(totalPool := r.totalPool + amount, predictionCount := r.predictionCount + 1)],
              s.bets + [Bet(Some(id), None, amount, status, None)])
      else s.(bets := s.bets + [Bet(None, None, amount, status, None)])
    case MarkSubmitted(bet) => Mark(s, bet, Submitted, None)
    case MarkConfirmed(bet, hash) => Mark(s, bet, Confirmed, Some(hash))
    case MarkFailed(bet) => Mark(s, bet, Failed, None)
  }

  class InMemoryBetStore {
    var rounds: map<string, Round>
    var bets: seq<Bet>
    var totalBetsCount: nat

    ghost predicate Valid()
      reads this
    {
      totalBetsCount == |bets|
    }

    constructor (seed: map<string, Round>)
      ensures Valid() && rounds == seed && bets == []
    {
      rounds, bets, totalBetsCount := seed, [], 0;
    }

    method RecordBet(bet: Bet)
      requires Valid()
      modifies this`bets, this`totalBetsCount
      ensures Valid() && bets == old(bets) + [bet]
    {
      bets := bets + [bet];
      totalBetsCount := totalBetsCount + 1;
    }

    method AddUpDownBet(id: string, amount: int, side: Side, status: BetStatus)
      requires Valid()
      modifies this
      ensures Valid() && Store(rounds, bets) == Apply(old(Store(rounds, bets)), AddUpDown(id, amount, side, status))
    {
      var bound: Option<string> := None;
      if id in rounds && rounds[id].mode.UpDown? {
        var round := rounds[id];
        if side.Up? {
          round := round.(poolUp := round.poolUp + amount);
        } else {
          round := round.(poolDown := round.poolDown + amount);
        }
        round := round.(totalPool := round.poolUp + round.poolDown);
        rounds := rounds[id := round];
        bound := Some(id);
      }
      RecordBet(Bet(bound, Some(side), amount, status, None));
    }

    method AddPrecisionBet(id: string, amount: int, status: BetStatus)
      requires Valid()
      modifies this
      ensures Valid() && Store(rounds, bets) == Apply(old(Store(rounds, bets)), AddPrecision(id, amount, status))
    {
      var bound: Option<string> := None;
      if id in rounds && rounds[id].mode.Precision? {
        var round := rounds[id];
        round := round.(totalPool := round.totalPool + amount);
        round := round.(predictionCount := round.predictionCount + 1);
        rounds := rounds[id := round];
        bound := Some(id);
      }
      RecordBet(Bet(bound, None, amount, status, None));
    }

    method MarkBetSubmitted(bet: nat)
      requires Valid()
      modifies this
      ensures Valid() && Store(rounds, bets) == Apply(old(Store(rounds, bets)), MarkSubmitted(bet))
    {
      if bet >= |bets| { return; }
      bets := bets[bet := bets[bet].(status := Submitted)];
    }

    method MarkBetConfirmed(bet: nat, hash: string)
      requires Valid()
      modifies this
      ensures Valid() && Store(rounds, bets) == Apply(old(Store(rounds, bets)), MarkConfirmed(bet, hash))
    {
      if bet >= |bets| { return; }
      bets := bets[bet := bets[bet].(status := Confirmed, txHash := Some(hash))];
    }

    method MarkBetFailed(bet: nat)
      requires Valid()
      modifies this
      ensures Valid() && Store(rounds, bets) == Apply(old(Store(rounds, bets)), MarkFailed(bet))
    {
      if bet >= |bets| { return; }
      bets := bets[bet := bets[bet].(status := Failed)];
    }

    /** The counts per status add up to the number of bets taken. */
    method GetReconciliationSummary() returns (stub: nat, submitted: nat, confirmed: nat, failed: nat)
      requires Valid()
      ensures stub == CountOf(bets, Stub) && submitted == CountOf(bets, Submitted)
      ensures confirmed == CountOf(bets, Confirmed) && failed == CountOf(bets, Failed)
      ensures stub + submitted + confirmed + failed == totalBetsCount
    {
      stub, submitted, confirmed, failed := 0, 0, 0, 0;
      for i := 0 to |bets|
        invariant stub == CountOf(bets[..i], Stub) && submitted == CountOf(bets[..i], Submitted)
        invariant confirmed == CountOf(bets[..i], Confirmed) && failed == CountOf(bets[..i], Failed)
        invariant stub + submitted + confirmed + failed == i
      {
        assert bets[..i + 1][..i] == bets[..i];
        match bets[i].status {
          case Stub => stub := stub + 1;
          case Submitted => submitted := submitted + 1;
          case Confirmed => confirmed := confirmed + 1;
          case Failed => failed := failed + 1;
        }
      }
      assert bets[..|bets|] == bets;
    }
  }

  function CountOf(bets: seq<Bet>, status: BetStatus): nat {
    if bets == [] then 0
    else CountOf(bets[..|bets| - 1], status) + if bets[|bets| - 1].status == status then 1 else 0
  }

  // ---------------------------------------------------------------------------
  // Pools against the bets bound to the round
  // ---------------------------------------------------------------------------

  /** What the bets bound to a round staked on a side, or without one. */
  function Staked(bets: seq<Bet>, round: string, side: Option<Side>): int {
    if bets == [] then 0
    else
      var b := bets[|bets| - 1];
      Staked(bets[..|bets| - 1], round, side) + if b.round == Some(round) && b.side == side then b.amount else 0
  }

  function BoundTo(bets: seq<Bet>, round: string): nat {
    if bets == [] then 0
    else BoundTo(bets[..|bets| - 1], round) + if bets[|bets| - 1].round == Some(round) then 1 else 0
  }

  function Run(seed: map<string, Round>, ops: seq<Op>): Store {
    if ops == [] then Store(seed, []) else Apply(Run(seed, ops[..|ops| - 1]), ops[|ops| - 1])
  }

  /** The round is there and of the mode that is bet on. */
  predicate Takes(s: Store, id: string, mode: Mode) {
    id in s.rounds && s.rounds[id].mode == mode
  }

  /**
   What each operation does to the bets: a bet is taken as it was made, bound to the
   round it names exactly if there is one of its mode; and a mark changes the status
   of its bet alone, and its hash when it brings one.
   */
  lemma BetsTold(s: Store, op: Op)
    ensures var s' := Apply(s, op);
            match op
            case AddUpDown(id, amount, side, status) =>
              s'.bets == s.bets + [Bet(if Takes(s, id, UpDown) then Some(id) else None, Some(side), amount, status, None)]
            case AddPrecision(id, amount, status) =>
              s'.bets == s.bets + [Bet(if Takes(s, id, Precision) then Some(id) else None, None, amount, status, None)]
            case MarkSubmitted(bet) => Marked(s, s', bet, Submitted, None)
            case MarkConfirmed(bet, hash) => Marked(s, s', bet, Confirmed, Some(hash))
            case MarkFailed(bet) => Marked(s, s', bet, Failed, None)
  {
  }

  predicate Marked(s: Store, s': Store, bet: nat, status: BetStatus, hash: Option<string>) {
    && s'.rounds == s.rounds && |s'.bets| == |s.bets|
    && (forall k :: 0 <= k < |s.bets| && k != bet ==> s'.bets[k] == s.bets[k])
    && (bet < |s.bets| ==>
          var was, now := s.bets[bet], s'.bets[bet];
          && now.round == was.round && now.side == was.side && now.amount == was.amount
          && now.status == status && (if hash.Some? then now.txHash == hash else now.txHash == was.txHash))
  }

  lemma {:induction false} MarkKeepsStakes(bets: seq<Bet>, i: nat, b: Bet, round: string, side: Option<Side>)
    requires i < |bets| && b.round == bets[i].round && b.side == bets[i].side && b.amount == bets[i].amount
    ensures Staked(bets[i := b], round, side) == Staked(bets, round, side)
    ensures BoundTo(bets[i := b], round) == BoundTo(bets, round)
  {
    var n := |bets| - 1;
    if i == n {
      assert bets[i := b][..n] == bets[..n];
    } else {
      assert bets[i := b][..n] == bets[..n][i := b];
      MarkKeepsStakes(bets[..n], i, b, round, side);
    }
  }

  /** The pools of a round equal its seed and exactly what was staked on it. */
  ghost predicate Backed(seed: map<string, Round>, s: Store, id: string) {
    && (id in s.rounds <==> id in seed)
    && (id in seed ==>
          var from, now := seed[id], s.rounds[id];
          && now.mode == from.mode
          && now.poolUp == from.poolUp + Staked(s.bets, id, Some(Up))
          && now.poolDown == from.poolDown + Staked(s.bets, id, Some(Down))
          && (from.mode.UpDown? ==> now.predictionCount == from.predictionCount && Staked(s.bets, id, None) == 0
                                    && (from.totalPool == from.poolUp + from.poolDown ==>
                                          now.totalPool == now.poolUp + now.poolDown))
          && (from.mode.Precision? ==>
                && now.totalPool == from.totalPool + Staked(s.bets, id, None)
                && now.predictionCount == from.predictionCount + BoundTo(s.bets, id)
                && Staked(s.bets, id, Some(Up)) == 0 && Staked(s.bets, id, Some(Down)) == 0))
  }

  lemma ApplyKeepsBacked(seed: map<string, Round>, s: Store, op: Op, id: string)
    requires Backed(seed, s, id)
    ensures Backed(seed, Apply(s, op), id)
  {
    var s' := Apply(s, op);
    if |s'.bets| > |s.bets| {
      var b := s'.bets[|s.bets|];
      assert s'.bets == s.bets + [b];
    } else if s' != s {
      MarkKeepsStakes(s.bets, op.bet, s'.bets[op.bet], id, Some(Up));
      MarkKeepsStakes(s.bets, op.bet, s'.bets[op.bet], id, Some(Down));
      MarkKeepsStakes(s.bets, op.bet, s'.bets[op.bet], id, None);
    }
  }

  /**
   Over every run of the store each round's pools are its seed plus exactly the
   amounts of the bets bound to it, whatever happened to those bets since; a
   precision round also counts them, an up/down round never does.
   */
  lemma {:induction false} PoolsAreBacked(seed: map<string, Round>, ops: seq<Op>, id: string)
    ensures Backed(seed, Run(seed, ops), id)
  {
    if ops != [] {
      PoolsAreBacked(seed, ops[..|ops| - 1], id);
      ApplyKeepsBacked(seed, Run(seed, ops[..|ops| - 1]), ops[|ops| - 1], id);
    }
  }

  // ---------------------------------------------------------------------------
  // Hackathon bets
  // ---------------------------------------------------------------------------

  datatype HackRound = HackRound(active: bool, poolUp: int, poolDown: int)

  datatype HackError = RoundNotFound | RoundNotActive | InsufficientBalance

  datatype HackDb = HackDb(balances: seq<int>, rounds: seq<HackRound>)

  datatype HackResult = Placed(db: HackDb) | Rejected(error: HackError)

  function PlaceTransactionalBet(db: HackDb, user: nat, round: nat, amount: int, side: Side): HackResult {
    if round >= |db.rounds| then Rejected(RoundNotFound)
    else if !db.rounds[round].active then Rejected(RoundNotActive)
    else if user >= |db.balances| || db.balances[user] < amount then Rejected(InsufficientBalance)
    else
      var r := db.rounds[round];
      Placed(HackDb(
        db.balances[user := db.balances[user] - amount],
        db.rounds[round := if side.Up? then r.(poolUp := r.poolUp + amount) else r.(poolDown := r.poolDown + amount)]))
  }

  /**
   A hackathon bet is placed exactly when its round exists and is active and its user
   can pay, and each refusal names the first of these that is wrong. The user pays
   the stake and the pool of the side gets it; nothing else changes.
   */
  lemma HackathonBetTold(db: HackDb, user: nat, round: nat, amount: int, side: Side)
    ensures var result := PlaceTransactionalBet(db, user, round, amount, side);
            var canPay := user < |db.balances| && db.balances[user] >= amount;
            && (result == Rejected(RoundNotFound) <==> round >= |db.rounds|)
            && (result == Rejected(RoundNotActive) <==> round < |db.rounds| && !db.rounds[round].active)
            && (result == Rejected(InsufficientBalance) <==> round < |db.rounds| && db.rounds[round].active && !canPay)
            && (result.Placed? <==> round < |db.rounds| && db.rounds[round].active && canPay)
            && (result.Placed? ==>
                  var after, was := result.db, db.rounds[round];
                  && |after.balances| == |db.balances| && |after.rounds| == |db.rounds|
                  && after.balances[user] == db.balances[user] - amount
                  && (forall u :: 0 <= u < |db.balances| && u != user ==> after.balances[u] == db.balances[u])
                  && (forall r :: 0 <= r < |db.rounds| && r != round ==> after.rounds[r] == db.rounds[r])
                  && after.rounds[round].active
                  && after.rounds[round].poolUp == was.poolUp + (if side.Up? then amount else 0)
                  && after.rounds[round].poolDown == was.poolDown + (if side.Down? then amount else 0))
  {
  }

  function SumOf(balances: seq<int>): int {
    if balances == [] then 0 else SumOf(balances[..|balances| - 1]) + balances[|balances| - 1]
  }

  function PoolSum(rounds: seq<HackRound>): int {
    if rounds == [] then 0
    else PoolSum(rounds[..|rounds| - 1]) + rounds[|rounds| - 1].poolUp + rounds[|rounds| - 1].poolDown
  }

  lemma {:induction false} SumUpdate(balances: seq<int>, i: nat, x: int)
    requires i < |balances|
    ensures SumOf(balances[i := x]) == SumOf(balances) - balances[i] + x
  {
    var n := |balances| - 1;
    if i == n {
      assert balances[i := x][..n] == balances[..n];
    } else {
      assert balances[i := x][..n] == balances[..n][i := x];
      SumUpdate(balances[..n], i, x);
    }
  }

  lemma {:induction false} PoolUpdate(rounds: seq<HackRound>, i: nat, r: HackRound)
    requires i < |rounds|
    ensures PoolSum(rounds[i := r])
         == PoolSum(rounds) - rounds[i].poolUp - rounds[i].poolDown + r.poolUp + r.poolDown
  {
    var n := |rounds| - 1;
    if i == n {
      assert rounds[i := r][..n] == rounds[..n];
    } else {
      assert rounds[i := r][..n] == rounds[..n][i := r];
      PoolUpdate(rounds[..n], i, r);
    }
  }

  datatype HackBet = HackBet(user: nat, round: nat, amount: int, side: Side)

  function HackRun(db: HackDb, bets: seq<HackBet>): HackDb {
    if bets == [] then db
    else
      var before := HackRun(db, bets[..|bets| - 1]);
      var b := bets[|bets| - 1];
      var r := PlaceTransactionalBet(before, b.user, b.round, b.amount, b.side);
      if r.Placed? then r.db else before
  }

  /** Money only moves from balances to pools, and no balance goes below zero, over every sequence of bets of any amounts. */
  lemma {:induction false} HackathonMoneyIsConserved(db: HackDb, bets: seq<HackBet>)
    requires forall i :: 0 <= i < |db.balances| ==> db.balances[i] >= 0
    ensures var after := HackRun(db, bets);
            && SumOf(after.balances) + PoolSum(after.rounds) == SumOf(db.balances) + PoolSum(db.rounds)
            && |after.balances| == |db.balances|
            && forall i :: 0 <= i < |after.balances| ==> after.balances[i] >= 0
  {
    if bets != [] {
      HackathonMoneyIsConserved(db, bets[..|bets| - 1]);
      var before, b := HackRun(db, bets[..|bets| - 1]), bets[|bets| - 1];
      var r := PlaceTransactionalBet(before, b.user, b.round, b.amount, b.side);
      if r.Placed? {
        SumUpdate(before.balances, b.user, before.balances[b.user] - b.amount);
        PoolUpdate(before.rounds, b.round, r.db.rounds[b.round]);
      }
    }
  }
}
