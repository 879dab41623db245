/**
 What settlement does to the total amount of money. Payouts are computed from
 the round's pools, and a pool already holds the stakes of predictions that are
 still waiting for the chain or for an operator.
 */
module Settlement {
  import opened Wrappers
  import opened Sums
  import opened PredictionLedger

  ghost function EligibleIn(r: nat, c: nat): Prediction -> real {
    (p: Prediction) => if p.round == r && p.cell == c && Eligible(p) then p.amount else 0.0
  }

  /** Stakes that are in the pool although settlement will not read their rows. */
  ghost function UnconfirmedIn(r: nat, c: nat): Prediction -> real {
    (p: Prediction) => if p.round == r && p.cell == c && !p.compensated && !Eligible(p) then p.amount else 0.0
  }

  ghost function EligibleStake(r: nat): Prediction -> real {
    (p: Prediction) => if p.round == r && Eligible(p) then p.amount else 0.0
  }

  ghost function RoundPayment(rd: Round, r: nat, d: Decision): Prediction -> real {
    (p: Prediction) =>
      if p.round == r && Eligible(p) && PayoutOf(rd, d, p).Some? then PayoutOf(rd, d, p).value else 0.0
  }

  ghost function EligibleElsewhere(r: nat, c: nat): Prediction -> real {
    (p: Prediction) => if p.round == r && p.cell != c && Eligible(p) then p.amount else 0.0
  }

  ghost function UnconfirmedElsewhere(r: nat, c: nat): Prediction -> real {
    (p: Prediction) => if p.round == r && p.cell != c && !p.compensated && !Eligible(p) then p.amount else 0.0
  }

  /** Every pool of the round is exactly its uncompensated stakes. */
  ghost predicate Backed(db: Db, r: nat)
    requires r < |db.rounds|
  {
    forall c: nat :: c < |db.rounds[r].pools| ==> Excess(db, r, c) == 0.0
  }

  /** The stakes of round `r` in its first `n` cells. */
  ghost function StakeBelow(r: nat, n: nat): Prediction -> real {
    (p: Prediction) => if p.round == r && p.cell < n && !p.compensated then p.amount else 0.0
  }

  lemma {:induction false} PrefixOfPools(db: Db, r: nat, n: nat)
    requires r < |db.rounds| && n <= |db.rounds[r].pools| && Backed(db, r)
    ensures Sum(db.rounds[r].pools[..n], (x: real) => x) == Sum(db.preds, StakeBelow(r, n))
  {
    var pools := db.rounds[r].pools;
    if n == 0 {
      SumZero(db.preds, StakeBelow(r, 0));
    } else {
      PrefixOfPools(db, r, n - 1);
      assert pools[..n][..n - 1] == pools[..n - 1];
      assert Excess(db, r, n - 1) == 0.0;
      SumPlus(db.preds, StakeBelow(r, n - 1), CellStake(r, n - 1), StakeBelow(r, n));
      var id := (x: real) => x;
      assert Sum(pools[..n], id) == Sum(pools[..n - 1], id) + id(pools[n - 1]);
    }
  }

  /** A backed pool is its confirmed plus its unconfirmed stakes, and so are the other pools together. */
  lemma PoolsSplit(db: Db, r: nat, c: nat)
    requires WellFormed(db) && r < |db.rounds| && c < |db.rounds[r].pools| && Backed(db, r)
    ensures db.rounds[r].pools[c] == Sum(db.preds, EligibleIn(r, c)) + Sum(db.preds, UnconfirmedIn(r, c))
    ensures PoolTotal(db.rounds[r]) - db.rounds[r].pools[c] ==
            Sum(db.preds, EligibleElsewhere(r, c)) + Sum(db.preds, UnconfirmedElsewhere(r, c))
  {
    var rd := db.rounds[r];
    var n := |rd.pools|;
    assert Excess(db, r, c) == 0.0;
    forall p | p in db.preds ensures RowWellFormed(db.users, db.rounds, p) {}
    SumPlus(db.preds, EligibleIn(r, c), UnconfirmedIn(r, c), CellStake(r, c));
    PrefixOfPools(db, r, n);
    assert rd.pools[..n] == rd.pools;
    var elsewhere := (p: Prediction) => if p.round == r && p.cell != c && !p.compensated then p.amount else 0.0;
    SumPlus(db.preds, CellStake(r, c), elsewhere, StakeBelow(r, n));
    SumPlus(db.preds, EligibleElsewhere(r, c), UnconfirmedElsewhere(r, c), elsewhere);
  }

  /** A winner's payout is the stake times one factor for the whole round. */
  lemma PayoutIsShare(rd: Round, r: nat, c: nat, k: real, p: Prediction)
    requires c < |rd.pools| && rd.pools[c] != 0.0
    requires k == 1.0 + (PoolTotal(rd) - rd.pools[c]) / rd.pools[c]
    ensures RoundPayment(rd, r, Wins(c))(p) == k * EligibleIn(r, c)(p)
  {
    var w, l := rd.pools[c], PoolTotal(rd) - rd.pools[c];
    assert p.amount + p.amount / w * l == (1.0 + l / w) * p.amount;
  }

  /** What a settlement with a non-empty winning pool pays out in all. */
  lemma WinnersShare(db: Db, r: nat, c: nat, k: real)
    requires r < |db.rounds| && c < |db.rounds[r].pools| && db.rounds[r].pools[c] != 0.0
    requires k == 1.0 + (PoolTotal(db.rounds[r]) - db.rounds[r].pools[c]) / db.rounds[r].pools[c]
    ensures Sum(db.preds, RoundPayment(db.rounds[r], r, Wins(c))) == k * Sum(db.preds, EligibleIn(r, c))
  {
    var rd := db.rounds[r];
    var f, g := EligibleIn(r, c), RoundPayment(rd, r, Wins(c));
    forall p | p in db.preds ensures g(p) == k * f(p) {
      PayoutIsShare(rd, r, c, k, p);
    }
    SumScale(db.preds, f, g, k);
  }

  lemma ShareBalances(ew: real, uw: real, el: real, ul: real, k: real)
    requires ew + uw != 0.0 && k == 1.0 + (el + ul) / (ew + uw)
    ensures k * ew == ew + el <==> ew * ul == uw * el
  {
    var w := ew + uw;
    var q := (el + ul) / w;
    assert q * w == el + ul;
    assert k * ew == ew + q * ew;
    if q * ew == el {
      assert w * el == (q * w) * ew;
      assert ew * el + uw * el == ew * el + ew * ul;
    }
    if ew * ul == uw * el {
      assert w * (q * ew) == (q * w) * ew == ew * el + ew * ul == w * el;
      assert w * (q * ew - el) == 0.0;
    }
  }

  /** The quantities a settlement compares: confirmed and unconfirmed, winning and losing. */
  ghost function WinningStake(db: Db, r: nat, c: nat): real { Sum(db.preds, EligibleIn(r, c)) }

  ghost function LosingStake(db: Db, r: nat, c: nat): real { Sum(db.preds, EligibleElsewhere(r, c)) }

  ghost function WaitingWithWinners(db: Db, r: nat, c: nat): real { Sum(db.preds, UnconfirmedIn(r, c)) }

  ghost function WaitingWithLosers(db: Db, r: nat, c: nat): real { Sum(db.preds, UnconfirmedElsewhere(r, c)) }

  lemma SettledAmounts(db: Db, r: nat, c: nat) returns (k: real)
    requires WellFormed(db) && r < |db.rounds| && c < |db.rounds[r].pools| && Backed(db, r)
    requires db.rounds[r].pools[c] != 0.0
    ensures WinningStake(db, r, c) + WaitingWithWinners(db, r, c) != 0.0
    ensures k == 1.0 + (LosingStake(db, r, c) + WaitingWithLosers(db, r, c))
                       / (WinningStake(db, r, c) + WaitingWithWinners(db, r, c))
    ensures Sum(db.preds, RoundPayment(db.rounds[r], r, Wins(c))) == k * WinningStake(db, r, c)
    ensures Sum(db.preds, EligibleStake(r)) == WinningStake(db, r, c) + LosingStake(db, r, c)
  {
    PoolsSplit(db, r, c);
    SumPlus(db.preds, EligibleIn(r, c), EligibleElsewhere(r, c), EligibleStake(r));
    k := 1.0 + (PoolTotal(db.rounds[r]) - db.rounds[r].pools[c]) / db.rounds[r].pools[c];
    WinnersShare(db, r, c, k);
  }

  /**
   A settlement pays out exactly the stakes it settles, neither more nor less, if
   and only if the unconfirmed stakes in the pools are split between the winning
   and the losing side in the proportion of the confirmed ones.
   */
  lemma SettlementConservesIff(db: Db, r: nat, c: nat)
    requires WellFormed(db) && r < |db.rounds| && c < |db.rounds[r].pools| && Backed(db, r)
    requires db.rounds[r].pools[c] != 0.0
    ensures Sum(db.preds, RoundPayment(db.rounds[r], r, Wins(c))) == Sum(db.preds, EligibleStake(r))
       <==> WinningStake(db, r, c) * WaitingWithLosers(db, r, c) ==
            WaitingWithWinners(db, r, c) * LosingStake(db, r, c)
  {
    var k := SettledAmounts(db, r, c);
    ShareBalances(WinningStake(db, r, c), WaitingWithWinners(db, r, c),
                  LosingStake(db, r, c), WaitingWithLosers(db, r, c), k);
  }

  /** No row of the round is still waiting for the chain or for an operator. */
  predicate Quiet(db: Db, r: nat) {
    forall k :: 0 <= k < |db.preds| && db.preds[k].round == r ==>
      Eligible(db.preds[k]) || db.preds[k].compensated
  }

  /** With no row waiting, a settlement with a winner or a refund conserves the stakes. */
  lemma QuietSettlementConserves(db: Db, r: nat, d: Decision)
    requires WellFormed(db) && r < |db.rounds| && Backed(db, r) && Quiet(db, r)
    requires d.Wins? ==> d.cell < |db.rounds[r].pools| && db.rounds[r].pools[d.cell] != 0.0
    ensures Sum(db.preds, RoundPayment(db.rounds[r], r, d)) == Sum(db.preds, EligibleStake(r))
  {
    match d
    case RefundAll => SumAgree(db.preds, RoundPayment(db.rounds[r], r, d), EligibleStake(r));
    case Wins(c) =>
      SumZero(db.preds, UnconfirmedIn(r, c));
      SumZero(db.preds, UnconfirmedElsewhere(r, c));
      SettlementConservesIff(db, r, c);
  }

  /** With an empty winning pool nothing is paid, and the settled stakes stay with the house. */
  lemma EmptyPoolPaysNothing(db: Db, r: nat, c: nat)
    requires r < |db.rounds| && (c < |db.rounds[r].pools| ==> db.rounds[r].pools[c] == 0.0)
    ensures Sum(db.preds, RoundPayment(db.rounds[r], r, Wins(c))) == 0.0
  {
    SumZero(db.preds, RoundPayment(db.rounds[r], r, Wins(c)));
  }

  // ---------------------------------------------------------------------------
  // A round settled while a prediction is still waiting
  // ---------------------------------------------------------------------------

  const TwoPlayers: Db := Db(
    [User(100.0, None), User(100.0, None)],
    [Round(UpDown, Active, None, [0.0, 0.0])],
    [])

  const WinnerRow: Prediction := Prediction(0, 0, 0, 100.0, Confirmed, None, 1, false, None, 0, 1, 0)

  const WaitingRow: Prediction := Prediction(1, 0, 1, 100.0, Pending, None, 0, false, None, 0, 1, 0)

  const WinnerBets: seq<Op> := [OpReserve(0, 0, Some(0), 100.0, 0), OpFinalize(0, None)]

  const LoserWaits: seq<Op> := [OpReserve(1, 0, Some(1), 100.0, 0), OpLock(0)]

  const SettleThenRefund: seq<Op> := [OpSettle(0, Wins(0)), OpCompensate(1)]

  lemma WinnerBetsRuns()
    ensures Run(TwoPlayers, WinnerBets) ==
            Db([User(0.0, None), User(100.0, None)], [Round(UpDown, Active, None, [100.0, 0.0])], [WinnerRow])
  {
    RunTwo(TwoPlayers, WinnerBets[0], WinnerBets[1]);
    var a := Apply(TwoPlayers, WinnerBets[0]);
    assert a.rounds[0].pools == [100.0, 0.0];
    assert a.preds == [WinnerRow.(status := Pending, attempts := 0)];
  }

  lemma LoserWaitsRuns(db: Db)
    requires db == Run(TwoPlayers, WinnerBets)
    ensures Run(db, LoserWaits) ==
            Db([User(0.0, None), User(0.0, None)], [Round(UpDown, Locked, None, [100.0, 100.0])],
               [WinnerRow, WaitingRow])
  {
    WinnerBetsRuns();
    RunTwo(db, LoserWaits[0], LoserWaits[1]);
    assert FindRow(db.preds, 0, 1).None?;
    var a := Apply(db, LoserWaits[0]);
    assert a.rounds[0].pools == [100.0, 100.0];
    assert a.preds == [WinnerRow, WaitingRow];
  }

  lemma EarlyPayout(d: Db)
    requires d.users == [User(0.0, None), User(0.0, None)]
    requires d.rounds == [Round(UpDown, Locked, None, [100.0, 100.0])]
    requires d.preds == [WinnerRow, WaitingRow]
    ensures Settle(d, 0, Wins(0)).users == [User(200.0, None), User(0.0, None)]
    ensures Settle(d, 0, Wins(0)).preds[1] == d.preds[1]
  {
    var rd := d.rounds[0];
    var id := (x: real) => x;
    assert Sum(rd.pools[..1], id) == 100.0 by { assert rd.pools[..1][..0] == []; }
    assert PoolTotal(rd) == 200.0;
    forall u | u in [0, 1]
      ensures Sum(d.preds, Payment(rd, 0, Wins(0), u)) == if u == 0 then 200.0 else 0.0
    {
      var f := Payment(rd, 0, Wins(0), u);
      assert f(d.preds[0]) == if u == 0 then 200.0 else 0.0;
      assert f(d.preds[1]) == 0.0;
      assert d.preds[..1][..0] == [];
      assert Sum(d.preds[..1], f) == f(d.preds[0]);
    }
    assert 0 in [0, 1] && 1 in [0, 1];
  }

  lemma SettleThenRefundRuns(d: Db)
    requires d.users == [User(0.0, None), User(0.0, None)]
    requires d.rounds == [Round(UpDown, Locked, None, [100.0, 100.0])]
    requires d.preds == [WinnerRow, WaitingRow]
    requires WellFormed(d)
    ensures Run(d, SettleThenRefund).users == [User(200.0, None), User(100.0, None)]
  {
    RunTwo(d, SettleThenRefund[0], SettleThenRefund[1]);
    EarlyPayout(d);
  }

  /**
   The winner is paid out of a losing stake that is still PENDING, and that stake
   is then refunded: two balances of 100 become 200 and 100.
   */
  lemma EarlySettlementCreatesMoney()
    ensures Run(TwoPlayers, WinnerBets + LoserWaits + SettleThenRefund).users == [User(200.0, None), User(100.0, None)]
  {
    var a := Run(TwoPlayers, WinnerBets);
    LoserWaitsRuns(a);
    SettleThenRefundRuns(Run(a, LoserWaits));
    RunAppend(TwoPlayers, WinnerBets, LoserWaits);
    RunAppend(TwoPlayers, WinnerBets + LoserWaits, SettleThenRefund);
  }
}
