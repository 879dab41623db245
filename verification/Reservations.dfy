/**
 When a stake is accepted and what accepting it does, told from the tables; and
 that no run of the money transactions takes a balance or a pool below zero.
 */
module Reservations {
  import opened Wrappers
  import opened Sums
  import opened PredictionLedger

  predicate IsTheirs(p: Prediction, user: nat, round: nat) {
    p.user == user && p.round == round
  }

  /** The user's row of the round; the schema allows one. */
  ghost predicate TheyHave(db: Db, user: nat, round: nat, p: Prediction) {
    exists k :: 0 <= k < |db.preds| && db.preds[k] == p && IsTheirs(p, user, round)
  }

  predicate Playable(db: Db, round: nat) {
    round < |db.rounds| && db.rounds[round].status.Active?
  }

  /** No row of theirs stands in the way: there is none, or its stake was given back. */
  predicate Unplayed(db: Db, user: nat, round: nat) {
    forall k :: 0 <= k < |db.preds| && IsTheirs(db.preds[k], user, round) ==> db.preds[k].status.Failed?
  }

  predicate ValidCell(db: Db, round: nat, cell: Option<nat>) {
    round < |db.rounds| && cell.Some? && cell.value < |db.rounds[round].pools|
  }

  predicate CanPay(db: Db, user: nat, amount: real) {
    user < |db.users| && db.users[user].balance >= amount
  }

  /**
   A stake is accepted exactly when the round exists and is ACTIVE, the user's row of
   that round is absent or FAILED, the side or range is one of the round's, and the
   user exists and can pay.
   */
  lemma ReservedIff(db: Db, user: nat, round: nat, cell: Option<nat>, amount: real, now: int)
    requires WellFormed(db)
    ensures Reserve(db, user, round, cell, amount, now).Reserved? <==>
              Playable(db, round) && Unplayed(db, user, round) && ValidCell(db, round, cell) && CanPay(db, user, amount)
  {
    var found := FindRow(db.preds, round, user);
    assert found.Some? ==> IsTheirs(db.preds[found.value], user, round);
  }

  /** Every refusal names the first of these that is wrong. */
  lemma RejectedBecause(db: Db, user: nat, round: nat, cell: Option<nat>, amount: real, now: int)
    requires WellFormed(db)
    requires Reserve(db, user, round, cell, amount, now).Rejected?
    ensures
      match Reserve(db, user, round, cell, amount, now).error
      case RoundNotFound => round >= |db.rounds|
      case RoundNotActive => round < |db.rounds| && !db.rounds[round].status.Active?
      case BeingProcessed => Playable(db, round) && exists p :: TheyHave(db, user, round, p) && Open(p)
      case UnderReview => Playable(db, round) && exists p :: TheyHave(db, user, round, p) && p.status.NeedsManualReview?
      case Duplicate => Playable(db, round) && exists p :: TheyHave(db, user, round, p) && Eligible(p)
      case InvalidChoice => Playable(db, round) && Unplayed(db, user, round) && !ValidCell(db, round, cell)
      case UserNotFound =>
        Playable(db, round) && Unplayed(db, user, round) && ValidCell(db, round, cell) && user >= |db.users|
      case InsufficientBalance =>
        && Playable(db, round) && Unplayed(db, user, round) && ValidCell(db, round, cell)
        && user < |db.users| && db.users[user].balance < amount
  {
    var found := FindRow(db.preds, round, user);
    if found.Some? {
      assert TheyHave(db, user, round, db.preds[found.value]);
    }
  }

  /** The table differs from `before` in row `i` alone. */
  predicate OnlyRow<T(==)>(before: seq<T>, after: seq<T>, i: nat) {
    |after| == |before| && forall k :: 0 <= k < |before| && k != i ==> after[k] == before[k]
  }

  /** The row of a fresh stake; a LEGENDS one is never sent to the chain. */
  predicate FreshStake(p: Prediction, user: nat, round: nat, cell: nat, amount: real, mode: Mode) {
    && IsTheirs(p, user, round) && p.cell == cell && p.amount == amount
    && (if mode.Legends? then p.status.NotRequired? else p.status.Pending?)
    && p.txHash.None? && p.attempts == 0 && !p.compensated && p.payout.None?
  }

  /**
   What an accepted stake does: the user pays it, the pool of the cell grows by it,
   and the user's one row of the round holds it, in place of the FAILED one if there
   was one. Nothing else changes.
   */
  lemma AcceptedStake(db: Db, user: nat, round: nat, cell: Option<nat>, amount: real, now: int)
    requires WellFormed(db)
    requires Reserve(db, user, round, cell, amount, now).Reserved?
    ensures var r := Reserve(db, user, round, cell, amount, now);
            && ValidCell(db, round, cell) && user < |db.users|
            && OnlyRow(db.users, r.db.users, user)
            && r.db.users[user] == db.users[user].(balance := db.users[user].balance - amount)
            && OnlyRow(db.rounds, r.db.rounds, round)
            && r.db.rounds[round] == db.rounds[round].(pools := r.db.rounds[round].pools)
            && OnlyRow(db.rounds[round].pools, r.db.rounds[round].pools, cell.value)
            && r.db.rounds[round].pools[cell.value] == db.rounds[round].pools[cell.value] + amount
            && r.id < |r.db.preds| && FreshStake(r.db.preds[r.id], user, round, cell.value, amount, db.rounds[round].mode)
            && (if Unknown(db, user, round)
                then r.id == |db.preds| && r.db.preds[..r.id] == db.preds && |r.db.preds| == r.id + 1
                     && r.db.preds[r.id].createdAt == now
                else r.id < |db.preds| && OnlyRow(db.preds, r.db.preds, r.id) && IsTheirs(db.preds[r.id], user, round)
                     && r.db.preds[r.id].createdAt == db.preds[r.id].createdAt)
  {
    var found := FindRow(db.preds, round, user);
    if found.Some? {
      assert IsTheirs(db.preds[found.value], user, round);
    }
  }

  predicate Unknown(db: Db, user: nat, round: nat) {
    forall k :: 0 <= k < |db.preds| ==> !IsTheirs(db.preds[k], user, round)
  }

  // ---------------------------------------------------------------------------
  // Nothing goes below zero
  // ---------------------------------------------------------------------------

  /** No debts: balances and stakes are not negative, and every pool covers the stakes placed in it. */
  ghost predicate Solvent(db: Db) {
    && (forall u :: 0 <= u < |db.users| ==> db.users[u].balance >= 0.0)
    && (forall k :: 0 <= k < |db.preds| ==> db.preds[k].amount >= 0.0)
    && (forall r: nat, c: nat :: r < |db.rounds| && c < |db.rounds[r].pools| ==> Excess(db, r, c) >= 0.0)
  }

  predicate Positive(op: Op) {
    op.OpReserve? ==> op.amount >= 0.0
  }

  lemma {:induction false} SumNonNegative<T>(s: seq<T>, f: T -> real)
    requires forall k :: 0 <= k < |s| ==> f(s[k]) >= 0.0
    ensures Sum(s, f) >= 0.0
    ensures forall k :: 0 <= k < |s| ==> Sum(s, f) >= f(s[k])
  {
    if s != [] {
      SumNonNegative(s[..|s| - 1], f);
    }
  }

  lemma PoolsAreNonNegative(db: Db, r: nat, c: nat)
    requires Solvent(db) && r < |db.rounds| && c < |db.rounds[r].pools|
    ensures db.rounds[r].pools[c] >= 0.0
  {
    SumNonNegative(db.preds, CellStake(r, c));
    assert Excess(db, r, c) >= 0.0;
  }

  lemma ShareIsNonNegative(amount: real, pool: real, rest: real)
    requires amount >= 0.0 && pool > 0.0 && rest >= 0.0
    ensures amount / pool * rest >= 0.0
  {
    assert amount / pool >= 0.0;
  }

  lemma PayoutIsNonNegative(db: Db, round: nat, d: Decision, p: Prediction)
    requires Solvent(db) && round < |db.rounds| && p.amount >= 0.0
    ensures PayoutOf(db.rounds[round], d, p).Some? ==> PayoutOf(db.rounds[round], d, p).value >= 0.0
  {
    var rd := db.rounds[round];
    if d.Wins? && d.cell < |rd.pools| && rd.pools[d.cell] != 0.0 {
      forall c | 0 <= c < |rd.pools| ensures rd.pools[c] >= 0.0 {
        PoolsAreNonNegative(db, round, c);
      }
      SumNonNegative(rd.pools, (x: real) => x);
      assert PoolTotal(rd) >= rd.pools[d.cell];
      ShareIsNonNegative(p.amount, rd.pools[d.cell], PoolTotal(rd) - rd.pools[d.cell]);
    }
  }

  lemma SettlementPaysIn(db: Db, round: nat, d: Decision, u: nat)
    requires WellFormed(db) && Solvent(db) && u < |db.users|
    ensures |Settle(db, round, d).users| == |db.users| && Settle(db, round, d).users[u].balance >= db.users[u].balance
  {
    if round < |db.rounds| && db.rounds[round].status.Locked? {
      forall k | 0 <= k < |db.preds| ensures Payment(db.rounds[round], round, d, u)(db.preds[k]) >= 0.0 {
        PayoutIsNonNegative(db, round, d, db.preds[k]);
      }
      SumNonNegative(db.preds, Payment(db.rounds[round], round, d, u));
    }
  }

  lemma BalancesStayNonNegative(db: Db, op: Op, u: nat)
    requires WellFormed(db) && Solvent(db) && Positive(op) && u < |db.users|
    ensures |Apply(db, op).users| == |db.users| && Apply(db, op).users[u].balance >= 0.0
  {
    match op
    case OpReserve(user, round, cell, amount, now) =>
    case OpCompensate(p) =>
      if p < |db.preds| {
        assert RowWellFormed(db.users, db.rounds, db.preds[p]);
      }
    case OpSettle(r, d) => SettlementPaysIn(db, r, d, u);
    case _ =>
  }

  lemma StakesStayNonNegative(db: Db, op: Op, k: nat)
    requires WellFormed(db) && Solvent(db) && Positive(op) && k < |Apply(db, op).preds|
    ensures Apply(db, op).preds[k].amount >= 0.0
  {
  }

  lemma ApplyStaysSolvent(db: Db, op: Op)
    requires WellFormed(db) && Solvent(db) && Positive(op)
    ensures WellFormed(Apply(db, op)) && Solvent(Apply(db, op))
  {
    ApplyKeepsWellFormed(db, op);
    var db' := Apply(db, op);
    hide Apply, WellFormed;
    forall u | 0 <= u < |db'.users| ensures db'.users[u].balance >= 0.0 {
      BalancesStayNonNegative(db, op, u);
    }
    forall k | 0 <= k < |db'.preds| ensures db'.preds[k].amount >= 0.0 {
      StakesStayNonNegative(db, op, k);
    }
    forall r: nat, c: nat | r < |db'.rounds| && c < |db'.rounds[r].pools| ensures Excess(db', r, c) >= 0.0 {
      ApplyKeepsExcess(db, op, r, c);
    }
  }

  /**
   Over every run whose stakes are not negative, no balance goes below zero, whatever
   is reserved, refunded or settled, and no pool does.
   */
  lemma {:induction false} NothingGoesBelowZero(db: Db, ops: seq<Op>)
    requires WellFormed(db) && Solvent(db) && forall k :: 0 <= k < |ops| ==> Positive(ops[k])
    ensures Solvent(Run(db, ops))
    ensures forall r: nat, c: nat :: r < |Run(db, ops).rounds| && c < |Run(db, ops).rounds[r].pools| ==>
              Run(db, ops).rounds[r].pools[c] >= 0.0
    decreases |ops|
  {
    hide Solvent, WellFormed, Apply;
    if ops == [] {
      forall r: nat, c: nat | r < |db.rounds| && c < |db.rounds[r].pools| ensures db.rounds[r].pools[c] >= 0.0 {
        PoolsAreNonNegative(db, r, c);
      }
    } else {
      ApplyStaysSolvent(db, ops[0]);
      NothingGoesBelowZero(Apply(db, ops[0]), ops[1..]);
    }
  }
}
