/**
 The life of a prediction row and of a round: which transaction moves which status
 and from where, who pays and who is paid, told from the tables before and after.
 */
module PredictionLife {
  import opened Wrappers
  import opened Sums
  import opened PredictionLedger

  /** The row that a transaction on a single row acts on; the others it leaves alone. */
  predicate ActsOn(db: Db, op: Op, k: nat)
    requires k < |db.preds|
  {
    match op
    case OpFinalize(p, _) => p == k && db.preds[k].status.Pending?
    case OpMarkSubmitted(p) => p == k && OnChain(db, k)
    case OpCompensate(p) => p == k && Open(db.preds[k]) && !db.preds[k].compensated
    case OpBump(p) => p == k && OnChain(db, k)
    case OpFlag(p) => p == k && OnChain(db, k)
    case _ => false
  }

  /** The user's FAILED row of the round is taken for a new stake. */
  predicate Retaken(db: Db, op: Op, k: nat)
    requires k < |db.preds|
  {
    && op.OpReserve? && db.preds[k].user == op.user && db.preds[k].round == op.round
    && Reserve(db, op.user, op.round, op.cell, op.amount, op.now).Reserved?
  }

  lemma RowFacts(db: Db, k: nat)
    requires WellFormed(db) && k < |db.preds|
    ensures RowWellFormed(db.users, db.rounds, db.preds[k])
  {
  }

  /**
   Where a row's status comes from: CONFIRMED from the finalization of a PENDING row,
   SUBMITTED from an ambiguous failure, FAILED from the refund of a stake that was
   still out, NEEDS_MANUAL_REVIEW from a flag, PENDING or NOT_REQUIRED from a new
   stake on a FAILED row. Nothing else moves it.
   */
  lemma StatusComesFrom(db: Db, op: Op, k: nat)
    requires WellFormed(db) && k < |db.preds| && k < |Apply(db, op).preds|
    ensures Apply(db, op).preds[k].status ==
            if Retaken(db, op, k) then
              if db.rounds[op.round].mode.Legends? then NotRequired else ChainStatus.Pending
            else if !ActsOn(db, op, k) then db.preds[k].status
            else
              match op
              case OpFinalize(_, _) => Confirmed
              case OpMarkSubmitted(_) => Submitted
              case OpCompensate(_) => Failed
              case OpFlag(_) => NeedsManualReview
              case _ => db.preds[k].status
    ensures Retaken(db, op, k) ==> db.preds[k].status.Failed?
  {
    RowFacts(db, k);
  }

  /** What a finalization, a mark, a bump and a flag write: one row, and no money. */
  lemma RowWritesTold(db: Db, op: Op, k: nat)
    requires WellFormed(db) && k < |db.preds|
    requires op.OpFinalize? || op.OpMarkSubmitted? || op.OpBump? || op.OpFlag?
    ensures var db' := Apply(db, op);
            && db'.users == db.users && db'.rounds == db.rounds && |db'.preds| == |db.preds|
            && (!ActsOn(db, op, k) ==> db'.preds[k] == db.preds[k])
            && (ActsOn(db, op, k) ==>
                  var was, now := db.preds[k], db'.preds[k];
                  && now == was.(status := now.status, attempts := now.attempts, txHash := now.txHash)
                  && now.attempts == (if op.OpFinalize? then 1 else if op.OpBump? then was.attempts + 1 else was.attempts)
                  && now.txHash == if op.OpFinalize? && op.hash.Some? then op.hash else was.txHash)
  {
  }

  /** A refund pays the stake back to its user and takes it out of its pool, and marks the row as refunded. */
  lemma RefundTold(db: Db, p: nat)
    requires WellFormed(db) && p < |db.preds|
    ensures var db' := Apply(db, OpCompensate(p));
            var was := db.preds[p];
            && was.user < |db.users| && was.round < |db.rounds| && was.cell < |db.rounds[was.round].pools|
            && |db'.users| == |db.users| && |db'.rounds| == |db.rounds| && |db'.preds| == |db.preds|
            && (forall k :: 0 <= k < |db.preds| && k != p ==> db'.preds[k] == db.preds[k])
            && (forall u :: 0 <= u < |db.users| && u != was.user ==> db'.users[u] == db.users[u])
            && (forall r :: 0 <= r < |db.rounds| && r != was.round ==> db'.rounds[r] == db.rounds[r])
            && (!ActsOn(db, OpCompensate(p), p) ==> db' == db)
            && (ActsOn(db, OpCompensate(p), p) ==>
                  && db'.users[was.user] == db.users[was.user].(balance := db.users[was.user].balance + was.amount)
                  && db'.preds[p] == was.(status := Failed, compensated := true, refunds := was.refunds + 1)
                  && var pools, pools' := db.rounds[was.round].pools, db'.rounds[was.round].pools;
                     && db'.rounds[was.round] == db.rounds[was.round].(pools := pools')
                     && |pools'| == |pools| && pools'[was.cell] == pools[was.cell] - was.amount
                     && forall c :: 0 <= c < |pools| && c != was.cell ==> pools'[c] == pools[c])
  {
    RowFacts(db, p);
  }

  /** A round goes from ACTIVE to LOCKED by a lock and from LOCKED to RESOLVED by a settlement, and never otherwise. */
  lemma RoundMovesTold(db: Db, op: Op, r: nat)
    requires WellFormed(db) && r < |db.rounds|
    ensures r < |Apply(db, op).rounds|
    ensures var was, now := db.rounds[r].status, Apply(db, op).rounds[r].status;
            now == if op.OpLock? && op.round == r && was.Active? then Locked
                   else if op.OpSettle? && op.round == r && was.Locked? then Resolved
                   else was
  {
  }

  /**
   What a settlement pays on a row: nothing unless its round was LOCKED and the row
   is CONFIRMED or NOT_REQUIRED; the stake when everyone is refunded; the stake and a
   share of the other pools in proportion when its cell wins; and zero, written as
   such, when another cell wins.
   */
  lemma PayoutTold(db: Db, round: nat, d: Decision, k: nat)
    requires WellFormed(db) && k < |db.preds|
    ensures k < |Apply(db, OpSettle(round, d)).preds|
    ensures var was, now := db.preds[k], Apply(db, OpSettle(round, d)).preds[k];
            && now == was.(payout := now.payout)
            && (!(round < |db.rounds| && db.rounds[round].status.Locked? && was.round == round && Eligible(was)) ==>
                  now == was)
            && (round < |db.rounds| && db.rounds[round].status.Locked? && was.round == round && Eligible(was) ==>
                  var pools := db.rounds[round].pools;
                  && (d.RefundAll? ==> now.payout == Some(was.amount))
                  && (d.Wins? && d.cell < |pools| && pools[d.cell] != 0.0 ==>
                        now.payout.Some? &&
                        if was.cell == d.cell
                        then (now.payout.value - was.amount) * pools[d.cell]
                             == was.amount * (PoolTotal(db.rounds[round]) - pools[d.cell])
                        else now.payout.value == 0.0)
                  && (d.Wins? && (d.cell >= |pools| || pools[d.cell] == 0.0) ==>
                        now.payout == if db.rounds[round].mode.UpDown? then None else Some(0.0)))
  {
    RowFacts(db, k);
    if round < |db.rounds| && d.Wins? && d.cell < |db.rounds[round].pools| && db.rounds[round].pools[d.cell] != 0.0 {
      var pool := db.rounds[round].pools[d.cell];
      Proportion(db.preds[k].amount, pool, PoolTotal(db.rounds[round]) - pool);
    }
  }

  lemma Proportion(amount: real, pool: real, rest: real)
    requires pool != 0.0
    ensures amount / pool * rest * pool == amount * rest
  {
    var share := amount / pool;
    assert share * pool == amount;
    assert share * rest * pool == share * pool * rest;
  }

  /** What the rows say a user was paid. */
  ghost function PaidTo(u: nat): Prediction -> real {
    (p: Prediction) => if p.user == u && p.payout.Some? then p.payout.value else 0.0
  }

  lemma PaidOnARow(rd: Round, round: nat, d: Decision, u: nat, p: Prediction)
    requires p.round == round ==> p.payout.None?
    ensures PaidTo(u)(SettledRow(rd, round, d, p)) == PaidTo(u)(p) + Payment(rd, round, d, u)(p)
  {
  }

  lemma {:induction false} PaidOnRows(
      preds: seq<Prediction>, settled: seq<Prediction>, rd: Round, round: nat, d: Decision, u: nat)
    requires |settled| == |preds|
    requires forall k :: 0 <= k < |preds| ==> (preds[k].round == round ==> preds[k].payout.None?)
    requires forall k :: 0 <= k < |preds| ==> settled[k] == SettledRow(rd, round, d, preds[k])
    ensures Sum(settled, PaidTo(u)) == Sum(preds, PaidTo(u)) + Sum(preds, Payment(rd, round, d, u))
  {
    if preds != [] {
      var n := |preds| - 1;
      PaidOnRows(preds[..n], settled[..n], rd, round, d, u);
      PaidOnARow(rd, round, d, u, preds[n]);
    }
  }

  /** A settlement pays each user exactly what it writes on the user's rows. */
  lemma SettlementPaysRows(db: Db, round: nat, d: Decision, u: nat)
    requires WellFormed(db) && u < |db.users|
    ensures var db' := Apply(db, OpSettle(round, d));
            && |db'.users| == |db.users| && |db'.preds| == |db.preds|
            && db'.users[u] == db.users[u].(balance := db'.users[u].balance)
            && db'.users[u].balance - db.users[u].balance == Sum(db'.preds, PaidTo(u)) - Sum(db.preds, PaidTo(u))
  {
    if round < |db.rounds| && db.rounds[round].status.Locked? {
      forall k | 0 <= k < |db.preds| ensures db.preds[k].round == round ==> db.preds[k].payout.None? {
        RowFacts(db, k);
      }
      hide WellFormed, SettledRow, Payment, PayoutOf;
      PaidOnRows(db.preds, Apply(db, OpSettle(round, d)).preds, db.rounds[round], round, d, u);
    }
  }
}
