/**
 What a placement records, told from the order, the rounds and the chain's reply:
 which orders are refused, which round a bet is bound to, and what its row and its
 event say. The rounds do not change in this ledger, so what holds of one placement
 holds of every placement in every run.
 */
module BetPlacements {
  import opened Wrappers
  import opened BetLedger

  /** The order names no round, or one of its own mode. */
  predicate Fits(rounds: seq<Round>, order: Order) {
    order.requested.Some? ==>
      order.requested.value < |rounds| && rounds[order.requested.value].mode == order.stake.mode
  }

  predicate ActiveIn(rounds: seq<Round>, mode: BetMode, k: int) {
    0 <= k < |rounds| && rounds[k].mode == mode && rounds[k].active
  }

  /** The round a bet belongs to: the one its order names, or else an ACTIVE one of its mode that none starts after. */
  predicate BelongsTo(rounds: seq<Round>, order: Order, round: Option<nat>) {
    if order.requested.Some? then round == order.requested
    else if round.Some? then
      && ActiveIn(rounds, order.stake.mode, round.value)
      && forall k :: 0 <= k < |rounds| && ActiveIn(rounds, order.stake.mode, k) ==>
           rounds[k].startTime <= rounds[round.value].startTime
    else forall k :: 0 <= k < |rounds| ==> !ActiveIn(rounds, order.stake.mode, k)
  }

  /**
   A placement is refused for its round exactly when it names one that does not exist
   or is of the other mode; otherwise it fails with its transaction or its chain call.
   */
  lemma RefusalsTold(l: Ledger, order: Order, reply: ChainReply, fate: DbFate, now: int)
    ensures var outcome := Record(l, order, reply, fate, now).1;
            var named := order.requested;
            && (outcome == Refused(RoundNotFound) <==> named.Some? && named.value >= |l.rounds|)
            && (outcome == Refused(WrongMode) <==>
                  named.Some? && named.value < |l.rounds| && l.rounds[named.value].mode != order.stake.mode)
            && (outcome == Refused(DatabaseFailure) <==>
                  Fits(l.rounds, order) && (fate.FailsBeforeCall? || fate.FailsAfterCall? || (fate.ReplyLost? && !reply.Throws?)))
            && (outcome.Refused? && outcome.error.ChainFailure? <==>
                  Fits(l.rounds, order) && reply.Throws? && (fate.Commits? || fate.ReplyLost?))
  {
  }

  /** A bet is recorded exactly when its round fits, its transaction commits and its call did not throw. */
  predicate Goes(rounds: seq<Round>, order: Order, reply: ChainReply, fate: DbFate) {
    Fits(rounds, order) && !reply.Throws? && (fate.Commits? || fate.ReplyLost?)
  }

  /** The row of a placement that went through: ACCEPTED without a chain, SUBMITTED with one, its hash if there is one. */
  predicate TellsThePlacement(bet: Bet, order: Order, reply: ChainReply, now: int) {
    && StakeOf(bet) == order.stake
    && (bet.status.Accepted? <==> reply.Stub?) && (bet.status.Submitted? <==> reply.Placed?)
    && bet.submittedAt == (if reply.Placed? then Some(now) else None)
    && (bet.txHash.Some? <==> reply.Placed? && reply.txHash.Some? && reply.txHash.value != "")
    && (bet.txHash.Some? ==> bet.txHash == reply.txHash)
    && bet.failureReason.None? && bet.confirmedAt.None? && bet.resolvedAt.None? && bet.failedAt.None?
  }

  /**
   What a placement records: nothing unless it goes through, and then one bet, with
   the order's stake, bound to the round it belongs to, and one BET_ACCEPTED event
   about it. The caller is told the new bet unless the reply is lost.
   */
  lemma RecordedBet(l: Ledger, order: Order, reply: ChainReply, fate: DbFate, now: int)
    ensures var (l', outcome) := Record(l, order, reply, fate, now);
            && (!Goes(l.rounds, order, reply, fate) ==> l' == l && outcome.Refused?)
            && (Goes(l.rounds, order, reply, fate) ==>
                  && l'.rounds == l.rounds && |l'.bets| == |l.bets| + 1 && l'.bets[..|l.bets|] == l.bets
                  && BelongsTo(l.rounds, order, l'.bets[|l.bets|].round)
                  && TellsThePlacement(l'.bets[|l.bets|], order, reply, now)
                  && |l'.outbox| == |l.outbox| + 1 && l'.outbox[..|l.outbox|] == l.outbox
                  && l'.outbox[|l.outbox|].BetAccepted? && l'.outbox[|l.outbox|].bet == |l.bets|
                  && (l'.outbox[|l.outbox|].stub <==> reply.Stub?)
                  && Truthy(l'.outbox[|l.outbox|].placedHash) == l'.bets[|l.bets|].txHash
                  && (outcome.Recorded? <==> fate.Commits?)
                  && (outcome.Recorded? ==>
                        outcome.id == |l.bets| && outcome.status == l'.bets[|l.bets|].status
                        && Truthy(outcome.txHash) == l'.bets[|l.bets|].txHash))
  {
    var l' := Record(l, order, reply, fate, now).0;
    if Goes(l.rounds, order, reply, fate) && order.requested.None? {
      var round := NewestActive(l.rounds, order.stake.mode);
      assert l'.bets[|l.bets|].round == round;
      assert BelongsTo(l.rounds, order, round);
    }
  }

  /** A stake reaches the chain exactly when its call is made and lands, whatever becomes of the transaction then. */
  lemma StakeLandsIff(rounds: seq<Round>, order: Order, reply: ChainReply, fate: DbFate)
    ensures Lands(rounds, order, reply, fate) <==>
              Fits(rounds, order) && !fate.FailsBeforeCall? && !reply.Stub? && reply.landed
  {
  }

  // ---------------------------------------------------------------------------
  // What becomes of a bet afterwards
  // ---------------------------------------------------------------------------

  /** From which statuses each operation moves a bet. */
  predicate MovesFrom(op: Op, bet: Bet) {
    match op
    case OpRecord(_, _, _, _) => false
    case OpReconcile(_, hash, _) => !bet.status.Resolved? && !(bet.status.Confirmed? && bet.txHash == Some(hash))
    case OpResolve(_, _, _, _) => !bet.status.Resolved?
    case OpFail(_, _, _) => !bet.status.Resolved? && !bet.status.Failed?
    case OpSweepConfirm(_, _, _) => bet.status.Submitted?
    case OpSweepFail(_, _, _) => bet.status.Submitted?
  }

  /** What never changes in a bet's row. */
  predicate SameBet(was: Bet, now: Bet) {
    StakeOf(now) == StakeOf(was) && now.round == was.round
  }

  /** The row afterwards: the status, what goes with it, and everything else as it was. */
  predicate Moved(op: Op, was: Bet, now: Bet)
    requires !op.OpRecord?
  {
    && SameBet(was, now)
    && match op
       case OpReconcile(_, hash, at) =>
         && now.status.Confirmed? && now.txHash == Some(hash) && now.confirmedAt == Some(at)
         && now.submittedAt == (if was.submittedAt.Some? then was.submittedAt else Some(at))
         && now.failureReason.None? && now.failedAt.None? && now.resolvedAt == was.resolvedAt
       case OpSweepConfirm(_, hash, at) =>
         && now.status.Confirmed? && now.txHash == Some(hash) && now.confirmedAt == Some(at)
         && now.submittedAt == was.submittedAt
         && now.failureReason == was.failureReason && now.failedAt == was.failedAt && now.resolvedAt == was.resolvedAt
       case OpResolve(_, _, _, at) =>
         now.status.Resolved? && now.resolvedAt == Some(at) && SameChain(was, now) && SameFailure(was, now)
       case OpFail(_, reason, at) => FailedWith(was, now, reason, at)
       case OpSweepFail(_, reason, at) => FailedWith(was, now, reason, at)
  }

  predicate SameChain(was: Bet, now: Bet) {
    now.txHash == was.txHash && now.submittedAt == was.submittedAt && now.confirmedAt == was.confirmedAt
  }

  predicate SameFailure(was: Bet, now: Bet) {
    now.failureReason == was.failureReason && now.failedAt == was.failedAt
  }

  predicate FailedWith(was: Bet, now: Bet, reason: string, at: int) {
    && now.status.Failed? && now.failureReason == Some(reason) && now.failedAt == Some(at)
    && SameChain(was, now) && now.resolvedAt == was.resolvedAt
  }

  /** The one event that goes out with the move. */
  predicate Announces(op: Op, id: nat, e: Event)
    requires !op.OpRecord?
  {
    match op
    case OpReconcile(_, hash, _) => e == BetConfirmed(id, hash)
    case OpSweepConfirm(_, hash, _) => e == BetConfirmed(id, hash)
    case OpResolve(_, won, payout, _) => e == BetResolved(id, won, payout)
    case OpFail(_, reason, _) => e == BetFailed(id, reason)
    case OpSweepFail(_, reason, _) => e == BetFailed(id, reason)
  }

  /**
   Every other operation names one bet. It moves it exactly from the statuses it
   may, with the event that says so, and otherwise changes nothing; no other bet is
   touched either way.
   */
  lemma MoveTold(l: Ledger, op: Op)
    requires !op.OpRecord?
    ensures var l' := Apply(l, op);
            && (op.id >= |l.bets| || !MovesFrom(op, l.bets[op.id]) ==> l' == l)
            && (op.id < |l.bets| && MovesFrom(op, l.bets[op.id]) ==>
                  && l'.rounds == l.rounds && |l'.bets| == |l.bets|
                  && (forall k :: 0 <= k < |l.bets| && k != op.id ==> l'.bets[k] == l.bets[k])
                  && Moved(op, l.bets[op.id], l'.bets[op.id])
                  && |l'.outbox| == |l.outbox| + 1 && l'.outbox[..|l.outbox|] == l.outbox
                  && Announces(op, op.id, l'.outbox[|l.outbox|]))
  {
  }
}
