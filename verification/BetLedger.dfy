/**
 Bet rows, their transactional outbox, and the stakes on chain. Every operation of
 bet.service.ts, and the two guarded transitions of reconciliation.service.ts, run
 in one database transaction: what it writes is committed together or not at all.
 A placement calls the chain from inside its transaction, and what the call did
 there is not undone when the transaction is.
 */
module BetLedger {
  import opened Wrappers

  datatype Side = Up | Down

  datatype BetMode = UpDown | Precision

  datatype BetStatus = Accepted | Submitted | Confirmed | Resolved | Failed

  datatype Bet = Bet(
    address: string,
    round: Option<nat>,
    mode: BetMode,
    side: Option<Side>,
    predictedPrice: Option<real>,
    amount: real,
    status: BetStatus,
    txHash: Option<string>,
    failureReason: Option<string>,
    submittedAt: Option<int>,
    confirmedAt: Option<int>,
    resolvedAt: Option<int>,
    failedAt: Option<int>)

  /** `bet` is the aggregate id of the event. */
  datatype Event =
    | BetAccepted(bet: nat, stub: bool, placedHash: Option<string>)
    | BetConfirmed(bet: nat, confirmedHash: string)
    | BetResolved(bet: nat, won: bool, payout: real)
    | BetFailed(bet: nat, reason: string)

  /** A round as bets see it: its mode and whether it is ACTIVE, with its start time. */
  datatype Round = Round(mode: BetMode, active: bool, startTime: int)

  datatype Ledger = Ledger(rounds: seq<Round>, bets: seq<Bet>, outbox: seq<Event>)

  /** What a placement puts on chain. */
  datatype Stake = Stake(address: string, mode: BetMode, side: Option<Side>, predictedPrice: Option<real>, amount: real)

  datatype Order = Order(stake: Stake, requested: Option<nat>)

  /**
   What the chain answers to a placement; `Stub` means it is not asked. `landed` is
   what the answer does not tell: whether the stake is on chain. A call that timed
   out throws and may have landed.
   */
  datatype ChainReply = Stub | Placed(txHash: Option<string>, landed: bool) | Throws(reason: string, landed: bool)

  /** What becomes of a placement's transaction, other than by its own errors. */
  datatype DbFate =
    | Commits
    | FailsBeforeCall  // a statement ahead of the chain call failed
    | FailsAfterCall   // a later statement or the commit failed
    | ReplyLost        // it committed but the service sees an error

  datatype BetError = RoundNotFound | WrongMode | ChainFailure(reason: string) | DatabaseFailure

  datatype Outcome = Recorded(id: nat, status: BetStatus, txHash: Option<string>) | Refused(error: BetError)

  /** A hash counts as present when it is a non-empty string. */
  function Truthy(hash: Option<string>): Option<string> {
    if hash == Some("") then None else hash
  }

  // ---------------------------------------------------------------------------
  // Binding a bet to a round
  // ---------------------------------------------------------------------------

  /** The ACTIVE round of the mode with the latest start time. */
  function NewestActive(rounds: seq<Round>, mode: BetMode): (r: Option<nat>)
    ensures r.Some? ==>
              && r.value < |rounds| && rounds[r.value].mode == mode && rounds[r.value].active
              && forall k :: 0 <= k < |rounds| && rounds[k].mode == mode && rounds[k].active ==>
                   rounds[k].startTime <= rounds[r.value].startTime
    ensures r.None? ==> forall k :: 0 <= k < |rounds| ==> !(rounds[k].mode == mode && rounds[k].active)
  {
    if rounds == [] then None
    else
      var n := |rounds| - 1;
      var best := NewestActive(rounds[..n], mode);
      if rounds[n].mode == mode && rounds[n].active && (best.None? || rounds[n].startTime > rounds[best.value].startTime)
      then Some(n)
      else best
  }

  datatype Binding = Bound(round: Option<nat>) | Unbound(error: BetError)

  function ResolveRoundId(rounds: seq<Round>, mode: BetMode, requested: Option<nat>): Binding {
    if requested.Some? then
      if requested.value >= |rounds| then Unbound(RoundNotFound)
      else if rounds[requested.value].mode != mode then Unbound(WrongMode)
      else Bound(requested)
    else Bound(NewestActive(rounds, mode))
  }

  // ---------------------------------------------------------------------------
  // Operations
  // ---------------------------------------------------------------------------

  function NewBet(stake: Stake, round: Option<nat>): Bet {
    Bet(stake.address, round, stake.mode, stake.side, stake.predictedPrice, stake.amount,
        Accepted, None, None, None, None, None, None)
  }

  function StakeOf(bet: Bet): Stake {
    Stake(bet.address, bet.mode, bet.side, bet.predictedPrice, bet.amount)
  }

  function AfterPlacement(bet: Bet, reply: ChainReply, now: int): Bet
    requires !reply.Throws?
  {
    match reply
    case Stub => bet
    case Placed(hash, _) =>
      if Truthy(hash).Some? then bet.(status := Submitted, txHash := hash, submittedAt := Some(now))
      else bet.(status := Submitted, submittedAt := Some(now))
  }

  function Record(l: Ledger, order: Order, reply: ChainReply, fate: DbFate, now: int): (Ledger, Outcome) {
    var binding := ResolveRoundId(l.rounds, order.stake.mode, order.requested);
    if binding.Unbound? then (l, Refused(binding.error))
    else if fate.FailsBeforeCall? || fate.FailsAfterCall? then (l, Refused(DatabaseFailure))
    else if reply.Throws? then (l, Refused(ChainFailure(reply.reason)))
    else
      var bet := AfterPlacement(NewBet(order.stake, binding.round), reply, now);
      var hash := if reply.Placed? then reply.txHash else None;
      (l.(bets := l.bets + [bet], outbox := l.outbox + [BetAccepted(|l.bets|, reply.Stub?, hash)]),
       if fate.ReplyLost? then Refused(DatabaseFailure) else Recorded(|l.bets|, bet.status, hash))
  }

  /** Whether a placement with this order puts its stake on chain. */
  predicate Lands(rounds: seq<Round>, order: Order, reply: ChainReply, fate: DbFate) {
    && ResolveRoundId(rounds, order.stake.mode, order.requested).Bound?
    && !fate.FailsBeforeCall?
    && !reply.Stub? && reply.landed
  }

  function Write(l: Ledger, id: nat, bet: Bet, e: Event): Ledger
    requires id < |l.bets|
  {
    l.(bets := l.bets[id := bet], outbox := l.outbox + [e])
  }

  function Reconcile(l: Ledger, id: nat, hash: string, now: int): Ledger {
    if id >= |l.bets| then l
    else
      var bet := l.bets[id];
      if bet.status.Confirmed? && bet.txHash == Some(hash) then l
      else if bet.status.Resolved? then l
      else
        Write(l, id,
              bet.(status := Confirmed, txHash := Some(hash),
                   submittedAt := if bet.submittedAt.Some? then bet.submittedAt else Some(now),
                   confirmedAt := Some(now), failureReason := None, failedAt := None),
              BetConfirmed(id, hash))
  }

  function Resolve(l: Ledger, id: nat, won: bool, payout: real, now: int): Ledger {
    if id >= |l.bets| || l.bets[id].status.Resolved? then l
    else Write(l, id, l.bets[id].(status := Resolved, resolvedAt := Some(now)), BetResolved(id, won, payout))
  }

  function Fail(l: Ledger, id: nat, reason: string, now: int): Ledger {
    if id >= |l.bets| || l.bets[id].status.Failed? || l.bets[id].status.Resolved? then l
    else
      Write(l, id, l.bets[id].(status := Failed, failureReason := Some(reason), failedAt := Some(now)),
            BetFailed(id, reason))
  }

  /** `transitionToConfirmed` of the reconciliation job: only from SUBMITTED. */
  function SweepConfirm(l: Ledger, id: nat, hash: string, now: int): Ledger {
    if id >= |l.bets| || !l.bets[id].status.Submitted? then l
    else
      Write(l, id, l.bets[id].(status := Confirmed, txHash := Some(hash), confirmedAt := Some(now)),
            BetConfirmed(id, hash))
  }

  /** `transitionToFailed` of the reconciliation job: only from SUBMITTED. */
  function SweepFail(l: Ledger, id: nat, reason: string, now: int): Ledger {
    if id >= |l.bets| || !l.bets[id].status.Submitted? then l
    else
      Write(l, id, l.bets[id].(status := Failed, failureReason := Some(reason), failedAt := Some(now)),
            BetFailed(id, reason))
  }

  // ---------------------------------------------------------------------------
  // The service, in the imperative form of the source
  // ---------------------------------------------------------------------------

  class BetService {
    const rounds: seq<Round>
    var bets: seq<Bet>
    var outbox: seq<Event>
    ghost var chain: multiset<Stake>

    constructor (rounds: seq<Round>)
      ensures View() == Ledger(rounds, [], []) && chain == multiset{}
    {
      this.rounds, bets, outbox, chain := rounds, [], [], multiset{};
    }

    ghost function View(): Ledger
      reads this
    {
      Ledger(rounds, bets, outbox)
    }

    /** The transaction body works on `txBets` and `txOutbox`; only the end of it commits them. */
    method RecordBet(order: Order, reply: ChainReply, fate: DbFate, now: int) returns (outcome: Outcome)
      modifies this
      ensures (View(), outcome) == Record(old(View()), order, reply, fate, now)
      ensures chain == old(chain) + if Lands(rounds, order, reply, fate) then multiset{order.stake} else multiset{}
    {
      var txBets, txOutbox := bets, outbox;
      var binding := ResolveRoundId(rounds, order.stake.mode, order.requested);
      if binding.Unbound? {
        return Refused(binding.error);
      }
      if fate.FailsBeforeCall? {
        return Refused(DatabaseFailure);
      }
      var id := |txBets|;
      txBets := txBets + [NewBet(order.stake, binding.round)];
      var betStatus := Accepted;
      var txHash: Option<string> := None;
      if !reply.Stub? && reply.landed {
        chain := chain + multiset{order.stake};
      }
      match reply {
        case Stub =>
        case Placed(hash, _) =>
          txHash := hash;
          if Truthy(txHash).Some? {
            txBets := txBets[id := txBets[id].(status := Submitted, txHash := txHash, submittedAt := Some(now))];
          } else {
            txBets := txBets[id := txBets[id].(status := Submitted, submittedAt := Some(now))];
          }
          betStatus := Submitted;
        case Throws(reason, _) =>
          if fate.FailsAfterCall? {
            return Refused(DatabaseFailure);
          }
          txBets := txBets[id := txBets[id].(status := Failed, failureReason := Some(reason), failedAt := Some(now))];
          txOutbox := txOutbox + [BetFailed(id, reason)];
          // The error is rethrown inside the transaction, which rolls everything back.
          return Refused(ChainFailure(reason));
      }
      assert txBets == bets + [AfterPlacement(NewBet(order.stake, binding.round), reply, now)];
      txOutbox := txOutbox + [BetAccepted(id, reply.Stub?, txHash)];
      if fate.FailsAfterCall? {
        return Refused(DatabaseFailure);
      }
      bets, outbox := txBets, txOutbox;
      outcome := if fate.ReplyLost? then Refused(DatabaseFailure) else Recorded(id, betStatus, txHash);
    }

    method ReconcileBet(id: nat, hash: string, now: int)
      modifies this
      ensures View() == Reconcile(old(View()), id, hash, now) && chain == old(chain)
    {
      if id >= |bets| { return; }
      var bet := bets[id];
      if bet.status.Confirmed? && bet.txHash == Some(hash) { return; }
      if bet.status.Resolved? { return; }
      var submittedAt := bet.submittedAt;
      if submittedAt.None? { submittedAt := Some(now); }
      bets := bets[id := bet.(status := Confirmed, txHash := Some(hash), submittedAt := submittedAt,
                              confirmedAt := Some(now), failureReason := None, failedAt := None)];
      outbox := outbox + [BetConfirmed(id, hash)];
    }

    method ResolveBet(id: nat, won: bool, payout: real, now: int)
      modifies this
      ensures View() == Resolve(old(View()), id, won, payout, now) && chain == old(chain)
    {
      if id >= |bets| || bets[id].status.Resolved? { return; }
      bets := bets[id := bets[id].(status := Resolved, resolvedAt := Some(now))];
      outbox := outbox + [BetResolved(id, won, payout)];
    }

    method FailBet(id: nat, reason: string, now: int)
      modifies this
      ensures View() == Fail(old(View()), id, reason, now) && chain == old(chain)
    {
      if id >= |bets| || bets[id].status.Failed? || bets[id].status.Resolved? { return; }
      bets := bets[id := bets[id].(status := Failed, failureReason := Some(reason), failedAt := Some(now))];
      outbox := outbox + [BetFailed(id, reason)];
    }
  }

  // ---------------------------------------------------------------------------
  // Runs
  // ---------------------------------------------------------------------------

  datatype Op =
    | OpRecord(order: Order, reply: ChainReply, fate: DbFate, now: int)
    | OpReconcile(id: nat, hash: string, now: int)
    | OpResolve(id: nat, won: bool, payout: real, now: int)
    | OpFail(id: nat, reason: string, now: int)
    | OpSweepConfirm(id: nat, hash: string, now: int)
    | OpSweepFail(id: nat, reason: string, now: int)

  function Apply(l: Ledger, op: Op): Ledger {
    match op
    case OpRecord(order, reply, fate, now) => Record(l, order, reply, fate, now).0
    case OpReconcile(id, hash, now) => Reconcile(l, id, hash, now)
    case OpResolve(id, won, payout, now) => Resolve(l, id, won, payout, now)
    case OpFail(id, reason, now) => Fail(l, id, reason, now)
    case OpSweepConfirm(id, hash, now) => SweepConfirm(l, id, hash, now)
    case OpSweepFail(id, reason, now) => SweepFail(l, id, reason, now)
  }

  function Run(l: Ledger, ops: seq<Op>): Ledger {
    if ops == [] then l else Apply(Run(l, ops[..|ops| - 1]), ops[|ops| - 1])
  }

  // ---------------------------------------------------------------------------
  // Rebuilding a bet from its events
  // ---------------------------------------------------------------------------

  function EventsOf(outbox: seq<Event>, id: nat): seq<Event> {
    if outbox == [] then []
    else
      var n := |outbox| - 1;
      EventsOf(outbox[..n], id) + (if outbox[n].bet == id then [outbox[n]] else [])
  }

  datatype Image = NoBet | Image(status: BetStatus, txHash: Option<string>)

  function Fold(img: Image, e: Event): Image {
    match e
    case BetAccepted(_, stub, hash) => Image(if stub then Accepted else Submitted, Truthy(hash))
    case BetConfirmed(_, hash) => Image(Confirmed, Some(hash))
    case BetResolved(_, _, _) => if img.NoBet? then img else img.(status := Resolved)
    case BetFailed(_, _) => if img.NoBet? then img else img.(status := Failed)
  }

  function Rebuild(events: seq<Event>): Image {
    if events == [] then NoBet else Fold(Rebuild(events[..|events| - 1]), events[|events| - 1])
  }

  function ImageOf(l: Ledger, id: nat): Image {
    if id < |l.bets| then Image(l.bets[id].status, l.bets[id].txHash) else NoBet
  }

  /** The events of one bet: accepted first and only first, resolved last if at all. */
  predicate WellShaped(events: seq<Event>, resolved: bool) {
    && (events != [] ==> events[0].BetAccepted?)
    && (forall k :: 0 < k < |events| ==> !events[k].BetAccepted?)
    && (forall k :: 0 <= k < |events| ==> (events[k].BetResolved? <==> resolved && k == |events| - 1))
  }

  predicate BetInv(b: Bet) {
    && (b.status.Confirmed? ==>
          b.txHash.Some? && b.submittedAt.Some? && b.confirmedAt.Some? && b.failureReason.None? && b.failedAt.None?)
    && (b.status.Submitted? ==> b.submittedAt.Some? && b.failureReason.None? && b.failedAt.None?)
    && (b.status.Accepted? ==> b.failureReason.None? && b.failedAt.None?)
    && (b.status.Failed? ==> b.failureReason.Some? && b.failedAt.Some?)
    && (b.status.Resolved? <==> b.resolvedAt.Some?)
  }

  predicate BoundToItsMode(rounds: seq<Round>, b: Bet) {
    b.round.Some? ==> b.round.value < |rounds| && rounds[b.round.value].mode == b.mode
  }

  /** What holds of bet `id` and its events in every reachable ledger. */
  ghost predicate Tracked(l: Ledger, id: nat) {
    var events := EventsOf(l.outbox, id);
    && Rebuild(events) == ImageOf(l, id)
    && (events == [] <==> id >= |l.bets|)
    && WellShaped(events, id < |l.bets| && l.bets[id].status.Resolved?)
    && (id < |l.bets| ==> BetInv(l.bets[id]) && BoundToItsMode(l.rounds, l.bets[id]))
  }

  lemma EventsAppend(outbox: seq<Event>, e: Event, id: nat)
    ensures EventsOf(outbox + [e], id) == EventsOf(outbox, id) + (if e.bet == id then [e] else [])
  {
    assert (outbox + [e])[..|outbox|] == outbox;
  }

  lemma RebuildAppend(events: seq<Event>, e: Event)
    ensures Rebuild(events + [e]) == Fold(Rebuild(events), e)
  {
    assert (events + [e])[..|events|] == events;
  }

  /** One operation touches at most one bet, and then writes exactly one event, about that bet. */
  lemma OneRowOneEvent(l: Ledger, op: Op)
    ensures var l' := Apply(l, op);
            || l' == l
            || (&& |l'.outbox| == |l.outbox| + 1 && l'.outbox[..|l.outbox|] == l.outbox && l'.rounds == l.rounds
                && var id := l'.outbox[|l.outbox|].bet;
                   && id < |l'.bets| && |l.bets| <= |l'.bets| <= |l.bets| + 1
                   && (|l'.bets| == |l.bets| + 1 <==> id == |l.bets|)
                   && forall k :: 0 <= k < |l.bets| && k != id ==> l'.bets[k] == l.bets[k])
  {
  }

  /** Bets other than the one an operation writes keep their row and their events. */
  lemma OthersKeepTracked(l: Ledger, op: Op, id: nat)
    requires Tracked(l, id)
    requires Apply(l, op) == l || Apply(l, op).outbox[|Apply(l, op).outbox| - 1].bet != id
    ensures Tracked(Apply(l, op), id)
  {
    var l' := Apply(l, op);
    OneRowOneEvent(l, op);
    if l' != l {
      var e := l'.outbox[|l.outbox|];
      assert l'.outbox == l.outbox + [e];
      EventsAppend(l.outbox, e, id);
      assert EventsOf(l.outbox, id) + [] == EventsOf(l.outbox, id);
    }
  }

  /** A row may be rewritten together with an event that folds to its new status and hash. */
  lemma WriteKeepsTracked(l: Ledger, id: nat, bet: Bet, e: Event)
    requires id < |l.bets| && e.bet == id && Tracked(l, id) && !l.bets[id].status.Resolved?
    requires BetInv(bet) && bet.round == l.bets[id].round && bet.mode == l.bets[id].mode
    requires !e.BetAccepted? && (e.BetResolved? <==> bet.status.Resolved?)
    requires Fold(ImageOf(l, id), e) == Image(bet.status, bet.txHash)
    ensures Tracked(Write(l, id, bet, e), id)
  {
    EventsAppend(l.outbox, e, id);
    RebuildAppend(EventsOf(l.outbox, id), e);
  }

  lemma FirstEvent(outbox: seq<Event>, e: Event, id: nat)
    requires EventsOf(outbox, id) == [] && e.bet == id
    ensures EventsOf(outbox + [e], id) == [e] && Rebuild([e]) == Fold(NoBet, e)
  {
    EventsAppend(outbox, e, id);
    RebuildAppend([], e);
    assert [] + [e] == [e];
  }

  /** What a recorded placement adds. */
  lemma RecordAdds(l: Ledger, op: Op) returns (bet: Bet, e: Event)
    requires op.OpRecord? && Apply(l, op) != l
    ensures Apply(l, op) == l.(bets := l.bets + [bet], outbox := l.outbox + [e])
    ensures e.BetAccepted? && e.bet == |l.bets| && Fold(NoBet, e) == Image(bet.status, bet.txHash)
    ensures BetInv(bet) && BoundToItsMode(l.rounds, bet) && !bet.status.Resolved?
  {
    var l' := Apply(l, op);
    bet, e := l'.bets[|l.bets|], l'.outbox[|l.outbox|];
  }

  lemma ApplyKeepsTracked(l: Ledger, op: Op, id: nat)
    requires Tracked(l, id)
    ensures Tracked(Apply(l, op), id)
  {
    var l' := Apply(l, op);
    OneRowOneEvent(l, op);
    if l' == l || l'.outbox[|l.outbox|].bet != id {
      OthersKeepTracked(l, op, id);
    } else if op.OpRecord? {
      var bet, e := RecordAdds(l, op);
      FirstEvent(l.outbox, e, id);
    } else {
      WriteKeepsTracked(l, id, l'.bets[id], l'.outbox[|l.outbox|]);
    }
  }

  /**
   After every run of operations, each bet's events in the outbox rebuild its
   status and hash; there is one BET_ACCEPTED event, the first, and at most one
   BET_RESOLVED event, the last, which is there exactly when the bet is RESOLVED;
   and a CONFIRMED bet has its hash and both times set and no failure recorded.
   */
  lemma {:induction false} OutboxTellsTheBets(rounds: seq<Round>, ops: seq<Op>, id: nat)
    ensures Tracked(Run(Ledger(rounds, [], []), ops), id)
  {
    if ops != [] {
      OutboxTellsTheBets(rounds, ops[..|ops| - 1], id);
      ApplyKeepsTracked(Run(Ledger(rounds, [], []), ops[..|ops| - 1]), ops[|ops| - 1], id);
    }
  }

  lemma ResolvedIsSkipped(l: Ledger, op: Op, id: nat)
    requires id < |l.bets| && l.bets[id].status.Resolved?
    ensures var l' := Apply(l, op);
            && |l'.bets| >= |l.bets| && l'.bets[id] == l.bets[id]
            && (l' == l || (|l'.outbox| == |l.outbox| + 1 && l'.outbox == l.outbox + [l'.outbox[|l.outbox|]]
                            && l'.outbox[|l.outbox|].bet != id))
  {
    OneRowOneEvent(l, op);
  }

  /** RESOLVED is final: no further run changes the bet or writes an event about it. */
  lemma {:induction false} ResolvedIsFinal(l: Ledger, ops: seq<Op>, id: nat)
    requires id < |l.bets| && l.bets[id].status.Resolved?
    ensures var l' := Run(l, ops);
            |l'.bets| >= |l.bets| && l'.bets[id] == l.bets[id] && EventsOf(l'.outbox, id) == EventsOf(l.outbox, id)
  {
    if ops != [] {
      ResolvedIsFinal(l, ops[..|ops| - 1], id);
      var before, after := Run(l, ops[..|ops| - 1]), Run(l, ops);
      ResolvedIsSkipped(before, ops[|ops| - 1], id);
      hide Apply;
      if after != before {
        EventsAppend(before.outbox, after.outbox[|before.outbox|], id);
      }
    }
  }

  // ---------------------------------------------------------------------------
  // Repeated operations
  // ---------------------------------------------------------------------------

  /** A confirmation, resolution or failure of bet `id`. */
  predicate Touches(op: Op, id: nat) {
    (op.OpReconcile? || op.OpResolve? || op.OpFail?) && op.id == id
  }

  /** The same call at another time. */
  function Again(op: Op, now: int): Op {
    match op
    case OpReconcile(id, hash, _) => OpReconcile(id, hash, now)
    case OpResolve(id, won, payout, _) => OpResolve(id, won, payout, now)
    case OpFail(id, reason, _) => OpFail(id, reason, now)
    case _ => op
  }

  /** The last of the operations that touches the bet; a resolution, once there, counts as the last. */
  function LastTouch(ops: seq<Op>, id: nat): Option<Op> {
    if ops == [] then None
    else
      var earlier, op := LastTouch(ops[..|ops| - 1], id), ops[|ops| - 1];
      if !Touches(op, id) || (earlier.Some? && earlier.value.OpResolve?) then earlier else Some(op)
  }

  /** Where a touch leaves a bet that is not RESOLVED. */
  predicate Left(bet: Bet, op: Op) {
    match op
    case OpReconcile(_, hash, _) => bet.status.Confirmed? && bet.txHash == Some(hash)
    case OpResolve(_, _, _, _) => bet.status.Resolved?
    case OpFail(_, _, _) => bet.status.Failed?
    case _ => true
  }

  /** The touch leaves the bet where the repeated call would not: it would act again. */
  predicate Undoes(op: Op, touch: Op) {
    match op
    case OpReconcile(_, hash, _) => touch.OpFail? || (touch.OpReconcile? && touch.hash != hash)
    case OpFail(_, _, _) => touch.OpReconcile?
    case _ => false
  }

  /** Operations on other bets, sweeps among them, leave a touched bet as it is. */
  lemma UntouchedStays(l: Ledger, op: Op, id: nat, touch: Op)
    requires id < |l.bets| && Touches(touch, id) && Left(l.bets[id], touch) && !Touches(op, id)
    ensures id < |Apply(l, op).bets| && Apply(l, op).bets[id] == l.bets[id]
  {
  }

  lemma TouchLeaves(l: Ledger, op: Op, id: nat)
    requires id < |l.bets| && Touches(op, id) && !l.bets[id].status.Resolved?
    ensures id < |Apply(l, op).bets| && Left(Apply(l, op).bets[id], op)
  {
  }

  /** After a touch and any run of operations, the bet is where the last touch leaves it. */
  lemma {:induction false} LastTouchDecides(l: Ledger, ops: seq<Op>, id: nat, touch: Op)
    requires id < |l.bets| && Touches(touch, id) && Left(l.bets[id], touch) && !touch.OpResolve?
    ensures id < |Run(l, ops).bets|
    ensures var last := LastTouch(ops, id);
            && (last.Some? ==> Touches(last.value, id))
            && Left(Run(l, ops).bets[id], if last.Some? then last.value else touch)
            && (last.None? ==> Run(l, ops).bets[id] == l.bets[id])
  {
    if ops != [] {
      var init, op := ops[..|ops| - 1], ops[|ops| - 1];
      LastTouchDecides(l, init, id, touch);
      var before, last := Run(l, init), LastTouch(init, id);
      var now := if last.Some? then last.value else touch;
      if !Touches(op, id) {
        UntouchedStays(before, op, id, now);
      } else if now.OpResolve? {
        ResolvedIsSkipped(before, op, id);
      } else {
        TouchLeaves(before, op, id);
      }
    }
  }

  /** A repeated call acts on a bet that is not where the call leaves it. */
  lemma ActsIff(l: Ledger, op: Op, id: nat, now: int)
    requires id < |l.bets| && Touches(op, id)
    ensures Apply(l, Again(op, now)) != l <==> !l.bets[id].status.Resolved? && !Left(l.bets[id], op)
  {
    var l' := Apply(l, Again(op, now));
    if !l.bets[id].status.Resolved? && !Left(l.bets[id], op) {
      assert |l'.outbox| == |l.outbox| + 1;
    }
  }

  /**
   A confirmation, resolution or failure, any run of operations, and the same call
   again at any later time: the repeat changes the ledger if and only if the bet was
   not RESOLVED to begin with, none of the operations in between resolves it, and
   the last of them that touches it is a failure or a confirmation with another hash
   (for a repeated confirmation), or a confirmation (for a repeated failure).
   */
  lemma RepeatActsIff(l: Ledger, op: Op, id: nat, ops: seq<Op>, now: int)
    requires id < |l.bets| && Touches(op, id)
    ensures var l' := Run(Apply(l, op), ops);
            var last := LastTouch(ops, id);
            Apply(l', Again(op, now)) != l' <==>
              !l.bets[id].status.Resolved? && last.Some? && Undoes(op, last.value)
  {
    var l1 := Apply(l, op);
    if l.bets[id].status.Resolved? || op.OpResolve? {
      if l.bets[id].status.Resolved? { ResolvedIsSkipped(l, op, id); } else { TouchLeaves(l, op, id); }
      ResolvedIsFinal(l1, ops, id);
      ActsIff(Run(l1, ops), op, id, now);
    } else {
      TouchLeaves(l, op, id);
      LastTouchDecides(l1, ops, id, op);
      ActsIff(Run(l1, ops), op, id, now);
    }
  }

  /** So with no other touch of the bet in between, the repeat changes neither ledger nor outbox. */
  lemma {:induction false} RepeatsAreNoOps(l: Ledger, op: Op, id: nat, ops: seq<Op>, now: int)
    requires id < |l.bets| && Touches(op, id)
    requires forall k :: 0 <= k < |ops| ==> !Touches(ops[k], id)
    ensures Apply(Run(Apply(l, op), ops), Again(op, now)) == Run(Apply(l, op), ops)
  {
    RepeatActsIff(l, op, id, ops, now);
    NoTouch(ops, id);
  }

  lemma {:induction false} NoTouch(ops: seq<Op>, id: nat)
    requires forall k :: 0 <= k < |ops| ==> !Touches(ops[k], id)
    ensures LastTouch(ops, id).None?
  {
    if ops != [] {
      NoTouch(ops[..|ops| - 1], id);
    }
  }

  // ---------------------------------------------------------------------------
  // The ledger and the chain
  // ---------------------------------------------------------------------------

  function Landed(rounds: seq<Round>, op: Op): multiset<Stake> {
    if op.OpRecord? && Lands(rounds, op.order, op.reply, op.fate) then multiset{op.order.stake} else multiset{}
  }

  /** The stakes on chain after a run. */
  function Chain(rounds: seq<Round>, ops: seq<Op>): multiset<Stake> {
    if ops == [] then multiset{} else Chain(rounds, ops[..|ops| - 1]) + Landed(rounds, ops[|ops| - 1])
  }

  /** The stakes of the bets that were accepted as placed on chain, as the outbox and the rows have them. */
  function Placements(outbox: seq<Event>, stakes: seq<Stake>): multiset<Stake> {
    if outbox == [] then multiset{}
    else
      var e := outbox[|outbox| - 1];
      Placements(outbox[..|outbox| - 1], stakes)
      + if e.BetAccepted? && !e.stub && e.bet < |stakes| then multiset{stakes[e.bet]} else multiset{}
  }

  function Stakes(bets: seq<Bet>): seq<Stake> {
    seq(|bets|, k requires 0 <= k < |bets| => StakeOf(bets[k]))
  }

  function OnRecord(l: Ledger): multiset<Stake> {
    Placements(l.outbox, Stakes(l.bets))
  }

  /** A placement whose stake is on chain and whose transaction left no row. */
  predicate Orphans(rounds: seq<Round>, op: Op) {
    && op.OpRecord? && Lands(rounds, op.order, op.reply, op.fate)
    && (op.reply.Throws? || op.fate.FailsAfterCall?)
  }

  /** A placement recorded as placed whose stake is not on chain. */
  predicate Hollow(rounds: seq<Round>, op: Op) {
    && op.OpRecord? && ResolveRoundId(rounds, op.order.stake.mode, op.order.requested).Bound?
    && (op.fate.Commits? || op.fate.ReplyLost?)
    && op.reply.Placed? && !op.reply.landed
  }

  function OrphanStakes(rounds: seq<Round>, ops: seq<Op>): multiset<Stake> {
    if ops == [] then multiset{}
    else
      var op := ops[|ops| - 1];
      OrphanStakes(rounds, ops[..|ops| - 1]) + StakeIf(Orphans(rounds, op), op)
  }

  function HollowStakes(rounds: seq<Round>, ops: seq<Op>): multiset<Stake> {
    if ops == [] then multiset{}
    else
      var op := ops[|ops| - 1];
      HollowStakes(rounds, ops[..|ops| - 1]) + StakeIf(Hollow(rounds, op), op)
  }

  predicate EventsNameBets(l: Ledger) {
    forall k :: 0 <= k < |l.outbox| ==> l.outbox[k].bet < |l.bets|
  }

  lemma ApplyKeepsEventsNamed(l: Ledger, op: Op)
    requires EventsNameBets(l)
    ensures EventsNameBets(Apply(l, op)) && Apply(l, op).rounds == l.rounds
  {
    var l' := Apply(l, op);
    OneRowOneEvent(l, op);
    forall k | 0 <= k < |l'.outbox| ensures l'.outbox[k].bet < |l'.bets| {
      if k < |l.outbox| {
        assert l'.outbox[k] == l'.outbox[..|l.outbox|][k] || l' == l;
      }
    }
  }

  /** A new row adds nothing for the events there were before it. */
  lemma {:induction false} OldEventsOldStakes(outbox: seq<Event>, stakes: seq<Stake>, stake: Stake)
    requires forall k :: 0 <= k < |outbox| ==> outbox[k].bet < |stakes|
    ensures Placements(outbox, stakes + [stake]) == Placements(outbox, stakes)
  {
    if outbox != [] {
      OldEventsOldStakes(outbox[..|outbox| - 1], stakes, stake);
    }
  }

  lemma PlacementsAppend(outbox: seq<Event>, e: Event, stakes: seq<Stake>)
    ensures Placements(outbox + [e], stakes) ==
            Placements(outbox, stakes)
            + if e.BetAccepted? && !e.stub && e.bet < |stakes| then multiset{stakes[e.bet]} else multiset{}
  {
    assert (outbox + [e])[..|outbox|] == outbox;
  }

  lemma RecordOnRecord(l: Ledger, op: Op)
    requires op.OpRecord? && EventsNameBets(l) && Apply(l, op) != l
    ensures OnRecord(Apply(l, op)) ==
            OnRecord(l) + if op.reply.Stub? then multiset{} else multiset{op.order.stake}
  {
    var l' := Apply(l, op);
    var e := l'.outbox[|l.outbox|];
    assert l'.outbox == l.outbox + [e] && Stakes(l'.bets) == Stakes(l.bets) + [op.order.stake];
    PlacementsAppend(l.outbox, e, Stakes(l'.bets));
    OldEventsOldStakes(l.outbox, Stakes(l.bets), op.order.stake);
  }

  lemma OthersOnRecord(l: Ledger, op: Op)
    requires !op.OpRecord?
    ensures OnRecord(Apply(l, op)) == OnRecord(l)
  {
    var l' := Apply(l, op);
    if l' != l {
      var e := l'.outbox[|l.outbox|];
      assert l'.outbox == l.outbox + [e] && Stakes(l'.bets) == Stakes(l.bets);
      PlacementsAppend(l.outbox, e, Stakes(l.bets));
    }
  }

  function StakeIf(b: bool, op: Op): multiset<Stake> {
    if b && op.OpRecord? then multiset{op.order.stake} else multiset{}
  }

  /** What one operation does to both sides of the account. */
  lemma ChainStep(l: Ledger, op: Op)
    requires EventsNameBets(l)
    ensures OnRecord(Apply(l, op)) + StakeIf(Orphans(l.rounds, op), op) ==
            OnRecord(l) + Landed(l.rounds, op) + StakeIf(Hollow(l.rounds, op), op)
  {
    if op.OpRecord? {
      if Apply(l, op) != l { RecordOnRecord(l, op); }
    } else {
      OthersOnRecord(l, op);
    }
  }

  lemma Both(
      chain: multiset<Stake>, hollow: multiset<Stake>, record: multiset<Stake>, orphans: multiset<Stake>,
      record': multiset<Stake>, landed: multiset<Stake>, hollow1: multiset<Stake>, orphan1: multiset<Stake>)
    requires chain + hollow == record + orphans
    requires record' + orphan1 == record + landed + hollow1
    ensures (chain + landed) + (hollow + hollow1) == record' + (orphans + orphan1)
  {
    calc {
      (chain + landed) + (hollow + hollow1);
      (chain + hollow) + (landed + hollow1);
      orphans + (record + landed + hollow1);
      record' + (orphans + orphan1);
    }
  }

  lemma {:induction false} RunIsNamed(rounds: seq<Round>, ops: seq<Op>)
    ensures var l := Run(Ledger(rounds, [], []), ops);
            EventsNameBets(l) && l.rounds == rounds
  {
    hide Apply;
    if ops != [] {
      RunIsNamed(rounds, ops[..|ops| - 1]);
      ApplyKeepsEventsNamed(Run(Ledger(rounds, [], []), ops[..|ops| - 1]), ops[|ops| - 1]);
    }
  }

  /**
   After every run, the stakes on chain and the bets recorded as placed differ by
   exactly the orphans (on chain without a row) and the hollow rows (a row whose
   stake never landed).
   */
  lemma {:induction false} ChainBalance(rounds: seq<Round>, ops: seq<Op>)
    ensures Chain(rounds, ops) + HollowStakes(rounds, ops) ==
            OnRecord(Run(Ledger(rounds, [], []), ops)) + OrphanStakes(rounds, ops)
  {
    hide Apply, Orphans, Hollow, Landed, StakeIf;
    if ops != [] {
      var init, op := ops[..|ops| - 1], ops[|ops| - 1];
      ChainBalance(rounds, init);
      RunIsNamed(rounds, init);
      var l := Run(Ledger(rounds, [], []), init);
      ChainStep(l, op);
      Both(Chain(rounds, init), HollowStakes(rounds, init), OnRecord(l), OrphanStakes(rounds, init),
           OnRecord(Apply(l, op)), Landed(rounds, op), StakeIf(Hollow(rounds, op), op), StakeIf(Orphans(rounds, op), op));
    }
  }

  ghost predicate Agree(rounds: seq<Round>, ops: seq<Op>) {
    Chain(rounds, ops) == OnRecord(Run(Ledger(rounds, [], []), ops))
  }

  /** Ledger and chain agree after a run if and only if its orphans and its hollow rows are the same stakes. */
  lemma AgreeIff(rounds: seq<Round>, ops: seq<Op>)
    ensures Agree(rounds, ops) <==> OrphanStakes(rounds, ops) == HollowStakes(rounds, ops)
  {
    ChainBalance(rounds, ops);
    Cancel(Chain(rounds, ops), HollowStakes(rounds, ops),
           OnRecord(Run(Ledger(rounds, [], []), ops)), OrphanStakes(rounds, ops));
  }

  lemma Cancel(a: multiset<Stake>, b: multiset<Stake>, c: multiset<Stake>, d: multiset<Stake>)
    requires a + b == c + d
    ensures a == c <==> d == b
  {
    assert forall x :: a[x] + b[x] == (a + b)[x] && c[x] + d[x] == (c + d)[x];
  }

  predicate Faulty(rounds: seq<Round>, op: Op) {
    Orphans(rounds, op) || Hollow(rounds, op)
  }

  /**
   They agree throughout a run if and only if none of its placements landed without
   committing (it threw, or its transaction failed after the call) and none
   committed as placed without landing.
   */
  lemma {:induction false} AlwaysAgreeIff(rounds: seq<Round>, ops: seq<Op>)
    ensures (forall n :: 0 <= n <= |ops| ==> Agree(rounds, ops[..n])) <==>
            (forall k :: 0 <= k < |ops| ==> !Faulty(rounds, ops[k]))
  {
    hide Agree, Faulty;
    if k :| 0 <= k < |ops| && Faulty(rounds, ops[k]) {
      assert ops[..k + 1] == ops[..k] + [ops[k]];
      AgreementBreaks(rounds, ops[..k], ops[k]);
    } else {
      forall n | 0 <= n <= |ops| ensures Agree(rounds, ops[..n]) {
        FaultlessAgree(rounds, ops[..n]);
      }
    }
  }

  /** An orphan or a hollow row breaks an agreement there was. */
  lemma AgreementBreaks(rounds: seq<Round>, init: seq<Op>, op: Op)
    requires Faulty(rounds, op)
    ensures !(Agree(rounds, init) && Agree(rounds, init + [op]))
  {
    AgreeIff(rounds, init);
    AgreeIff(rounds, init + [op]);
    assert (init + [op])[..|init|] == init;
    assert OrphanStakes(rounds, init + [op])[op.order.stake] - OrphanStakes(rounds, init)[op.order.stake] !=
           HollowStakes(rounds, init + [op])[op.order.stake] - HollowStakes(rounds, init)[op.order.stake];
  }

  lemma {:induction false} FaultlessAgree(rounds: seq<Round>, ops: seq<Op>)
    requires forall k :: 0 <= k < |ops| ==> !Faulty(rounds, ops[k])
    ensures OrphanStakes(rounds, ops) == HollowStakes(rounds, ops) == multiset{}
    ensures Agree(rounds, ops)
  {
    if ops != [] {
      FaultlessAgree(rounds, ops[..|ops| - 1]);
    }
    AgreeIff(rounds, ops);
  }

  /**
   The handler writes a FAILED row and a BET_FAILED event for a call that threw, in
   the transaction it then rolls back: placements alone, however many throw, never
   leave either behind.
   */
  lemma {:induction false} PlacementsNeverRecordFailures(rounds: seq<Round>, ops: seq<Op>)
    requires forall k :: 0 <= k < |ops| ==> ops[k].OpRecord?
    ensures var l := Run(Ledger(rounds, [], []), ops);
            && (forall k :: 0 <= k < |l.bets| ==> l.bets[k].status.Accepted? || l.bets[k].status.Submitted?)
            && (forall k :: 0 <= k < |l.outbox| ==> l.outbox[k].BetAccepted?)
            && |l.bets| == |l.outbox| <= |ops|
  {
    if ops != [] {
      PlacementsNeverRecordFailures(rounds, ops[..|ops| - 1]);
    }
  }
}
