/**
 What a round's settlement tells about the bets. The settlement of
 resolution.service.ts is one transaction, but `resolveBet` opens its own for every
 bet: a settlement that is rolled back leaves the bets it reached RESOLVED, with
 BET_RESOLVED events that carry its amounts.
 */
module SettledBets {
  import opened Wrappers
  import opened BetLedger

  /** What a settlement decides for the prediction of one user. */
  datatype Share = Share(address: string, won: bool, payout: real)

  predicate Awaits(bet: Bet, address: string, round: nat) {
    bet.address == address && bet.round == Some(round) && bet.status.Confirmed?
  }

  /** The CONFIRMED bet of the user in the round that the settlement finds. */
  function FindConfirmed(bets: seq<Bet>, address: string, round: nat): (r: Option<nat>)
    ensures r.Some? ==> r.value < |bets| && Awaits(bets[r.value], address, round)
    ensures r.None? ==> forall k :: 0 <= k < |bets| ==> !Awaits(bets[k], address, round)
  {
    if bets == [] then None
    else
      var n := |bets| - 1;
      var earlier := FindConfirmed(bets[..n], address, round);
      if earlier.Some? then earlier else if Awaits(bets[n], address, round) then Some(n) else None
  }

  /** The bet side of settling one prediction. */
  function SettleOne(l: Ledger, round: nat, share: Share, now: int): Ledger {
    var found := FindConfirmed(l.bets, share.address, round);
    if found.None? then l else Resolve(l, found.value, share.won, share.payout, now)
  }

  /** The loop over the predictions, as far as it got. */
  function SettleBets(l: Ledger, round: nat, shares: seq<Share>, now: int): Ledger {
    if shares == [] then l
    else SettleOne(SettleBets(l, round, shares[..|shares| - 1], now), round, shares[|shares| - 1], now)
  }

  /** That loop in the form of the source, over the service that owns the bets. */
  method SettleBetsOf(service: BetService, round: nat, shares: seq<Share>, now: int)
    modifies service
    ensures service.View() == SettleBets(old(service.View()), round, shares, now) && service.chain == old(service.chain)
  {
    for i := 0 to |shares|
      invariant service.View() == SettleBets(old(service.View()), round, shares[..i], now)
      invariant service.chain == old(service.chain)
    {
      assert shares[..i + 1][..i] == shares[..i];
      var found := FindConfirmed(service.bets, shares[i].address, round);
      if found.Some? {
        service.ResolveBet(found.value, shares[i].won, shares[i].payout, now);
      }
    }
    assert shares[..|shares|] == shares;
  }

  /** Before the settlement that commits: attempts that were rolled back after some shares, and whatever else happens to bets. */
  datatype Step = Aborted(shares: seq<Share>, now: int) | Other(op: Op)

  /** Only settlement resolves bets. */
  function Do(l: Ledger, round: nat, step: Step): Ledger {
    match step
    case Aborted(shares, now) => SettleBets(l, round, shares, now)
    case Other(op) => if op.OpResolve? then l else Apply(l, op)
  }

  function History(l: Ledger, round: nat, steps: seq<Step>): Ledger {
    if steps == [] then l else Do(History(l, round, steps[..|steps| - 1]), round, steps[|steps| - 1])
  }

  // ---------------------------------------------------------------------------
  // What the events tell, and what was settled
  // ---------------------------------------------------------------------------

  /** Whose bet it is and in which round: what no operation changes. */
  datatype Owner = Owner(address: string, round: Option<nat>)

  function Owners(bets: seq<Bet>): seq<Owner> {
    seq(|bets|, k requires 0 <= k < |bets| => Owner(bets[k].address, bets[k].round))
  }

  function TellsOne(e: Event, owners: seq<Owner>, round: nat): seq<Share> {
    if e.BetResolved? && e.bet < |owners| && owners[e.bet].round == Some(round)
    then [Share(owners[e.bet].address, e.won, e.payout)] else []
  }

  /** The shares that the BET_RESOLVED events of the round's bets carry, in order. */
  function Told(outbox: seq<Event>, owners: seq<Owner>, round: nat): seq<Share> {
    if outbox == [] then []
    else Told(outbox[..|outbox| - 1], owners, round) + TellsOne(outbox[|outbox| - 1], owners, round)
  }

  function ToldBy(l: Ledger, round: nat): seq<Share> {
    Told(l.outbox, Owners(l.bets), round)
  }

  /** The shares that resolved a bet. */
  function Effective(l: Ledger, round: nat, shares: seq<Share>, now: int): seq<Share> {
    if shares == [] then []
    else
      var init, share := shares[..|shares| - 1], shares[|shares| - 1];
      Effective(l, round, init, now)
      + if FindConfirmed(SettleBets(l, round, init, now).bets, share.address, round).Some? then [share] else []
  }

  /** The shares of rolled-back attempts that resolved a bet. */
  function Premature(l: Ledger, round: nat, steps: seq<Step>): seq<Share> {
    if steps == [] then []
    else
      var init, step := steps[..|steps| - 1], steps[|steps| - 1];
      Premature(l, round, init)
      + if step.Aborted? then Effective(History(l, round, init), round, step.shares, step.now) else []
  }

  lemma ToldAppend(outbox: seq<Event>, e: Event, owners: seq<Owner>, round: nat)
    ensures Told(outbox + [e], owners, round) == Told(outbox, owners, round) + TellsOne(e, owners, round)
  {
    assert (outbox + [e])[..|outbox|] == outbox;
  }

  lemma {:induction false} OldEventsTellTheSame(outbox: seq<Event>, owners: seq<Owner>, owner: Owner, round: nat)
    requires forall k :: 0 <= k < |outbox| ==> outbox[k].bet < |owners|
    ensures Told(outbox, owners + [owner], round) == Told(outbox, owners, round)
  {
    if outbox != [] {
      OldEventsTellTheSame(outbox[..|outbox| - 1], owners, owner, round);
    }
  }

  /** An operation writes nothing, or one event; it may add one bet, and changes no owner. */
  lemma OneEventOneOwner(l: Ledger, op: Op)
    ensures var l' := Apply(l, op);
            || l' == l
            || (&& l'.outbox == l.outbox + [l'.outbox[|l.outbox|]]
                && (op.OpRecord? ==> l'.outbox[|l.outbox|].BetAccepted? && |l'.bets| == |l.bets| + 1
                                     && Owners(l'.bets) == Owners(l.bets) + [Owners(l'.bets)[|l.bets|]])
                && (!op.OpRecord? ==> Owners(l'.bets) == Owners(l.bets)))
  {
  }

  lemma OthersTellNothing(l: Ledger, op: Op, round: nat)
    requires EventsNameBets(l) && !op.OpResolve?
    ensures ToldBy(Apply(l, op), round) == ToldBy(l, round)
  {
    var l' := Apply(l, op);
    OneEventOneOwner(l, op);
    if l' != l {
      var e := l'.outbox[|l.outbox|];
      assert !e.BetResolved?;
      hide Apply, Owners;
      ToldAppend(l.outbox, e, Owners(l'.bets), round);
      assert Told(l.outbox, Owners(l'.bets), round) + [] == Told(l.outbox, Owners(l'.bets), round);
      if op.OpRecord? {
        assert |Owners(l.bets)| == |l.bets| by { OwnersSize(l.bets); }
        OldEventsTellTheSame(l.outbox, Owners(l.bets), Owners(l'.bets)[|l.bets|], round);
      }
    }
  }

  lemma OwnersSize(bets: seq<Bet>)
    ensures |Owners(bets)| == |bets|
  {
  }

  lemma SettleOneTells(l: Ledger, round: nat, share: Share, now: int)
    requires EventsNameBets(l)
    ensures var l' := SettleOne(l, round, share, now);
            && EventsNameBets(l')
            && ToldBy(l', round)
            == ToldBy(l, round) + if FindConfirmed(l.bets, share.address, round).Some? then [share] else []
  {
    var found := FindConfirmed(l.bets, share.address, round);
    if found.Some? {
      var op := OpResolve(found.value, share.won, share.payout, now);
      var l' := Apply(l, op);
      ApplyKeepsEventsNamed(l, op);
      OneEventOneOwner(l, op);
      ToldAppend(l.outbox, BetResolved(found.value, share.won, share.payout), Owners(l.bets), round);
      assert Owners(l.bets)[found.value] == Owner(share.address, Some(round));
    } else {
      assert ToldBy(l, round) + [] == ToldBy(l, round);
    }
  }

  lemma {:induction false} SettleBetsTells(l: Ledger, round: nat, shares: seq<Share>, now: int)
    requires EventsNameBets(l)
    ensures EventsNameBets(SettleBets(l, round, shares, now))
    ensures ToldBy(SettleBets(l, round, shares, now), round) == ToldBy(l, round) + Effective(l, round, shares, now)
  {
    hide ToldBy, SettleOne, EventsNameBets;
    if shares == [] {
      assert ToldBy(l, round) + [] == ToldBy(l, round);
    } else {
      var n := |shares| - 1;
      SettleBetsTells(l, round, shares[..n], now);
      SettleOneTells(SettleBets(l, round, shares[..n], now), round, shares[n], now);
    }
  }

  /** Over every history, the events tell exactly the shares of the attempts that resolved a bet, committed or not. */
  lemma {:induction false} HistoryTells(l: Ledger, round: nat, steps: seq<Step>)
    requires EventsNameBets(l)
    ensures EventsNameBets(History(l, round, steps))
    ensures ToldBy(History(l, round, steps), round) == ToldBy(l, round) + Premature(l, round, steps)
  {
    hide ToldBy, EventsNameBets, SettleBets, Effective, Apply;
    if steps == [] {
      assert ToldBy(l, round) + [] == ToldBy(l, round);
    } else {
      var n := |steps| - 1;
      var before := History(l, round, steps[..n]);
      HistoryTells(l, round, steps[..n]);
      match steps[n]
      case Aborted(shares, now) => SettleBetsTells(before, round, shares, now);
      case Other(op) =>
        assert Premature(l, round, steps[..n]) + [] == Premature(l, round, steps[..n]);
        if !op.OpResolve? {
          OthersTellNothing(before, op, round);
          ApplyKeepsEventsNamed(before, op);
        }
    }
  }

  lemma {:induction false} EffectiveAreShares(l: Ledger, round: nat, shares: seq<Share>, now: int)
    ensures forall s :: s in Effective(l, round, shares, now) ==> s in shares
  {
    if shares != [] {
      EffectiveAreShares(l, round, shares[..|shares| - 1], now);
    }
  }

  ghost predicate AllIn(told: seq<Share>, shares: seq<Share>) {
    forall s :: s in told ==> s in shares
  }

  /**
   When a round whose bets were not resolved before is settled at last, every
   BET_RESOLVED event of the round carries what that settlement decided if and only
   if every share that resolved a bet in an attempt rolled back before it was decided
   the same way again: no later settlement corrects the events or the bets.
   */
  lemma EventsCarryTheSettlementIff(l: Ledger, round: nat, steps: seq<Step>, shares: seq<Share>, now: int)
    requires EventsNameBets(l) && ToldBy(l, round) == []
    ensures var settled := SettleBets(History(l, round, steps), round, shares, now);
            AllIn(ToldBy(settled, round), shares) <==> AllIn(Premature(l, round, steps), shares)
  {
    var before := History(l, round, steps);
    HistoryTells(l, round, steps);
    SettleBetsTells(before, round, shares, now);
    EffectiveAreShares(before, round, shares, now);
    hide ToldBy, History, SettleBets, Premature, Effective, EventsNameBets;
    assert [] + Premature(l, round, steps) == Premature(l, round, steps);
  }

  /** A settlement that is not preceded by a rolled-back one is what the events carry. */
  lemma {:induction false} FirstSettlementIsCarried(
      l: Ledger, round: nat, steps: seq<Step>, shares: seq<Share>, now: int)
    requires EventsNameBets(l) && ToldBy(l, round) == []
    requires forall k :: 0 <= k < |steps| ==> steps[k].Other?
    ensures AllIn(ToldBy(SettleBets(History(l, round, steps), round, shares, now), round), shares)
  {
    NothingPremature(l, round, steps);
    EventsCarryTheSettlementIff(l, round, steps, shares, now);
  }

  lemma {:induction false} NothingPremature(l: Ledger, round: nat, steps: seq<Step>)
    requires forall k :: 0 <= k < |steps| ==> steps[k].Other?
    ensures Premature(l, round, steps) == []
  {
    if steps != [] {
      NothingPremature(l, round, steps[..|steps| - 1]);
    }
  }

  /** The price moved between two attempts: the bet is told won with 150, the settlement decided lost with 0. */
  lemma RolledBackSettlementIsToldForGood(l: Ledger, address: string, round: nat)
    requires EventsNameBets(l) && ToldBy(l, round) == []
    requires FindConfirmed(l.bets, address, round).Some?
    ensures var steps, shares := [Aborted([Share(address, true, 150.0)], 1)], [Share(address, false, 0.0)];
            !AllIn(ToldBy(SettleBets(History(l, round, steps), round, shares, 2), round), shares)
  {
    var won, lost := Share(address, true, 150.0), Share(address, false, 0.0);
    var steps := [Aborted([won], 1)];
    assert steps[..0] == [] && [won][..0] == [];
    assert Effective(l, round, [won], 1) == [won];
    assert History(l, round, []) == l && Premature(l, round, []) == [];
    assert Premature(l, round, steps) == [won];
    assert won in Premature(l, round, steps) && won !in [lost];
    EventsCarryTheSettlementIff(l, round, steps, [lost], 2);
  }
}
