/**
 What keeps a wallet from being submitted with a claim in flight, over the runs of
 overlapping requests, sweeps and visits of ClaimSteps.
 */
module ClaimDiscipline {
  import opened Wrappers
  import opened ClaimLedger
  import opened ClaimSteps

  /** The wallet of the activity that the step would start. */
  function StartsFor(s: System, step: Step): Option<string> {
    match step
    case StartUser(wallet) => Some(wallet)
    case StartQueue(wallet, _) => Some(wallet)
    case StartWorker(row, _) => if row.id < |s.claims| then Some(s.claims[row.id].wallet) else None
    case _ => None
  }

  /** An activity starts while another one of the same wallet is under way. */
  predicate Overlaps(s: System, step: Step) {
    && StartsFor(s, step).Some?
    && exists a :: 0 <= a < |s.acts| && !s.acts[a].Done? && Wallet(s, s.acts[a]) == StartsFor(s, step).value
  }

  /** The worker takes up a row as PENDING or FAILED that is SUBMITTED by now. */
  predicate Outdated(s: System, step: Step) {
    step.StartWorker? && step.row.id < |s.claims| && s.claims[step.row.id].status.Submitted?
  }

  datatype Discipline = Discipline(mayOverlap: bool, mayBeOutdated: bool)

  predicate Allows(d: Discipline, s: System, step: Step) {
    (Overlaps(s, step) ==> d.mayOverlap) && (Outdated(s, step) ==> d.mayBeOutdated)
  }

  predicate Admits(d: Discipline, steps: seq<Step>) {
    steps != [] ==>
      && Admits(d, steps[..|steps| - 1])
      && Allows(d, RunSteps(steps[..|steps| - 1]), steps[|steps| - 1])
  }

  /** Over every admitted run, nothing is submitted for a wallet with a claim in flight. */
  ghost predicate NeverOverInFlight(d: Discipline) {
    forall steps, step :: Admits(d, steps) && Asks(RunSteps(steps), step) ==>
      !InFlight(RunSteps(steps).claims, Wallet(RunSteps(steps), RunSteps(steps).acts[step.a]))
  }

  /** What the activity has seen to still holds. */
  predicate Clear(s: System, act: Activity) {
    match act
    case Claiming(job, stage, _) =>
      && (stage.Looked? ==> !InFlight(s.claims, Wallet(s, act)))
      && (job.UserJob? && job.existing.None? ==> FirstOpen(s.claims, job.wallet).None?)
    case Queueing(wallet, _, _, _) => FirstOpen(s.claims, wallet).None?
    case Done => true
  }

  predicate Apart(s: System) {
    forall a, b :: 0 <= a < b < |s.acts| && !s.acts[a].Done? && !s.acts[b].Done? ==>
      Wallet(s, s.acts[a]) != Wallet(s, s.acts[b])
  }

  ghost predicate Orderly(s: System) {
    OneOpen(s.claims) && Apart(s) && forall a :: 0 <= a < |s.acts| ==> Clear(s, s.acts[a])
  }

  /** For this wallet, nothing opens and nothing becomes SUBMITTED from one table to the other. */
  predicate Calm(before: seq<Claim>, after: seq<Claim>, wallet: string) {
    && |before| <= |after|
    && (forall i :: 0 <= i < |before| && after[i].wallet == wallet ==>
          && before[i].wallet == wallet
          && (Open(after[i].status) ==> Open(before[i].status))
          && (after[i].status.Submitted? ==> before[i].status.Submitted?))
    && (forall i :: |before| <= i < |after| ==> after[i].wallet != wallet)
  }

  lemma CalmKeeps(before: seq<Claim>, after: seq<Claim>, wallet: string)
    requires Calm(before, after, wallet)
    ensures InFlight(after, wallet) ==> InFlight(before, wallet)
    ensures FirstOpen(before, wallet).None? ==> FirstOpen(after, wallet).None?
  {
    if i :| 0 <= i < |after| && after[i].wallet == wallet && after[i].status.Submitted? {
      assert before[i].wallet == wallet && before[i].status.Submitted?;
    }
    if FirstOpen(before, wallet).None? {
      forall i | 0 <= i < |after| ensures !OpenFor(after[i], wallet) {
        if i < |before| { assert !OpenFor(before[i], wallet); }
      }
    }
  }

  lemma VisitIsCalm(s: System, step: Step, wallet: string)
    requires step.VisitAtOnce?
    ensures Calm(s.claims, Do(s, step).claims, wallet)
  {
    if AtOnce(s.claims, step.row, step.env) {
      VisitWritesItsRow(s.claims, step.row, step.env, step.max);
      VisitLeavesClosed(s.claims, step.row, step.env, step.max);
    }
  }

  /** An activity's steps do nothing to other wallets. */
  lemma OwnStepIsCalm(s: System, step: Step, a: nat, wallet: string)
    requires Inv(s) && a < |s.acts| && !s.acts[a].Done? && Wallet(s, s.acts[a]) != wallet
    requires Do(s, step) == System(Next(s.claims, s.acts[a], step).0, s.acts[a := Next(s.claims, s.acts[a], step).1])
    ensures Calm(s.claims, Do(s, step).claims, wallet)
  {
    hide Do, OtherInFlight, UserSubmits;
    assert WellBegun(s.claims, s.acts[a]);
  }

  /** A claiming activity that goes on only moves from one stage to the next before it writes. */
  lemma OwnStepStage(s: System, act: Activity, step: Step)
    requires !act.Done? && WellBegun(s.claims, act)
    ensures var (claims, act') := Next(s.claims, act, step);
            !act'.Done? ==>
              && claims == s.claims && (act'.Claiming? <==> act.Claiming?)
              && (act.Claiming? ==> act'.job == act.job && (act'.stage.Looked? ==> act.stage.Looked?))
              && (act.Queueing? ==> act'.wallet == act.wallet)
  {
  }

  lemma WalletStays(s: System, s': System, act: Activity)
    requires WellBegun(s.claims, act) && Remembers(s'.claims, s.claims)
    ensures Wallet(s', act) == Wallet(s, act)
  {
  }

  lemma ClearStays(s: System, s': System, act: Activity)
    requires WellBegun(s.claims, act) && Remembers(s'.claims, s.claims) && Clear(s, act)
    requires !act.Done? ==> Calm(s.claims, s'.claims, Wallet(s, act))
    ensures Clear(s', act)
  {
    if !act.Done? {
      WalletStays(s, s', act);
      CalmKeeps(s.claims, s'.claims, Wallet(s, act));
    }
  }

  lemma NotLate(s: System, step: Step)
    requires Inv(s) && Orderly(s)
    ensures !Late(s, step)
  {
    if Creates(s, step) {
      assert Clear(s, s.acts[step.a]);
    }
  }

  /** What a start finds, if it may start. */
  lemma StartIsClear(s: System, step: Step)
    requires OneOpen(s.claims) && !Outdated(s, step) && Start(s.claims, step).Some?
    ensures Clear(s, Start(s.claims, step).value)
    ensures StartsFor(s, step) == Some(Wallet(s, Start(s.claims, step).value))
  {
    var act := Start(s.claims, step).value;
    var wallet := Wallet(s, act);
    if act.Claiming? && InFlight(s.claims, wallet) {
      var i :| 0 <= i < |s.claims| && s.claims[i].wallet == wallet && s.claims[i].status.Submitted?;
      if step.StartUser? {
        OnlyOpen(s.claims, wallet, i);
      }
    }
  }

  lemma StartKeepsOrderly(s: System, step: Step)
    requires Inv(s) && Orderly(s) && (step.StartUser? || step.StartWorker? || step.StartQueue?)
    requires !Overlaps(s, step) && !Outdated(s, step)
    ensures Orderly(Do(s, step))
  {
    var s' := Do(s, step);
    if Start(s.claims, step).Some? {
      StartIsClear(s, step);
      hide FirstOpen, InFlight, OneOpen, Start;
      forall a | 0 <= a < |s'.acts| ensures Clear(s', s'.acts[a]) {
        if a < |s.acts| { assert Clear(s, s.acts[a]); }
      }
      forall a, b | 0 <= a < b < |s'.acts| && !s'.acts[a].Done? && !s'.acts[b].Done?
        ensures Wallet(s', s'.acts[a]) != Wallet(s', s'.acts[b])
      {
        assert a < |s.acts| && s'.acts[a] == s.acts[a];
      }
    }
  }

  lemma VisitKeepsOrderly(s: System, step: Step)
    requires Inv(s) && Orderly(s) && step.VisitAtOnce?
    ensures Orderly(Do(s, step))
  {
    var s' := Do(s, step);
    NotLate(s, step);
    OneOpenStep(s, step);
    StepRemembers(s, step);
    hide Do, OneOpen, FirstOpen, InFlight;
    assert s'.acts == s.acts by { VisitActs(s, step); }
    forall a | 0 <= a < |s.acts| ensures Clear(s', s.acts[a]) && Wallet(s', s.acts[a]) == Wallet(s, s.acts[a]) {
      VisitIsCalm(s, step, Wallet(s, s.acts[a]));
      assert WellBegun(s.claims, s.acts[a]) && Clear(s, s.acts[a]);
      ClearStays(s, s', s.acts[a]);
      WalletStays(s, s', s.acts[a]);
    }
  }

  lemma VisitActs(s: System, step: Step)
    requires step.VisitAtOnce?
    ensures Do(s, step).acts == s.acts
  {
  }

  predicate Takes(s: System, step: Step, a: nat) {
    && (step.Submit? || step.Save? || step.SaveFailure? || step.CheckConfirmed? || step.CreatePending?)
    && step.a == a && a < |s.acts|
  }

  lemma TakesIsNext(s: System, step: Step, a: nat)
    requires Takes(s, step, a)
    ensures Do(s, step) == System(Next(s.claims, s.acts[a], step).0, s.acts[a := Next(s.claims, s.acts[a], step).1])
  {
  }

  lemma OwnClearStays(s: System, step: Step, a: nat)
    requires Inv(s) && Orderly(s) && Takes(s, step, a) && !s.acts[a].Done?
    ensures Clear(Do(s, step), Do(s, step).acts[a])
    ensures !Do(s, step).acts[a].Done? ==> Wallet(Do(s, step), Do(s, step).acts[a]) == Wallet(s, s.acts[a])
  {
    TakesIsNext(s, step, a);
    assert WellBegun(s.claims, s.acts[a]) && Clear(s, s.acts[a]);
    OwnStepStage(s, s.acts[a], step);
  }

  lemma OwnKeepsOrderly(s: System, step: Step, a: nat)
    requires Inv(s) && Orderly(s) && Takes(s, step, a)
    ensures Orderly(Do(s, step))
  {
    var s' := Do(s, step);
    TakesIsNext(s, step, a);
    if s.acts[a].Done? {
      assert s.acts[a := s.acts[a]] == s.acts;
    } else {
      NotLate(s, step);
      OneOpenStep(s, step);
      StepRemembers(s, step);
      OwnClearStays(s, step, a);
      hide Do, Next, OneOpen, FirstOpen, InFlight, Clear;
      forall b | 0 <= b < |s.acts| && b != a && !s.acts[b].Done?
        ensures Clear(s', s'.acts[b]) && Wallet(s', s'.acts[b]) == Wallet(s, s.acts[b])
      {
        assert WellBegun(s.claims, s.acts[b]) && Clear(s, s.acts[b]) && s'.acts[b] == s.acts[b];
        assert Wallet(s, s.acts[a]) != Wallet(s, s.acts[b]);
        OwnStepIsCalm(s, step, a, Wallet(s, s.acts[b]));
        ClearStays(s, s', s.acts[b]);
        WalletStays(s, s', s.acts[b]);
      }
      forall b | 0 <= b < |s'.acts| ensures Clear(s', s'.acts[b]) {
        if b != a && s.acts[b].Done? { DoneIsClear(s', s'.acts[b]); }
      }
    }
  }

  lemma DoneIsClear(s: System, act: Activity)
    requires act.Done?
    ensures Clear(s, act)
  {
  }

  lemma {:induction false} StrictRunsAreOrderly(d: Discipline, steps: seq<Step>)
    requires !d.mayOverlap && !d.mayBeOutdated && Admits(d, steps)
    ensures Orderly(RunSteps(steps)) && Inv(RunSteps(steps))
  {
    DoAllKeepsInv(System([], []), steps);
    if steps != [] {
      var init, step := steps[..|steps| - 1], steps[|steps| - 1];
      StrictRunsAreOrderly(d, init);
      var s := RunSteps(init);
      hide Do, Orderly, Inv, Overlaps, Outdated;
      match step
      case StartUser(_) => StartKeepsOrderly(s, step);
      case StartWorker(_, _) => StartKeepsOrderly(s, step);
      case StartQueue(_, _) => StartKeepsOrderly(s, step);
      case VisitAtOnce(_, _, _) => VisitKeepsOrderly(s, step);
      case _ =>
        if step.a < |s.acts| {
          OwnKeepsOrderly(s, step, step.a);
        } else {
          NobodysStep(s, step);
        }
    }
  }

  lemma NobodysStep(s: System, step: Step)
    requires step.Submit? || step.Save? || step.SaveFailure? || step.CheckConfirmed? || step.CreatePending?
    requires step.a >= |s.acts|
    ensures Do(s, step) == s
  {
  }

  lemma Admit(d: Discipline, steps: seq<Step>, s: System, step: Step)
    requires Admits(d, steps) && s == RunSteps(steps) && Allows(d, s, step)
    ensures Admits(d, steps + [step]) && RunSteps(steps + [step]) == Do(s, step)
  {
    assert (steps + [step])[..|steps|] == steps;
  }

  /** Two activities of one wallet overlap, or the worker takes up an outdated row: a claim is submitted over one in flight. */
  lemma SubmitsOver(d: Discipline, wallet: string) returns (steps: seq<Step>, step: Step)
    requires d.mayOverlap || d.mayBeOutdated
    ensures Admits(d, steps) && Asks(RunSteps(steps), step)
    ensures InFlight(RunSteps(steps).claims, Wallet(RunSteps(steps), RunSteps(steps).acts[step.a]))
  {
    var s1;
    steps, s1 := RejectedRun(d, wallet);
    if d.mayOverlap {
      steps := OverlappingRun(d, wallet, steps, s1);
      step := Submit(1, Paid(1.0, None));
    } else {
      steps := OutdatedRun(d, wallet, steps, s1);
      step := Submit(2, Paid(1.0, None));
    }
  }

  /** The wallet's first request is rejected by the chain. */
  lemma RejectedRun(d: Discipline, wallet: string) returns (steps: seq<Step>, s: System)
    ensures Admits(d, steps) && RunSteps(steps) == s == System([Claim(wallet, Failed, None, None, 1, 0)], [Done])
  {
    hide Admits, RunSteps;
    steps, s := NothingYet(d);
    steps, s := Extend(d, steps, s, StartUser(wallet),
                       System([], [Claiming(UserJob(wallet, None), Looked, [])]));
    steps, s := Extend(d, steps, s, Submit(0, Rejected),
                       System([], [Claiming(UserJob(wallet, None), Called(Rejected), [])]));
    steps, s := Extend(d, steps, s, Save(0, true, 0),
                       System([], [Claiming(UserJob(wallet, None), Failing, [])]));
    steps, s := Extend(d, steps, s, SaveFailure(0, true, 0),
                       System([Claim(wallet, Failed, None, None, 1, 0)], [Done]));
  }

  lemma NothingYet(d: Discipline) returns (steps: seq<Step>, s: System)
    ensures steps == [] && s == System([], []) && Admits(d, steps) && RunSteps(steps) == s
  {
    steps, s := [], System([], []);
  }

  lemma Extend(d: Discipline, steps: seq<Step>, s: System, step: Step, after: System)
    returns (steps': seq<Step>, s': System)
    requires Admits(d, steps) && RunSteps(steps) == s && Allows(d, s, step) && Do(s, step) == after
    ensures Admits(d, steps') && RunSteps(steps') == s' == after
  {
    hide Do, Allows;
    Admit(d, steps, s, step);
    steps', s' := steps + [step], after;
  }

  /** A second request looks, and the worker submits the same row before the request does. */
  lemma OverlappingRun(d: Discipline, wallet: string, start: seq<Step>, s1: System) returns (steps: seq<Step>)
    requires d.mayOverlap && Admits(d, start) && RunSteps(start) == s1
    requires s1 == System([Claim(wallet, Failed, None, None, 1, 0)], [Done])
    ensures Admits(d, steps) && RunSteps(steps).claims == [Claim(wallet, Submitted, None, Some(1.0), 1, 0)]
    ensures RunSteps(steps).acts == [Done, Claiming(UserJob(wallet, Some(0)), Looked, s1.claims), Done]
  {
    hide Admits, RunSteps;
    var failed, row := s1.claims, Snapshot(0, Failed, None, None, 1);
    var user, worker := UserJob(wallet, Some(0)), WorkerJob(row, 5);
    var s;
    OldestOpen(failed, wallet);
    steps, s := Extend(d, start, s1, StartUser(wallet), System(failed, [Done, Claiming(user, Looked, failed)]));
    steps, s := Extend(d, steps, s, StartWorker(row, 5),
                       System(failed, [Done, Claiming(user, Looked, failed), Claiming(worker, Looked, failed)]));
    steps, s := Extend(d, steps, s, Submit(2, Paid(1.0, None)),
                       System(failed, [Done, Claiming(user, Looked, failed),
                                       Claiming(worker, Called(Paid(1.0, None)), failed)]));
    steps, s := Extend(d, steps, s, Save(2, true, 0),
                       System([Claim(wallet, Submitted, None, Some(1.0), 1, 0)],
                              [Done, Claiming(user, Looked, failed), Done]));
  }

  /** A second request goes through, and the worker takes up the row as it was before. */
  lemma OutdatedRun(d: Discipline, wallet: string, start: seq<Step>, s1: System) returns (steps: seq<Step>)
    requires d.mayBeOutdated && Admits(d, start) && RunSteps(start) == s1
    requires s1 == System([Claim(wallet, Failed, None, None, 1, 0)], [Done])
    ensures Admits(d, steps) && RunSteps(steps).claims == [Claim(wallet, Submitted, None, Some(1.0), 1, 0)]
    ensures RunSteps(steps).acts ==
            [Done, Done, Claiming(WorkerJob(Snapshot(0, Failed, None, None, 1), 5), Looked, RunSteps(steps).claims)]
  {
    hide Admits, RunSteps;
    var failed, row := s1.claims, Snapshot(0, Failed, None, None, 1);
    var sent := [Claim(wallet, Submitted, None, Some(1.0), 1, 0)];
    var user, worker := UserJob(wallet, Some(0)), WorkerJob(row, 5);
    var s;
    OldestOpen(failed, wallet);
    steps, s := Extend(d, start, s1, StartUser(wallet), System(failed, [Done, Claiming(user, Looked, failed)]));
    steps, s := Extend(d, steps, s, Submit(1, Paid(1.0, None)),
                       System(failed, [Done, Claiming(user, Called(Paid(1.0, None)), failed)]));
    steps, s := Extend(d, steps, s, Save(1, true, 0), System(sent, [Done, Done]));
    steps, s := Extend(d, steps, s, StartWorker(row, 5), System(sent, [Done, Done, Claiming(worker, Looked, sent)]));
  }

  lemma OldestOpen(claims: seq<Claim>, wallet: string)
    requires |claims| == 1 && OpenFor(claims[0], wallet)
    ensures FirstOpen(claims, wallet) == Some(0)
  {
  }

  /**
   No wallet is submitted with a claim in flight, over every run, if and only if no
   activity starts while another of the same wallet is under way and the worker never
   takes up as PENDING or FAILED a row that is SUBMITTED by then.
   */
  lemma NeverOverInFlightIff(d: Discipline)
    ensures NeverOverInFlight(d) <==> !d.mayOverlap && !d.mayBeOutdated
  {
    if !d.mayOverlap && !d.mayBeOutdated {
      forall steps, step | Admits(d, steps) && Asks(RunSteps(steps), step)
        ensures !InFlight(RunSteps(steps).claims, Wallet(RunSteps(steps), RunSteps(steps).acts[step.a]))
      {
        StrictRunsAreOrderly(d, steps);
        assert Clear(RunSteps(steps), RunSteps(steps).acts[step.a]);
      }
    } else {
      var steps, step := SubmitsOver(d, "wallet");
    }
  }
}
