/**
 Claim requests, sweeps and worker visits that overlap. Between any two of an
 activity's accesses to the claim table or calls to the chain, every other activity
 may take its own steps; each single access is atomic.
 */
module ClaimSteps {
  import opened Wrappers
  import opened ClaimLedger

  /** On whose behalf the chain is asked to pay, and the row that is to record it. */
  datatype Job =
    | UserJob(wallet: string, existing: Option<nat>)
    | WorkerJob(row: Snapshot, max: nat)

  datatype Stage = Looked | Called(chain: ChainClaim) | Failing

  /** An activity between two of its steps. `seen` is the table as its lookup found it. */
  datatype Activity =
    | Claiming(job: Job, stage: Stage, seen: seq<Claim>)
    | Queueing(wallet: string, settledAt: int, checked: bool, seen: seq<Claim>)
    | Done

  datatype System = System(claims: seq<Claim>, acts: seq<Activity>)

  /** `a` is the activity that takes the step; `ok` tells whether the write goes through. */
  datatype Step =
    | StartUser(wallet: string)
    | StartWorker(row: Snapshot, max: nat)       // the winnings were read as owed: the in-flight check
    | StartQueue(wallet: string, settledAt: int)
    | Submit(a: nat, chain: ChainClaim)
    | Save(a: nat, ok: bool, now: int)
    | SaveFailure(a: nat, ok: bool, now: int)
    | CheckConfirmed(a: nat)
    | CreatePending(a: nat, ok: bool, now: int)
    | VisitAtOnce(row: Snapshot, env: Env, max: nat)  // a visit with at most one access to the table

  // ---------------------------------------------------------------------------
  // Steps
  // ---------------------------------------------------------------------------

  predicate InTable(claims: seq<Claim>, job: Job) {
    match job
    case UserJob(_, existing) => existing.Some? ==> existing.value < |claims|
    case WorkerJob(row, _) => row.id < |claims|
  }

  function SaveSubmission(claims: seq<Claim>, job: Job, paid: ChainClaim, now: int): seq<Claim>
    requires paid.Paid? && InTable(claims, job)
  {
    match job
    case UserJob(wallet, existing) => RecordSubmission(claims, wallet, paid, existing, now)
    case WorkerJob(row, _) =>
      var current := claims[row.id];
      if current.status.Pending? || current.status.Failed? then
        claims[row.id := current.(status := Submitted,
                                  txHash := if paid.txHash.Some? then paid.txHash else row.txHash,
                                  amount := Some(paid.amount))]
      else claims
  }

  function SaveFailedAttempt(claims: seq<Claim>, job: Job, now: int): seq<Claim>
    requires InTable(claims, job)
  {
    match job
    case UserJob(wallet, existing) => RecordFailure(claims, wallet, existing, now)
    case WorkerJob(row, max) => RecordFailedAttempt(claims, row, max, true).0
  }

  predicate SweptSince(claims: seq<Claim>, wallet: string, settledAt: int) {
    var confirmed := LatestConfirmed(claims, wallet);
    confirmed.Some? && confirmed.value >= settledAt
  }

  /** What a start adds, if its lookup lets it go on. */
  function Start(claims: seq<Claim>, step: Step): Option<Activity> {
    match step
    case StartUser(wallet) =>
      if UserSubmits(claims, wallet) then Some(Claiming(UserJob(wallet, FirstOpen(claims, wallet)), Looked, claims)) else None
    case StartWorker(row, max) =>
      if row.id < |claims| && !row.status.Submitted? && !OtherInFlight(claims, row.id)
      then Some(Claiming(WorkerJob(row, max), Looked, claims)) else None
    case StartQueue(wallet, settledAt) =>
      if FirstOpen(claims, wallet).None? then Some(Queueing(wallet, settledAt, false, claims)) else None
    case _ => None
  }

  /** A claiming activity's next step: the table and the activity after it. */
  function Advance(claims: seq<Claim>, act: Activity, step: Step): (seq<Claim>, Activity)
    requires act.Claiming?
  {
    if !InTable(claims, act.job) then (claims, act)
    else
      match act.stage
      case Looked => (claims, if step.Submit? then act.(stage := Called(step.chain)) else act)
      case Called(chain) =>
        if !step.Save? then (claims, act)
        else if chain.Paid? && step.ok then (SaveSubmission(claims, act.job, chain, step.now), Done)
        else (claims, act.(stage := Failing))
      case Failing =>
        if !step.SaveFailure? then (claims, act)
        else (if step.ok then SaveFailedAttempt(claims, act.job, step.now) else claims, Done)
  }

  function AdvanceQueue(claims: seq<Claim>, act: Activity, step: Step): (seq<Claim>, Activity)
    requires act.Queueing?
  {
    if !act.checked then
      (claims,
       if !step.CheckConfirmed? then act
       else if SweptSince(claims, act.wallet, act.settledAt) then Done
       else act.(checked := true))
    else if !step.CreatePending? then (claims, act)
    else (if step.ok then claims + [Claim(act.wallet, Pending, None, None, 0, step.now)] else claims, Done)
  }

  function Next(claims: seq<Claim>, act: Activity, step: Step): (seq<Claim>, Activity) {
    match act
    case Claiming(_, _, _) => Advance(claims, act, step)
    case Queueing(_, _, _, _) => AdvanceQueue(claims, act, step)
    case Done => (claims, act)
  }

  /** A visit to a SUBMITTED row, or one whose winnings read as nothing or not at all. */
  predicate AtOnce(claims: seq<Claim>, row: Snapshot, env: Env) {
    row.id < |claims| && (row.status.Submitted? || PendingWinnings(env.read) == None || PendingWinnings(env.read) == Some(0))
  }

  function Do(s: System, step: Step): System {
    match step
    case StartUser(_) | StartWorker(_, _) | StartQueue(_, _) =>
      var started := Start(s.claims, step);
      if started.Some? then s.(acts := s.acts + [started.value]) else s
    case VisitAtOnce(row, env, max) =>
      if AtOnce(s.claims, row, env) then s.(claims := Visit(s.claims, row, env, max).0) else s
    case _ =>
      if step.a >= |s.acts| then s
      else
        var (claims, act) := Next(s.claims, s.acts[step.a], step);
        System(claims, s.acts[step.a := act])
  }

  function DoAll(s: System, steps: seq<Step>): System {
    if steps == [] then s else Do(DoAll(s, steps[..|steps| - 1]), steps[|steps| - 1])
  }

  function RunSteps(steps: seq<Step>): System {
    DoAll(System([], []), steps)
  }

  // ---------------------------------------------------------------------------
  // What every run keeps
  // ---------------------------------------------------------------------------

  /** A later table: no row is lost or changes wallets, and closed rows are as they were. */
  predicate Remembers(claims: seq<Claim>, seen: seq<Claim>) {
    && |seen| <= |claims|
    && forall i :: 0 <= i < |seen| ==>
         claims[i].wallet == seen[i].wallet && (!Open(seen[i].status) ==> claims[i] == seen[i])
  }

  predicate WellBegun(claims: seq<Claim>, act: Activity) {
    match act
    case Claiming(UserJob(wallet, existing), _, seen) =>
      Remembers(claims, seen) && existing == FirstOpen(seen, wallet) && UserSubmits(seen, wallet)
    case Claiming(WorkerJob(row, _), _, seen) =>
      Remembers(claims, seen) && row.id < |seen| && !row.status.Submitted? && !OtherInFlight(seen, row.id)
    case Queueing(wallet, _, _, seen) => Remembers(claims, seen) && FirstOpen(seen, wallet).None?
    case Done => true
  }

  predicate Inv(s: System) {
    forall a :: 0 <= a < |s.acts| ==> WellBegun(s.claims, s.acts[a])
  }

  /** The step adds a row, for a wallet that had no open one when the activity looked. */
  predicate Creates(s: System, step: Step) {
    && (step.Save? || step.SaveFailure? || step.CreatePending?)
    && step.a < |s.acts| && step.ok
    && var act := s.acts[step.a];
       || (act.Claiming? && act.job.UserJob? && act.job.existing.None?
           && ((step.Save? && act.stage.Called? && act.stage.chain.Paid?) || (step.SaveFailure? && act.stage.Failing?)))
       || (act.Queueing? && act.checked && step.CreatePending?)
  }

  function Wallet(s: System, act: Activity): string {
    match act
    case Claiming(UserJob(wallet, _), _, _) => wallet
    case Claiming(WorkerJob(row, _), _, _) => if row.id < |s.claims| then s.claims[row.id].wallet else ""
    case Queueing(wallet, _, _, _) => wallet
    case Done => ""
  }

  lemma CreateAppends(s: System, step: Step)
    requires Creates(s, step)
    ensures var act, claims := s.acts[step.a], Do(s, step).claims;
            && !act.Done?
            && |claims| == |s.claims| + 1 && claims[..|s.claims|] == s.claims
            && OpenFor(claims[|s.claims|], Wallet(s, act))
  {
  }

  /** Any other step rewrites open rows in place, at most. */
  lemma OthersRewrite(s: System, step: Step)
    requires Inv(s) && !Creates(s, step)
    ensures |Do(s, step).claims| == |s.claims| && Remembers(Do(s, step).claims, s.claims)
  {
    if step.VisitAtOnce? && AtOnce(s.claims, step.row, step.env) {
      VisitWritesItsRow(s.claims, step.row, step.env, step.max);
      VisitLeavesClosed(s.claims, step.row, step.env, step.max);
    } else if step.Save? && step.a < |s.acts| {
      assert WellBegun(s.claims, s.acts[step.a]);
    } else if step.SaveFailure? && step.a < |s.acts| {
      assert WellBegun(s.claims, s.acts[step.a]);
    }
  }

  lemma VisitLeavesClosed(claims: seq<Claim>, row: Snapshot, env: Env, max: nat)
    requires row.id < |claims|
    ensures !Open(claims[row.id].status) ==> Visit(claims, row, env, max).0 == claims
  {
  }

  lemma StepRemembers(s: System, step: Step)
    requires Inv(s)
    ensures Remembers(Do(s, step).claims, s.claims)
  {
    if Creates(s, step) { CreateAppends(s, step); } else { OthersRewrite(s, step); }
  }

  lemma RemembersFurther(later: seq<Claim>, claims: seq<Claim>, seen: seq<Claim>)
    requires Remembers(later, claims) && Remembers(claims, seen)
    ensures Remembers(later, seen)
  {
  }

  lemma StartsWell(claims: seq<Claim>, step: Step)
    ensures var started := Start(claims, step);
            started.Some? ==> WellBegun(claims, started.value)
  {
  }

  lemma StepKeepsInv(s: System, step: Step)
    requires Inv(s)
    ensures Inv(Do(s, step))
  {
    StepRemembers(s, step);
    StartsWell(s.claims, step);
    var s' := Do(s, step);
    forall a | 0 <= a < |s'.acts| ensures WellBegun(s'.claims, s'.acts[a]) {
      if a < |s.acts| {
        assert WellBegun(s.claims, s.acts[a]);
        if !s.acts[a].Done? { RemembersFurther(s'.claims, s.claims, s.acts[a].seen); }
      }
    }
  }

  lemma {:induction false} DoAllKeepsInv(s: System, steps: seq<Step>)
    requires Inv(s)
    ensures Inv(DoAll(s, steps))
  {
    if steps != [] {
      DoAllKeepsInv(s, steps[..|steps| - 1]);
      StepKeepsInv(DoAll(s, steps[..|steps| - 1]), steps[|steps| - 1]);
    }
  }

  /** Whatever overlaps with what, a closed claim never changes again and no row is lost. */
  lemma {:induction false} ClosedRowsStayClosed(s: System, steps: seq<Step>)
    requires Inv(s)
    ensures Remembers(DoAll(s, steps).claims, s.claims)
  {
    if steps != [] {
      var before := DoAll(s, steps[..|steps| - 1]);
      ClosedRowsStayClosed(s, steps[..|steps| - 1]);
      DoAllKeepsInv(s, steps[..|steps| - 1]);
      StepRemembers(before, steps[|steps| - 1]);
      RemembersFurther(DoAll(s, steps).claims, before.claims, s.claims);
    }
  }

  // ---------------------------------------------------------------------------
  // At most one open claim
  // ---------------------------------------------------------------------------

  /** A row created for the wallet since the activity looked is still open. */
  predicate Late(s: System, step: Step) {
    && Creates(s, step) && !s.acts[step.a].Done?
    && exists id :: |s.acts[step.a].seen| <= id < |s.claims| && OpenFor(s.claims[id], Wallet(s, s.acts[step.a]))
  }

  /** Only a late creation breaks the rule of one open claim per wallet, and every late creation does. */
  lemma OneOpenStep(s: System, step: Step)
    requires Inv(s) && OneOpen(s.claims)
    ensures OneOpen(Do(s, step).claims) <==> !Late(s, step)
  {
    if Creates(s, step) {
      CreateKeepsOneOpenIff(s, step);
    } else {
      OthersRewrite(s, step);
    }
  }

  lemma CreateKeepsOneOpenIff(s: System, step: Step)
    requires Inv(s) && OneOpen(s.claims) && Creates(s, step)
    ensures OneOpen(Do(s, step).claims) <==> !Late(s, step)
  {
    var act, after := s.acts[step.a], Do(s, step).claims;
    CreateAppends(s, step);
    assert WellBegun(s.claims, act);
    var wallet := Wallet(s, act);
    assert FirstOpen(act.seen, wallet).None?;
    if Late(s, step) {
      var id :| |act.seen| <= id < |s.claims| && OpenFor(s.claims[id], wallet);
      assert after[id] == s.claims[id];
    } else {
      forall id | 0 <= id < |s.claims| ensures !OpenFor(s.claims[id], wallet) {
        if id < |act.seen| { assert !OpenFor(act.seen[id], wallet); }
      }
      assert forall id :: 0 <= id < |s.claims| ==> after[id] == s.claims[id];
    }
  }

  /** The steps of a run at which nothing is late. */
  ghost predicate NeverLate(steps: seq<Step>) {
    forall n :: 0 <= n < |steps| ==> !Late(RunSteps(steps[..n]), steps[n])
  }

  ghost predicate AlwaysOneOpen(steps: seq<Step>) {
    forall n :: 0 <= n <= |steps| ==> OneOpen(RunSteps(steps[..n]).claims)
  }

  lemma PrefixStep(steps: seq<Step>, n: nat)
    requires n < |steps|
    ensures RunSteps(steps[..n + 1]) == Do(RunSteps(steps[..n]), steps[n])
    ensures Inv(RunSteps(steps[..n]))
  {
    assert steps[..n + 1][..n] == steps[..n];
    DoAllKeepsInv(System([], []), steps[..n]);
  }

  /**
   Over every run of overlapping requests, sweeps and visits, each wallet keeps at
   most one open claim throughout if and only if no activity creates a row while
   one that was created after its own lookup is still open.
   */
  lemma {:induction false} OneOpenClaimIff(steps: seq<Step>)
    ensures AlwaysOneOpen(steps) <==> NeverLate(steps)
  {
    hide Late, OneOpen, RunSteps;
    if AlwaysOneOpen(steps) {
      forall n | 0 <= n < |steps| ensures !Late(RunSteps(steps[..n]), steps[n]) {
        PrefixStep(steps, n);
        assert OneOpen(RunSteps(steps[..n + 1]).claims);
        OneOpenStep(RunSteps(steps[..n]), steps[n]);
      }
    }
    if NeverLate(steps) {
      forall n | 0 <= n <= |steps| ensures OneOpen(RunSteps(steps[..n]).claims) {
        NeverLateOneOpen(steps, n);
      }
    }
  }

  lemma {:induction false} NeverLateOneOpen(steps: seq<Step>, n: nat)
    requires n <= |steps| && NeverLate(steps)
    ensures OneOpen(RunSteps(steps[..n]).claims)
  {
    if n > 0 {
      NeverLateOneOpen(steps, n - 1);
      PrefixStep(steps, n - 1);
      OneOpenStep(RunSteps(steps[..n - 1]), steps[n - 1]);
    }
  }

  // ---------------------------------------------------------------------------
  // Submitting over a claim in flight
  // ---------------------------------------------------------------------------

  /** The step asks the chain to pay. */
  predicate Asks(s: System, step: Step) {
    step.Submit? && step.a < |s.acts| && s.acts[step.a].Claiming? && s.acts[step.a].stage.Looked?
  }

  /** How a claim in flight escapes the activity's lookup. */
  predicate Escaped(act: Activity, i: nat)
    requires act.Claiming?
  {
    || i >= |act.seen|                              // it was created since
    || !act.seen[i].status.Submitted?               // it became SUBMITTED since
    || (act.job.WorkerJob? && i == act.job.row.id)  // the check leaves out the worker's own row
    || (act.job.UserJob? && exists j :: 0 <= j < i && OpenFor(act.seen[j], act.job.wallet))  // an older open one hid it
  }

  /**
   When a wallet is submitted with a claim in flight, that claim escaped the lookup in
   one of four ways: it was created or became SUBMITTED after it, it is the row the
   worker itself holds, or an older open claim of the wallet stood before it.
   */
  lemma ClaimInFlightEscaped(steps: seq<Step>, step: Step, i: nat)
    requires Asks(RunSteps(steps), step)
    requires var s := RunSteps(steps);
             && i < |s.claims| && s.claims[i].status.Submitted?
             && s.claims[i].wallet == Wallet(s, s.acts[step.a])
    ensures Escaped(RunSteps(steps).acts[step.a], i)
  {
    DoAllKeepsInv(System([], []), steps);
    var s := RunSteps(steps);
    var act := s.acts[step.a];
    assert WellBegun(s.claims, act);
    if i < |act.seen| && act.seen[i].status.Submitted? && act.job.UserJob? {
      assert OpenFor(act.seen[i], act.job.wallet);
      var j := FirstOpen(act.seen, act.job.wallet).value;
      assert j < i && OpenFor(act.seen[j], act.job.wallet);
    }
  }

  // ---------------------------------------------------------------------------
  // A closed wallet
  // ---------------------------------------------------------------------------

  /** The activity will not open a claim for a wallet with a claim CONFIRMED at `closedAt`. */
  predicate Harmless(act: Activity, wallet: string, closedAt: int) {
    match act
    case Claiming(UserJob(w, _), _, _) => w != wallet
    case Claiming(WorkerJob(_, _), _, _) => true
    case Queueing(w, settledAt, checked, _) => w == wallet ==> !checked && settledAt <= closedAt
    case Done => true
  }

  predicate HarmlessStart(step: Step, wallet: string, closedAt: int) {
    match step
    case StartUser(w) => w != wallet
    case StartQueue(w, settledAt) => w == wallet ==> settledAt <= closedAt
    case _ => true
  }

  predicate Closed(s: System, wallet: string, id: nat) {
    && id < |s.claims| && s.claims[id].wallet == wallet && s.claims[id].status.Confirmed?
    && FirstOpen(s.claims, wallet).None?
    && forall a :: 0 <= a < |s.acts| ==> Harmless(s.acts[a], wallet, s.claims[id].createdAt)
  }

  lemma StepStaysHarmless(s: System, step: Step, wallet: string, id: nat)
    requires Inv(s) && Closed(s, wallet, id) && HarmlessStart(step, wallet, s.claims[id].createdAt)
    ensures forall a :: 0 <= a < |Do(s, step).acts| ==> Harmless(Do(s, step).acts[a], wallet, s.claims[id].createdAt)
  {
    var s' := Do(s, step);
    forall a | 0 <= a < |s'.acts| ensures Harmless(s'.acts[a], wallet, s.claims[id].createdAt) {
      if a < |s.acts| { assert Harmless(s.acts[a], wallet, s.claims[id].createdAt); }
    }
  }

  lemma StepStaysClosed(s: System, step: Step, wallet: string, id: nat)
    requires Inv(s) && Closed(s, wallet, id) && HarmlessStart(step, wallet, s.claims[id].createdAt)
    ensures Closed(Do(s, step), wallet, id) && Do(s, step).claims[id] == s.claims[id]
  {
    var s' := Do(s, step);
    StepRemembers(s, step);
    StepStaysHarmless(s, step, wallet, id);
    forall i | 0 <= i < |s'.claims| ensures !OpenFor(s'.claims[i], wallet) {
      if i < |s.claims| {
        assert !OpenFor(s.claims[i], wallet);
      } else if Creates(s, step) {
        CreateAppends(s, step);
        assert Harmless(s.acts[step.a], wallet, s.claims[id].createdAt);
      } else {
        OthersRewrite(s, step);
      }
    }
  }

  /**
   A wallet with a claim closed, rightly or not, and no open one, with no request of
   its user under way and no sweep of it past its check, is not queued again, however
   the steps that follow interleave, until a bet of the wallet settles after the
   closed claim was created or its user asks.
   */
  lemma {:induction false} ClosedWalletIsNotRequeued(s: System, steps: seq<Step>, wallet: string, id: nat)
    requires Inv(s) && Closed(s, wallet, id)
    requires forall k :: 0 <= k < |steps| ==> HarmlessStart(steps[k], wallet, s.claims[id].createdAt)
    ensures Closed(DoAll(s, steps), wallet, id) && DoAll(s, steps).claims[id] == s.claims[id]
  {
    if steps != [] {
      ClosedWalletIsNotRequeued(s, steps[..|steps| - 1], wallet, id);
      DoAllKeepsInv(s, steps[..|steps| - 1]);
      StepStaysClosed(DoAll(s, steps[..|steps| - 1]), steps[|steps| - 1], wallet, id);
    }
  }

  // ---------------------------------------------------------------------------
  // Operations that do not overlap
  // ---------------------------------------------------------------------------

  /** The steps of a whole operation, taken by activity `a`. */
  function StepsOf(op: Op, a: nat): seq<Step> {
    match op
    case OpUser(wallet, chain, writes, now) =>
      [StartUser(wallet), Submit(a, chain), Save(a, writes.first, now), SaveFailure(a, writes.second, now)]
    case OpQueue(wallet, settledAt, now) =>
      [StartQueue(wallet, settledAt), CheckConfirmed(a), CreatePending(a, true, now)]
    case OpVisit(row, env, max) =>
      if row.status.Submitted? || PendingWinnings(env.read) == None || PendingWinnings(env.read) == Some(0)
      then [VisitAtOnce(row, env, max)]
      else [StartWorker(row, max), Submit(a, env.chain), Save(a, env.writes.first, 0), SaveFailure(a, env.writes.second, 0)]
  }

  lemma DoThree(s: System, a: Step, b: Step, c: Step)
    ensures DoAll(s, [a, b, c]) == Do(Do(Do(s, a), b), c)
  {
    assert [a, b, c][..2] == [a, b] && [a, b][..1] == [a] && [a][..0] == [];
    assert DoAll(s, [a]) == Do(s, a);
    assert DoAll(s, [a, b]) == Do(Do(s, a), b);
  }

  lemma DoFour(s: System, a: Step, b: Step, c: Step, d: Step)
    ensures DoAll(s, [a, b, c, d]) == Do(Do(Do(Do(s, a), b), c), d)
  {
    DoThree(s, a, b, c);
    assert [a, b, c, d][..3] == [a, b, c];
  }

  lemma UninterruptedRequest(s: System, wallet: string, chain: ChainClaim, writes: Writes, now: int)
    ensures DoAll(s, StepsOf(OpUser(wallet, chain, writes, now), |s.acts|)).claims ==
            UserClaim(s.claims, wallet, chain, writes, now).0
  {
    var a := |s.acts|;
    DoFour(s, StartUser(wallet), Submit(a, chain), Save(a, writes.first, now), SaveFailure(a, writes.second, now));
    if UserSubmits(s.claims, wallet) {
      hide DoAll, UserClaim, RecordSubmission, RecordFailure;
      var s1 := Do(s, StartUser(wallet));
      var job := UserJob(wallet, FirstOpen(s.claims, wallet));
      ClaimingToTheEnd(s1, a, job, chain, writes, now);
    }
  }

  /** A claiming activity that has looked, taken to its end. */
  function Claimed(claims: seq<Claim>, job: Job, chain: ChainClaim, writes: Writes, now: int): seq<Claim>
    requires InTable(claims, job)
  {
    if chain.Paid? && writes.first then SaveSubmission(claims, job, chain, now)
    else if writes.second then SaveFailedAttempt(claims, job, now)
    else claims
  }

  lemma ClaimingToTheEnd(s: System, a: nat, job: Job, chain: ChainClaim, writes: Writes, now: int)
    requires a < |s.acts| && s.acts[a].Claiming? && s.acts[a].stage == Looked && s.acts[a].job == job
    requires InTable(s.claims, job)
    ensures Do(Do(Do(s, Submit(a, chain)), Save(a, writes.first, now)), SaveFailure(a, writes.second, now)).claims ==
            Claimed(s.claims, job, chain, writes, now)
  {
    hide SaveSubmission, SaveFailedAttempt;
    var s1 := Do(s, Submit(a, chain));
    assert s1.claims == s.claims && s1.acts[a] == s.acts[a].(stage := Called(chain));
    var s2 := Do(s1, Save(a, writes.first, now));
    if chain.Paid? && writes.first {
      assert s2.acts[a] == Done;
    } else {
      assert s2.claims == s.claims && s2.acts[a] == s.acts[a].(stage := Failing);
    }
  }

  lemma UninterruptedVisit(s: System, row: Snapshot, env: Env, max: nat)
    ensures DoAll(s, StepsOf(OpVisit(row, env, max), |s.acts|)).claims == Apply(s.claims, OpVisit(row, env, max))
  {
    var a := |s.acts|;
    if row.status.Submitted? || PendingWinnings(env.read) == None || PendingWinnings(env.read) == Some(0) {
      assert [VisitAtOnce(row, env, max)][..0] == [];
      assert DoAll(s, [VisitAtOnce(row, env, max)]) == Do(s, VisitAtOnce(row, env, max));
    } else {
      DoFour(s, StartWorker(row, max), Submit(a, env.chain), Save(a, env.writes.first, 0),
             SaveFailure(a, env.writes.second, 0));
      hide DoAll;
      if row.id < |s.claims| && !OtherInFlight(s.claims, row.id) {
        ClaimingToTheEnd(Do(s, StartWorker(row, max)), a, WorkerJob(row, max), env.chain, env.writes, 0);
      }
    }
  }

  /** A whole operation is its steps, taken without interruption. */
  lemma UninterruptedIsTheOperation(s: System, op: Op)
    ensures DoAll(s, StepsOf(op, |s.acts|)).claims == Apply(s.claims, op)
  {
    match op
    case OpUser(wallet, chain, writes, now) => UninterruptedRequest(s, wallet, chain, writes, now);
    case OpQueue(wallet, settledAt, now) =>
      DoThree(s, StartQueue(wallet, settledAt), CheckConfirmed(|s.acts|), CreatePending(|s.acts|, true, now));
    case OpVisit(row, env, max) => UninterruptedVisit(s, row, env, max);
  }

  lemma {:induction false} DoAllAppend(s: System, first: seq<Step>, second: seq<Step>)
    ensures DoAll(s, first + second) == DoAll(DoAll(s, first), second)
    decreases |second|
  {
    hide Do;
    if second == [] {
      assert first + second == first;
    } else {
      var n := |second| - 1;
      assert (first + second)[..|first| + n] == first + second[..n];
      DoAllAppend(s, first, second[..n]);
    }
  }

  /** So every run of whole operations is one of the runs of steps. */
  lemma {:induction false} SequentialRunsAreRuns(ops: seq<Op>) returns (steps: seq<Step>)
    ensures RunSteps(steps).claims == Run(ops)
  {
    steps := [];
    if ops != [] {
      var first := SequentialRunsAreRuns(ops[..|ops| - 1]);
      var s, op := RunSteps(first), ops[|ops| - 1];
      UninterruptedIsTheOperation(s, op);
      DoAllAppend(System([], []), first, StepsOf(op, |s.acts|));
      steps := first + StepsOf(op, |s.acts|);
    }
  }

  // ---------------------------------------------------------------------------
  // A run
  // ---------------------------------------------------------------------------

  /** A request and a sweep that both look before either writes leave the wallet two open claims. */
  lemma OverlapOpensTwoClaims(wallet: string) returns (steps: seq<Step>)
    ensures !OneOpen(RunSteps(steps).claims) && |RunSteps(steps).claims| == 2
  {
    var first := [StartUser(wallet), StartQueue(wallet, 0), CheckConfirmed(1)];
    var second := [Submit(0, Paid(1.0, None)), Save(0, true, 0), CreatePending(1, true, 0)];
    steps := first + second;
    DoAllAppend(System([], []), first, second);
    var s := BothLook(wallet);
    BothWrite(s, wallet);
    var claims := RunSteps(steps).claims;
    assert claims[0].wallet == claims[1].wallet && Open(claims[0].status) && Open(claims[1].status);
  }

  lemma BothLook(wallet: string) returns (s: System)
    ensures s == DoAll(System([], []), [StartUser(wallet), StartQueue(wallet, 0), CheckConfirmed(1)])
    ensures s == System([], [Claiming(UserJob(wallet, None), Looked, []), Queueing(wallet, 0, true, [])])
  {
    s := System([], []);
    DoThree(s, StartUser(wallet), StartQueue(wallet, 0), CheckConfirmed(1));
    hide DoAll;
    s := Do(s, StartUser(wallet));
    assert s.acts == [Claiming(UserJob(wallet, None), Looked, [])];
    s := Do(s, StartQueue(wallet, 0));
    assert s.acts == [Claiming(UserJob(wallet, None), Looked, []), Queueing(wallet, 0, false, [])];
    s := Do(s, CheckConfirmed(1));
  }

  lemma BothWrite(s: System, wallet: string)
    requires s == System([], [Claiming(UserJob(wallet, None), Looked, []), Queueing(wallet, 0, true, [])])
    ensures DoAll(s, [Submit(0, Paid(1.0, None)), Save(0, true, 0), CreatePending(1, true, 0)]).claims ==
            [Claim(wallet, Submitted, None, Some(1.0), 0, 0), Claim(wallet, Pending, None, None, 0, 0)]
  {
    DoThree(s, Submit(0, Paid(1.0, None)), Save(0, true, 0), CreatePending(1, true, 0));
    hide DoAll;
    var s1 := Do(s, Submit(0, Paid(1.0, None)));
    assert s1.acts == [Claiming(UserJob(wallet, None), Called(Paid(1.0, None)), []), Queueing(wallet, 0, true, [])];
    var s2 := Do(s1, Save(0, true, 0));
    assert s2.acts == [Done, Queueing(wallet, 0, true, [])];
  }
}
