/** What repeated sweeps of the prediction reconciler achieve, and what keeps them from it. */
module ReconciliationDrain {
  import opened Wrappers
  import opened PredictionLedger
  import opened Reconciliation

  /** In every sweep, faults included, each row that was checked is counted exactly once. */
  lemma {:induction false} EverySweepIsBalanced(
      db: Db, read: seq<Prediction>, ids: seq<nat>, verdict: nat -> Verdict, fault: nat -> Fault, maxAttempts: int,
      c: Counters, outcome: (Db, Counters))
    requires Remaining(db, read, ids, verdict, fault, maxAttempts, c, outcome) && Balanced(c)
    ensures Balanced(outcome.1) && outcome.1.checked == c.checked + |ids|
    decreases |ids|
  {
    if ids != [] {
      assert ids[0..] == ids;
      RemainingStep(db, read, ids, 0, verdict, fault, maxAttempts, c, outcome);
      var p := ids[0];
      var (db', c') := Visit(db, p, read[p], verdict(p), fault(p), maxAttempts, c);
      EverySweepIsBalanced(db', read, ids[1..], verdict, fault, maxAttempts, c', outcome);
    }
  }

  /**
   The `confirmed` counter overstates: a SUBMITTED row that landed is counted as
   confirmed although nothing about it changes.
   */
  lemma SubmittedRowIsCountedButNotConfirmed(db: Db, p: nat, maxAttempts: int, c: Counters)
    requires WellFormed(db) && p < |db.preds| && db.preds[p].status.Submitted?
    ensures Visit(db, p, db.preds[p], Landed, NoFault, maxAttempts, c) ==
            (db, c.(checked := c.checked + 1, confirmed := c.confirmed + 1))
  {
  }

  // ---------------------------------------------------------------------------
  // Rows that no sweep can move
  // ---------------------------------------------------------------------------

  /**
   An open row that every sweep leaves open: it is SUBMITTED, which the confirming
   write does not accept, and the chain says it landed; or it was already refunded
   and then marked SUBMITTED again, and the chain denies it.
   */
  predicate Stuck(row: Prediction, v: Verdict) {
    Open(row) &&
    ((row.status.Submitted? && v.Landed?) ||
     (row.compensated && (if HasHash(row) then v.Refused? else !v.Landed?)))
  }

  /** Sweeps a row still needs, at most. */
  function Work(row: Prediction, maxAttempts: int): nat {
    if !Open(row) then 0
    else if row.attempts >= maxAttempts then 1
    else maxAttempts - row.attempts + 1
  }

  /** Where a row that is not stuck ends up. */
  function FinalStatus(row: Prediction, v: Verdict): ChainStatus {
    if v.Landed? then Confirmed
    else if HasHash(row) && v.Unknown? then NeedsManualReview
    else Failed
  }

  /** What a sweep never changes about a row that stays open. */
  predicate SameCase(before: Prediction, after: Prediction) {
    && after.txHash == before.txHash
    && after.status == before.status
    && after.compensated == before.compensated
  }

  /** One faultless visit to the current row. */
  lemma VisitRow(db: Db, p: nat, v: Verdict, maxAttempts: int)
    requires WellFormed(db) && OnChain(db, p) && Open(db.preds[p])
    ensures var row := db.preds[p];
            var db' := Perform(db, p, Decide(row, v, maxAttempts));
            && |db'.preds| == |db.preds|
            && var row' := db'.preds[p];
               && row'.createdAt == row.createdAt
               && (Open(row') ==> SameCase(row, row'))
               && (Stuck(row, v) ==> Open(row') && Work(row', maxAttempts) <= Work(row, maxAttempts))
               && (!Stuck(row, v) ==> Work(row', maxAttempts) < Work(row, maxAttempts))
               && (!Stuck(row, v) && !Open(row') ==> row'.status == FinalStatus(row, v))
  {
    assert RowWellFormed(db.users, db.rounds, db.preds[p]);
    var row := db.preds[p];
    match Decide(row, v, maxAttempts)
    case Confirm(_) =>
    case Refund =>
    case Review =>
    case Wait =>
  }

  const NoFaults: nat -> Fault := (p: nat) => NoFault

  /** What a faultless sweep over `ids` does to one row, `read` being the rows as queried. */
  lemma {:induction false} SweepRow(
      db: Db, read: seq<Prediction>, ids: seq<nat>, verdict: nat -> Verdict, maxAttempts: int, c: Counters, k: nat)
    requires WellFormed(db) && Sweepable(db, ids) && |read| == |db.preds| && k < |db.preds|
    requires forall j :: 0 <= j < |ids| ==> read[ids[j]] == db.preds[ids[j]]
    ensures var row' := SweepRows(db, read, ids, verdict, NoFaults, maxAttempts, c).0.preds[k];
            row' == if k in ids then Perform(db, k, Decide(db.preds[k], verdict(k), maxAttempts)).preds[k] else db.preds[k]
    decreases |ids|
  {
    if ids != [] {
      var p := ids[0];
      PerformKeepsWellFormed(db, p, Decide(read[p], verdict(p), maxAttempts));
      VisitKeepsSweepable(db, p, read[p], verdict(p), NoFault, maxAttempts, c, ids[1..]);
      var (db', c') := Visit(db, p, read[p], verdict(p), NoFault, maxAttempts, c);
      SweepRow(db', read, ids[1..], verdict, maxAttempts, c', k);
      if k != p {
        PerformOnOtherRow(db, db', k, Decide(db.preds[k], verdict(k), maxAttempts));
      }
    }
  }

  /** What a write does to its own row depends on that row alone. */
  lemma PerformOnOtherRow(db: Db, db': Db, k: nat, a: Action)
    requires WellFormed(db) && WellFormed(db') && k < |db.preds| && |db'.preds| == |db.preds|
    requires db'.preds[k] == db.preds[k]
    ensures |Perform(db, k, a).preds| == |db.preds| == |Perform(db', k, a).preds|
    ensures Perform(db, k, a).preds[k] == Perform(db', k, a).preds[k]
  {
  }

  /** The sweep's configuration, its age limit turned into a cutoff time. */
  datatype Config = Config(cutoff: int, batch: nat, maxAttempts: int)

  /** One sweep without faults. */
  function Sweep1(db: Db, cfg: Config, verdict: nat -> Verdict): (r: Db)
    requires WellFormed(db)
    ensures WellFormed(r) && |r.preds| == |db.preds|
  {
    Sweep(db, cfg.cutoff, cfg.batch, cfg.maxAttempts, verdict, NoFaults).0
  }

  function Selected(db: Db, cfg: Config): seq<nat> {
    SelectFrom(db.preds, 0, cfg.cutoff, cfg.batch)
  }

  lemma Sweep1Row(db: Db, cfg: Config, verdict: nat -> Verdict, k: nat)
    requires WellFormed(db) && k < |db.preds|
    ensures var row' := Sweep1(db, cfg, verdict).preds[k];
            && (k !in Selected(db, cfg) ==> row' == db.preds[k])
            && row'.createdAt == db.preds[k].createdAt
            && (Open(row') ==> SameCase(db.preds[k], row'))
            && Work(row', cfg.maxAttempts) <= Work(db.preds[k], cfg.maxAttempts)
            && (Stuck(db.preds[k], verdict(k)) ==> Open(row'))
            && (k in Selected(db, cfg) && !Stuck(db.preds[k], verdict(k)) ==>
                  Work(row', cfg.maxAttempts) < Work(db.preds[k], cfg.maxAttempts))
            && (Open(db.preds[k]) && !Open(row') ==> row'.status == FinalStatus(db.preds[k], verdict(k)))
            && (!Open(db.preds[k]) ==> row' == db.preds[k])
  {
    var ids := Selected(db, cfg);
    OpenRowsAreOnChain(db, cfg.cutoff, cfg.batch);
    SweepRow(db, db.preds, ids, verdict, cfg.maxAttempts, Zero, k);
    if k in ids {
      VisitRow(db, k, verdict(k), cfg.maxAttempts);
    }
  }

  // ---------------------------------------------------------------------------
  // Repeated sweeps
  // ---------------------------------------------------------------------------

  /** What the chain answers about each row, sweep by sweep: an answer may change from one to the next. */
  type Answers = nat -> nat -> Verdict

  function Sweeps(db: Db, n: nat, cfg: Config, answers: Answers): (r: Db)
    requires WellFormed(db)
    ensures WellFormed(r) && |r.preds| == |db.preds|
    decreases n
  {
    if n == 0 then db else Sweep1(Sweeps(db, n - 1, cfg, answers), cfg, answers(n - 1))
  }

  function RowAfter(db: Db, n: nat, cfg: Config, answers: Answers, k: nat): Prediction
    requires WellFormed(db) && k < |db.preds|
  {
    Sweeps(db, n, cfg, answers).preds[k]
  }

  /** The sweep numbered `i` closes the row. */
  predicate ClosedBy(db: Db, i: nat, cfg: Config, answers: Answers, k: nat)
    requires WellFormed(db) && k < |db.preds|
  {
    Open(RowAfter(db, i, cfg, answers, k)) && !Open(RowAfter(db, i + 1, cfg, answers, k))
  }

  /** Where a row is after some sweeps: open in the same case, or closed by the answer of the sweep that closed it. */
  ghost predicate Fate(db: Db, n: nat, cfg: Config, answers: Answers, k: nat)
    requires WellFormed(db) && k < |db.preds|
  {
    var before, after := db.preds[k], RowAfter(db, n, cfg, answers, k);
    && after.createdAt == before.createdAt
    && (!Open(before) ==> after == before)
    && (Open(after) ==> Open(before) && SameCase(before, after))
    && (Open(before) && !Open(after) ==>
          exists i: nat :: i < n && ClosedBy(db, i, cfg, answers, k)
                           && after.status == FinalStatus(before, answers(i)(k)))
  }

  lemma {:induction false} EveryRowHasItsFate(db: Db, n: nat, cfg: Config, answers: Answers, k: nat)
    requires WellFormed(db) && k < |db.preds|
    ensures Fate(db, n, cfg, answers, k)
    decreases n
  {
    hide Sweep1, Selected, Work;
    if n > 0 {
      EveryRowHasItsFate(db, n - 1, cfg, answers, k);
      Sweep1Row(Sweeps(db, n - 1, cfg, answers), cfg, answers(n - 1), k);
      if Open(RowAfter(db, n - 1, cfg, answers, k)) && !Open(RowAfter(db, n, cfg, answers, k)) {
        assert ClosedBy(db, n - 1, cfg, answers, k);
      }
    }
  }

  /** While a row is open, being stuck depends on what it was at the start. */
  lemma StuckFromTheStart(db: Db, n: nat, cfg: Config, answers: Answers, k: nat, v: Verdict)
    requires WellFormed(db) && k < |db.preds|
    ensures Stuck(RowAfter(db, n, cfg, answers, k), v) ==> Stuck(db.preds[k], v)
    ensures Open(RowAfter(db, n, cfg, answers, k)) && Stuck(db.preds[k], v) ==> Stuck(RowAfter(db, n, cfg, answers, k), v)
  {
    EveryRowHasItsFate(db, n, cfg, answers, k);
  }

  // ---------------------------------------------------------------------------
  // The work that is left
  // ---------------------------------------------------------------------------

  function TotalWork(preds: seq<Prediction>, maxAttempts: int): nat {
    if preds == [] then 0
    else TotalWork(preds[..|preds| - 1], maxAttempts) + Work(preds[|preds| - 1], maxAttempts)
  }

  lemma {:induction false} TotalWorkMonotone(a: seq<Prediction>, b: seq<Prediction>, maxAttempts: int)
    requires |a| == |b|
    requires forall k :: 0 <= k < |a| ==> Work(b[k], maxAttempts) <= Work(a[k], maxAttempts)
    ensures TotalWork(b, maxAttempts) <= TotalWork(a, maxAttempts)
    ensures (exists k :: 0 <= k < |a| && Work(b[k], maxAttempts) < Work(a[k], maxAttempts)) ==>
              TotalWork(b, maxAttempts) < TotalWork(a, maxAttempts)
  {
    if a != [] {
      var n := |a| - 1;
      TotalWorkMonotone(a[..n], b[..n], maxAttempts);
      if k :| 0 <= k < |a| && Work(b[k], maxAttempts) < Work(a[k], maxAttempts) && k < n {
        assert Work(b[..n][k], maxAttempts) < Work(a[..n][k], maxAttempts);
      }
    }
  }

  predicate NoOpenRow(db: Db) {
    forall k :: 0 <= k < |db.preds| ==> !Open(db.preds[k])
  }

  /** Every open row is old enough for the sweep to look at it. */
  predicate AllAged(db: Db, cutoff: int) {
    forall k :: 0 <= k < |db.preds| && Open(db.preds[k]) ==> db.preds[k].createdAt < cutoff
  }

  predicate NoStuckRow(db: Db, verdict: nat -> Verdict) {
    forall k :: 0 <= k < |db.preds| ==> !Stuck(db.preds[k], verdict(k))
  }

  /** The sweep selects a row that its answers can move. */
  predicate Moves(db: Db, cfg: Config, verdict: nat -> Verdict) {
    exists k :: 0 <= k < |db.preds| && k in Selected(db, cfg) && !Stuck(db.preds[k], verdict(k))
  }

  lemma {:induction false} WorkMeansOpenRow(preds: seq<Prediction>, maxAttempts: int)
    ensures TotalWork(preds, maxAttempts) == 0 <==> forall k :: 0 <= k < |preds| ==> !Open(preds[k])
  {
    if preds != [] {
      var n := |preds| - 1;
      WorkMeansOpenRow(preds[..n], maxAttempts);
      assert preds == preds[..n] + [preds[n]];
    }
  }

  /** No sweep adds work, and every sweep that moves a row leaves strictly less. */
  lemma SweepMakesProgress(db: Db, cfg: Config, verdict: nat -> Verdict)
    requires WellFormed(db)
    ensures var work, work1 := TotalWork(db.preds, cfg.maxAttempts),
                               TotalWork(Sweep1(db, cfg, verdict).preds, cfg.maxAttempts);
            work1 <= work && (Moves(db, cfg, verdict) ==> work1 < work)
  {
    var db' := Sweep1(db, cfg, verdict);
    forall k | 0 <= k < |db.preds| ensures Work(db'.preds[k], cfg.maxAttempts) <= Work(db.preds[k], cfg.maxAttempts) {
      Sweep1Row(db, cfg, verdict, k);
    }
    if Moves(db, cfg, verdict) {
      var p :| 0 <= p < |db.preds| && p in Selected(db, cfg) && !Stuck(db.preds[p], verdict(p));
      Sweep1Row(db, cfg, verdict, p);
    }
    TotalWorkMonotone(db.preds, db'.preds, cfg.maxAttempts);
  }

  function WorkAfter(db: Db, n: nat, cfg: Config, answers: Answers): nat
    requires WellFormed(db)
  {
    TotalWork(Sweeps(db, n, cfg, answers).preds, cfg.maxAttempts)
  }

  lemma WorkStep(db: Db, i: nat, cfg: Config, answers: Answers)
    requires WellFormed(db)
    ensures WorkAfter(db, i + 1, cfg, answers) <= WorkAfter(db, i, cfg, answers)
    ensures Moves(Sweeps(db, i, cfg, answers), cfg, answers(i)) ==>
              WorkAfter(db, i + 1, cfg, answers) < WorkAfter(db, i, cfg, answers)
  {
    hide Sweep1, Moves, TotalWork;
    SweepMakesProgress(Sweeps(db, i, cfg, answers), cfg, answers(i));
  }

  lemma {:induction false} WorkNeverGrows(db: Db, i: nat, j: nat, cfg: Config, answers: Answers)
    requires WellFormed(db) && i <= j
    ensures WorkAfter(db, j, cfg, answers) <= WorkAfter(db, i, cfg, answers)
    decreases j - i
  {
    hide Sweeps, WorkAfter;
    if i < j {
      WorkNeverGrows(db, i, j - 1, cfg, answers);
      WorkStep(db, j - 1, cfg, answers);
    }
  }

  lemma DoneIsNoWork(db: Db, n: nat, cfg: Config, answers: Answers)
    requires WellFormed(db)
    ensures WorkAfter(db, n, cfg, answers) == 0 <==> NoOpenRow(Sweeps(db, n, cfg, answers))
  {
    WorkMeansOpenRow(Sweeps(db, n, cfg, answers).preds, cfg.maxAttempts);
  }

  // ---------------------------------------------------------------------------
  // Draining
  // ---------------------------------------------------------------------------

  ghost predicate Drains(db: Db, cfg: Config, answers: Answers)
    requires WellFormed(db)
  {
    exists n: nat :: NoOpenRow(Sweeps(db, n, cfg, answers))
  }

  /** As long as a row is open, that sweep or a later one moves a row. */
  ghost predicate KeepsMoving(db: Db, cfg: Config, answers: Answers)
    requires WellFormed(db)
  {
    forall i: nat :: NoOpenRow(Sweeps(db, i, cfg, answers)) || MovesFrom(db, i, cfg, answers)
  }

  ghost predicate MovesFrom(db: Db, i: nat, cfg: Config, answers: Answers)
    requires WellFormed(db)
  {
    exists j: nat :: i <= j && Moves(Sweeps(db, j, cfg, answers), cfg, answers(j))
  }

  lemma MovingEnds(db: Db, i: nat, cfg: Config, answers: Answers) returns (n: nat)
    requires WellFormed(db) && KeepsMoving(db, cfg, answers)
    ensures NoOpenRow(Sweeps(db, n, cfg, answers))
    decreases WorkAfter(db, i, cfg, answers)
  {
    hide Sweeps, NoOpenRow, Moves, WorkAfter;
    if NoOpenRow(Sweeps(db, i, cfg, answers)) {
      n := i;
    } else {
      assert MovesFrom(db, i, cfg, answers);
      var j: nat :| i <= j && Moves(Sweeps(db, j, cfg, answers), cfg, answers(j));
      WorkNeverGrows(db, i, j, cfg, answers);
      WorkStep(db, j, cfg, answers);
      n := MovingEnds(db, j + 1, cfg, answers);
    }
  }

  /** An open row that is closed later is closed by one of the sweeps in between. */
  lemma {:induction false} ClosingSweep(db: Db, i: nat, n: nat, cfg: Config, answers: Answers, k: nat) returns (j: nat)
    requires WellFormed(db) && k < |db.preds| && i <= n
    requires Open(RowAfter(db, i, cfg, answers, k)) && !Open(RowAfter(db, n, cfg, answers, k))
    ensures i <= j < n && ClosedBy(db, j, cfg, answers, k)
    decreases n - i
  {
    hide Sweep1, Selected, Work;
    if Open(RowAfter(db, i + 1, cfg, answers, k)) {
      j := ClosingSweep(db, i + 1, n, cfg, answers, k);
    } else {
      j := i;
    }
  }

  lemma ClosingMoves(db: Db, j: nat, cfg: Config, answers: Answers, k: nat)
    requires WellFormed(db) && k < |db.preds| && ClosedBy(db, j, cfg, answers, k)
    ensures !Stuck(RowAfter(db, j, cfg, answers, k), answers(j)(k)) && k in Selected(Sweeps(db, j, cfg, answers), cfg)
    ensures Moves(Sweeps(db, j, cfg, answers), cfg, answers(j))
  {
    Sweep1Row(Sweeps(db, j, cfg, answers), cfg, answers(j), k);
  }

  lemma ClosedStays(db: Db, i: nat, n: nat, cfg: Config, answers: Answers, k: nat)
    requires WellFormed(db) && k < |db.preds| && i <= n && !Open(RowAfter(db, i, cfg, answers, k))
    ensures RowAfter(db, n, cfg, answers, k) == RowAfter(db, i, cfg, answers, k)
    decreases n - i
  {
    hide Sweep1, Open;
    if i < n {
      ClosedStays(db, i, n - 1, cfg, answers, k);
      Sweep1Row(Sweeps(db, n - 1, cfg, answers), cfg, answers(n - 1), k);
    }
  }

  /** The row's status right after the sweep that closes it. */
  lemma ClosingStatus(db: Db, i: nat, cfg: Config, answers: Answers, k: nat)
    requires WellFormed(db) && k < |db.preds| && Open(db.preds[k]) && ClosedBy(db, i, cfg, answers, k)
    ensures RowAfter(db, i + 1, cfg, answers, k).status == FinalStatus(db.preds[k], answers(i)(k))
    ensures answers(i)(k).Landed? ==> db.preds[k].status.Pending?
  {
    hide Sweep1, Sweeps;
    EveryRowHasItsFate(db, i, cfg, answers, k);
    ClosingMoves(db, i, cfg, answers, k);
    OneSweepCloses(db, i, cfg, answers, k);
  }

  lemma OneSweepCloses(db: Db, i: nat, cfg: Config, answers: Answers, k: nat)
    requires WellFormed(db) && k < |db.preds| && ClosedBy(db, i, cfg, answers, k)
    ensures RowAfter(db, i + 1, cfg, answers, k).status == FinalStatus(RowAfter(db, i, cfg, answers, k), answers(i)(k))
  {
    hide Sweep1, FinalStatus, Stuck;
    Sweep1Row(Sweeps(db, i, cfg, answers), cfg, answers(i), k);
  }

  /**
   An open row is CONFIRMED after any number of sweeps, under any answers, if and only
   if it was PENDING and the sweep that closed it was answered that it landed.
   */
  lemma ConfirmedIff(db: Db, n: nat, cfg: Config, answers: Answers, k: nat)
    requires WellFormed(db) && k < |db.preds| && Open(db.preds[k])
    ensures RowAfter(db, n, cfg, answers, k).status.Confirmed? <==>
              && db.preds[k].status.Pending?
              && exists i: nat :: i < n && ClosedBy(db, i, cfg, answers, k) && answers(i)(k).Landed?
  {
    hide Sweeps, ClosedBy, FinalStatus;
    EveryRowHasItsFate(db, n, cfg, answers, k);
    if RowAfter(db, n, cfg, answers, k).status.Confirmed? {
      var i: nat :| i < n && ClosedBy(db, i, cfg, answers, k)
                    && RowAfter(db, n, cfg, answers, k).status == FinalStatus(db.preds[k], answers(i)(k));
      ConfirmedMeansLanded(db.preds[k], answers(i)(k));
      ClosingStatus(db, i, cfg, answers, k);
    }
    if i: nat :| i < n && ClosedBy(db, i, cfg, answers, k) && answers(i)(k).Landed? {
      ClosingStatus(db, i, cfg, answers, k);
      ConfirmedMeansLanded(db.preds[k], answers(i)(k));
      ClosedIsClosed(db, i, cfg, answers, k);
      ClosedStays(db, i + 1, n, cfg, answers, k);
    }
  }

  lemma ConfirmedMeansLanded(row: Prediction, v: Verdict)
    ensures FinalStatus(row, v).Confirmed? <==> v.Landed?
  {
  }

  lemma ClosedIsClosed(db: Db, i: nat, cfg: Config, answers: Answers, k: nat)
    requires WellFormed(db) && k < |db.preds| && ClosedBy(db, i, cfg, answers, k)
    ensures !Open(RowAfter(db, i + 1, cfg, answers, k))
  {
  }

  /** So a SUBMITTED row is never confirmed, however many sweeps are told that it landed. */
  lemma SubmittedIsNeverConfirmed(db: Db, n: nat, cfg: Config, answers: Answers, k: nat)
    requires WellFormed(db) && k < |db.preds| && db.preds[k].status.Submitted?
    ensures !RowAfter(db, n, cfg, answers, k).status.Confirmed?
  {
    hide RowAfter, ClosedBy;
    ConfirmedIff(db, n, cfg, answers, k);
  }

  lemma DoneStaysDone(db: Db, n: nat, i: nat, cfg: Config, answers: Answers)
    requires WellFormed(db) && n <= i && NoOpenRow(Sweeps(db, n, cfg, answers))
    ensures NoOpenRow(Sweeps(db, i, cfg, answers))
  {
    WorkNeverGrows(db, n, i, cfg, answers);
    DoneIsNoWork(db, n, cfg, answers);
    DoneIsNoWork(db, i, cfg, answers);
  }

  lemma SomeRowIsOpen(db: Db) returns (k: nat)
    requires !NoOpenRow(db)
    ensures k < |db.preds| && Open(db.preds[k])
  {
    k :| 0 <= k < |db.preds| && Open(db.preds[k]);
  }

  lemma DrainedMoves(db: Db, i: nat, n: nat, cfg: Config, answers: Answers)
    requires WellFormed(db) && NoOpenRow(Sweeps(db, n, cfg, answers)) && !NoOpenRow(Sweeps(db, i, cfg, answers))
    ensures MovesFrom(db, i, cfg, answers)
  {
    hide Sweeps, Moves, ClosedBy;
    if n <= i { DoneStaysDone(db, n, i, cfg, answers); }
    var k := SomeRowIsOpen(Sweeps(db, i, cfg, answers));
    var j := ClosingSweep(db, i, n, cfg, answers, k);
    ClosingMoves(db, j, cfg, answers, k);
  }

  /**
   Whatever the chain answers from sweep to sweep, repeated sweeps drain the table
   if and only if, as long as a row is open, some later sweep selects a row that is
   not stuck under that sweep's own answers.
   */
  lemma DrainsIffKeepsMoving(db: Db, cfg: Config, answers: Answers)
    requires WellFormed(db)
    ensures Drains(db, cfg, answers) <==> KeepsMoving(db, cfg, answers)
  {
    hide Sweeps, NoOpenRow, Moves, MovesFrom;
    if KeepsMoving(db, cfg, answers) {
      var n := MovingEnds(db, 0, cfg, answers);
    }
    if n: nat :| NoOpenRow(Sweeps(db, n, cfg, answers)) {
      forall i: nat ensures NoOpenRow(Sweeps(db, i, cfg, answers)) || MovesFrom(db, i, cfg, answers) {
        if !NoOpenRow(Sweeps(db, i, cfg, answers)) {
          DrainedMoves(db, i, n, cfg, answers);
        }
      }
    }
  }

  /** With room for one row, the query returns a row as soon as there is one. */
  lemma {:induction false} SelectFindsOne(preds: seq<Prediction>, i: nat, cutoff: int, room: nat, k: nat)
    requires i <= k < |preds| && room > 0 && Stranded(preds[k], cutoff)
    ensures SelectFrom(preds, i, cutoff, room) != []
    decreases k - i
  {
    if !Stranded(preds[i], cutoff) {
      SelectFindsOne(preds, i + 1, cutoff, room, k);
    }
  }

  /** A sweep over a table with no stuck row moves one, if any is open. */
  lemma UnstuckMoves(db: Db, cfg: Config, verdict: nat -> Verdict)
    requires cfg.batch > 0 && AllAged(db, cfg.cutoff) && NoStuckRow(db, verdict) && !NoOpenRow(db)
    ensures Moves(db, cfg, verdict)
  {
    var k :| 0 <= k < |db.preds| && Open(db.preds[k]);
    SelectFindsOne(db.preds, 0, cfg.cutoff, cfg.batch, k);
    var p := Selected(db, cfg)[0];
    assert p in Selected(db, cfg) && !Stuck(db.preds[p], verdict(p));
  }

  /** Age and freedom from sticking carry over from the start. */
  lemma StillUnstuck(db: Db, n: nat, cfg: Config, answers: Answers)
    requires WellFormed(db) && AllAged(db, cfg.cutoff) && NoStuckRow(db, answers(n))
    ensures AllAged(Sweeps(db, n, cfg, answers), cfg.cutoff)
    ensures NoStuckRow(Sweeps(db, n, cfg, answers), answers(n))
  {
    var now := Sweeps(db, n, cfg, answers);
    forall k | 0 <= k < |now.preds|
      ensures !Stuck(now.preds[k], answers(n)(k)) && (Open(now.preds[k]) ==> now.preds[k].createdAt < cfg.cutoff)
    {
      StuckFromTheStart(db, n, cfg, answers, k, answers(n)(k));
      EveryRowHasItsFate(db, n, cfg, answers, k);
    }
  }

  lemma UnstuckStep(db: Db, n: nat, cfg: Config, answers: Answers)
    requires WellFormed(db) && cfg.batch > 0 && AllAged(db, cfg.cutoff) && NoStuckRow(db, answers(n))
    ensures WorkAfter(db, n, cfg, answers) == 0 || WorkAfter(db, n + 1, cfg, answers) < WorkAfter(db, n, cfg, answers)
  {
    hide Sweeps, AllAged, NoStuckRow, NoOpenRow, Moves, WorkAfter;
    StillUnstuck(db, n, cfg, answers);
    DoneIsNoWork(db, n, cfg, answers);
    if !NoOpenRow(Sweeps(db, n, cfg, answers)) {
      UnstuckMoves(Sweeps(db, n, cfg, answers), cfg, answers(n));
      WorkStep(db, n, cfg, answers);
    }
  }

  lemma {:induction false} WorkRunsOut(db: Db, n: nat, cfg: Config, answers: Answers)
    requires WellFormed(db) && cfg.batch > 0 && AllAged(db, cfg.cutoff)
    requires forall i: nat :: i < n ==> NoStuckRow(db, answers(i))
    ensures var left := WorkAfter(db, n, cfg, answers);
            left == 0 || left + n <= TotalWork(db.preds, cfg.maxAttempts)
    decreases n
  {
    hide AllAged, NoStuckRow, TotalWork, Sweep1;
    if n > 0 {
      WorkRunsOut(db, n - 1, cfg, answers);
      UnstuckStep(db, n - 1, cfg, answers);
      WorkStep(db, n - 1, cfg, answers);
    }
  }

  /**
   If no row is stuck under the answers of any of the sweeps, as many sweeps as
   there is work left close every row, each as CONFIRMED, FAILED or
   NEEDS_MANUAL_REVIEW by the answer of the sweep that closed it.
   */
  lemma SweepsDrain(db: Db, n: nat, cfg: Config, answers: Answers)
    requires WellFormed(db) && cfg.batch > 0 && AllAged(db, cfg.cutoff)
    requires forall i: nat :: i < n ==> NoStuckRow(db, answers(i))
    requires n >= TotalWork(db.preds, cfg.maxAttempts)
    ensures NoOpenRow(Sweeps(db, n, cfg, answers))
    ensures forall k :: 0 <= k < |db.preds| ==> Fate(db, n, cfg, answers, k)
  {
    WorkRunsOut(db, n, cfg, answers);
    DoneIsNoWork(db, n, cfg, answers);
    forall k | 0 <= k < |db.preds| ensures Fate(db, n, cfg, answers, k) {
      EveryRowHasItsFate(db, n, cfg, answers, k);
    }
  }

  // ---------------------------------------------------------------------------
  // Room for every row, and answers that never change
  // ---------------------------------------------------------------------------

  lemma {:induction false} SelectFindsAll(preds: seq<Prediction>, i: nat, cutoff: int, room: nat, k: nat)
    requires i <= k < |preds| && room >= |preds| - i && Stranded(preds[k], cutoff)
    ensures k in SelectFrom(preds, i, cutoff, room)
    decreases k - i
  {
    if i < k {
      SelectFindsAll(preds, i + 1, cutoff, if Stranded(preds[i], cutoff) then room - 1 else room, k);
    }
  }

  /** The row is not stuck under the answers of that sweep or of a later one. */
  ghost predicate ComesUnstuck(row: Prediction, i: nat, answers: Answers, k: nat) {
    exists j: nat :: i <= j && !Stuck(row, answers(j)(k))
  }

  /**
   When the batch has room for every row, the table drains if and only if no row is
   left open with answers that keep it stuck from then on. Sticking is judged by the
   row as it was at the start.
   */
  lemma DrainsIffRowsComeUnstuck(db: Db, cfg: Config, answers: Answers)
    requires WellFormed(db) && cfg.batch >= |db.preds| && AllAged(db, cfg.cutoff)
    ensures Drains(db, cfg, answers) <==>
              forall i: nat, k: nat :: k < |db.preds| && Open(RowAfter(db, i, cfg, answers, k)) ==>
                ComesUnstuck(db.preds[k], i, answers, k)
  {
    hide Sweeps, NoOpenRow, Moves, MovesFrom, ComesUnstuck, Drains, KeepsMoving;
    DrainsIffKeepsMoving(db, cfg, answers);
    if Drains(db, cfg, answers) {
      forall i: nat, k: nat | k < |db.preds| && Open(RowAfter(db, i, cfg, answers, k))
        ensures ComesUnstuck(db.preds[k], i, answers, k)
      {
        DrainedComesUnstuck(db, i, cfg, answers, k);
      }
    }
    if forall i: nat, k: nat :: k < |db.preds| && Open(RowAfter(db, i, cfg, answers, k)) ==>
         ComesUnstuck(db.preds[k], i, answers, k)
    {
      UnstuckKeepsMoving(db, cfg, answers);
    }
  }

  lemma DrainedComesUnstuck(db: Db, i: nat, cfg: Config, answers: Answers, k: nat)
    requires WellFormed(db) && k < |db.preds| && Drains(db, cfg, answers)
    requires Open(RowAfter(db, i, cfg, answers, k))
    ensures ComesUnstuck(db.preds[k], i, answers, k)
  {
    var n: nat :| NoOpenRow(Sweeps(db, n, cfg, answers));
    if n <= i { DoneStaysDone(db, n, i, cfg, answers); }
    var j := ClosingSweep(db, i, n, cfg, answers, k);
    ClosingMoves(db, j, cfg, answers, k);
    StuckFromTheStart(db, j, cfg, answers, k, answers(j)(k));
  }

  lemma UnstuckRowMoves(db: Db, i: nat, cfg: Config, answers: Answers, k: nat)
    requires WellFormed(db) && cfg.batch >= |db.preds| && AllAged(db, cfg.cutoff)
    requires k < |db.preds| && Open(RowAfter(db, i, cfg, answers, k)) && ComesUnstuck(db.preds[k], i, answers, k)
    ensures MovesFrom(db, i, cfg, answers)
  {
    var j: nat :| i <= j && !Stuck(db.preds[k], answers(j)(k));
    if Open(RowAfter(db, j, cfg, answers, k)) {
      StuckFromTheStart(db, j, cfg, answers, k, answers(j)(k));
      EveryRowHasItsFate(db, j, cfg, answers, k);
      SelectFindsAll(Sweeps(db, j, cfg, answers).preds, 0, cfg.cutoff, cfg.batch, k);
      assert Moves(Sweeps(db, j, cfg, answers), cfg, answers(j));
    } else {
      var c := ClosingSweep(db, i, j, cfg, answers, k);
      ClosingMoves(db, c, cfg, answers, k);
    }
  }

  lemma UnstuckKeepsMoving(db: Db, cfg: Config, answers: Answers)
    requires WellFormed(db) && cfg.batch >= |db.preds| && AllAged(db, cfg.cutoff)
    requires forall i: nat, k: nat :: k < |db.preds| && Open(RowAfter(db, i, cfg, answers, k)) ==>
               ComesUnstuck(db.preds[k], i, answers, k)
    ensures KeepsMoving(db, cfg, answers)
  {
    hide Sweeps, Moves, MovesFrom, ComesUnstuck;
    forall i: nat ensures NoOpenRow(Sweeps(db, i, cfg, answers)) || MovesFrom(db, i, cfg, answers) {
      if !NoOpenRow(Sweeps(db, i, cfg, answers)) {
        var k := SomeRowIsOpen(Sweeps(db, i, cfg, answers));
        assert Open(RowAfter(db, i, cfg, answers, k));
        UnstuckRowMoves(db, i, cfg, answers, k);
      }
    }
  }

  /** The same answers in every sweep. */
  function Always(verdict: nat -> Verdict): Answers {
    (i: nat) => verdict
  }

  lemma {:induction false} StuckForever(db: Db, n: nat, cfg: Config, verdict: nat -> Verdict, k: nat)
    requires WellFormed(db) && k < |db.preds| && Stuck(db.preds[k], verdict(k))
    ensures Stuck(RowAfter(db, n, cfg, Always(verdict), k), verdict(k))
    decreases n
  {
    if n > 0 {
      StuckForever(db, n - 1, cfg, verdict, k);
      Sweep1Row(Sweeps(db, n - 1, cfg, Always(verdict)), cfg, verdict, k);
    }
  }

  /** With answers that never change, and any batch, the table drains if and only if no row is stuck. */
  lemma DrainsIffNothingStuck(db: Db, cfg: Config, verdict: nat -> Verdict)
    requires WellFormed(db) && cfg.batch > 0 && AllAged(db, cfg.cutoff)
    ensures Drains(db, cfg, Always(verdict)) <==> NoStuckRow(db, verdict)
  {
    if NoStuckRow(db, verdict) {
      SweepsDrain(db, TotalWork(db.preds, cfg.maxAttempts), cfg, Always(verdict));
    } else {
      var k :| 0 <= k < |db.preds| && Stuck(db.preds[k], verdict(k));
      forall n: nat ensures !NoOpenRow(Sweeps(db, n, cfg, Always(verdict))) {
        StuckForever(db, n, cfg, verdict, k);
      }
    }
  }

  // ---------------------------------------------------------------------------
  // Starvation
  // ---------------------------------------------------------------------------

  /** A stuck row that a visit leaves exactly as it is. */
  predicate StuckFast(row: Prediction, v: Verdict, maxAttempts: int) {
    Stuck(row, v) && (v.Landed? || HasHash(row) || row.attempts >= maxAttempts)
  }

  predicate StuckBatch(db: Db, cfg: Config, verdict: nat -> Verdict) {
    forall p :: p in Selected(db, cfg) ==> StuckFast(db.preds[p], verdict(p), cfg.maxAttempts)
  }

  lemma StuckBatchSweepsNothing(db: Db, cfg: Config, verdict: nat -> Verdict)
    requires WellFormed(db) && StuckBatch(db, cfg, verdict)
    ensures Sweep1(db, cfg, verdict).preds == db.preds
  {
    var ids := Selected(db, cfg);
    OpenRowsAreOnChain(db, cfg.cutoff, cfg.batch);
    forall k | 0 <= k < |db.preds| ensures Sweep1(db, cfg, verdict).preds[k] == db.preds[k] {
      SweepRow(db, db.preds, ids, verdict, cfg.maxAttempts, Zero, k);
    }
  }

  /**
   Stuck rows are the oldest and come first in every query. As long as they fill
   the batch under the answers of each sweep, having used up their attempts, no row
   changes at all, and the younger rows behind them are never looked at.
   */
  lemma {:induction false} StuckBatchStarvesTheRest(db: Db, cfg: Config, answers: Answers, n: nat)
    requires WellFormed(db) && forall i: nat :: i < n ==> StuckBatch(db, cfg, answers(i))
    ensures Sweeps(db, n, cfg, answers).preds == db.preds
    decreases n
  {
    hide Sweep1;
    if n > 0 {
      StuckBatchStarvesTheRest(db, cfg, answers, n - 1);
      StuckBatchSweepsNothing(Sweeps(db, n - 1, cfg, answers), cfg, answers(n - 1));
    }
  }

  // ---------------------------------------------------------------------------
  // The lookup of rows without a hash
  // ---------------------------------------------------------------------------

  datatype TxStatus = TxStatus(confirmed: bool, successful: bool)

  /** `position` takes a user's address and a round id, in that order. */
  datatype Chain = Chain(status: string -> TxStatus, position: (string, string) -> Option<real>)

  /** The chain answer for a row, with the arguments in the order in which the sweep passes them. */
  function Ask(chain: Chain, db: Db, row: Prediction): Verdict
    requires row.user < |db.users| && row.round < |db.rounds|
  {
    if HasHash(row) then
      var s := chain.status(row.txHash.value);
      if s.confirmed && s.successful then Landed else if s.confirmed then Refused else Unknown
    else
      var round, wallet := db.rounds[row.round].sorobanId, db.users[row.user].wallet;
      if round.Some? && wallet.Some? then
        var found := chain.position(round.value, wallet.value);
        if found.Some? && found.value > 0.0 then Landed else Unknown
      else Unknown
  }

  /** The chain has positions only for addresses, and no round id is an address. */
  ghost predicate KnowsOnlyWallets(chain: Chain, rounds: seq<Round>) {
    forall k :: 0 <= k < |rounds| && rounds[k].sorobanId.Some? ==>
      forall any: string :: chain.position(rounds[k].sorobanId.value, any).None?
  }

  /** Each sweep's answers are what its chain says about the rows as they then are. */
  ghost predicate Asked(db: Db, cfg: Config, chains: nat -> Chain, answers: Answers)
    requires WellFormed(db)
  {
    forall i: nat, k: nat :: k < |db.preds| ==>
      var now := Sweeps(db, i, cfg, answers);
      var row := now.preds[k];
      && row.user < |now.users| && row.round < |now.rounds|
      && answers(i)(k) == Ask(chains(i), now, row)
  }

  predicate SameRoundIds(before: seq<Round>, after: seq<Round>) {
    |after| == |before| && forall k :: 0 <= k < |before| ==> after[k].sorobanId == before[k].sorobanId
  }

  lemma {:induction false} SweepRowsKeepRoundIds(
      db: Db, read: seq<Prediction>, ids: seq<nat>, verdict: nat -> Verdict, maxAttempts: int, c: Counters)
    requires WellFormed(db) && Sweepable(db, ids) && |read| == |db.preds|
    ensures SameRoundIds(db.rounds, SweepRows(db, read, ids, verdict, NoFaults, maxAttempts, c).0.rounds)
    decreases |ids|
  {
    if ids != [] {
      var p := ids[0];
      VisitKeepsSweepable(db, p, read[p], verdict(p), NoFault, maxAttempts, c, ids[1..]);
      var (db', c') := Visit(db, p, read[p], verdict(p), NoFault, maxAttempts, c);
      SweepRowsKeepRoundIds(db', read, ids[1..], verdict, maxAttempts, c');
    }
  }

  lemma {:induction false} SweepsKeepRoundIds(db: Db, n: nat, cfg: Config, answers: Answers)
    requires WellFormed(db)
    ensures SameRoundIds(db.rounds, Sweeps(db, n, cfg, answers).rounds)
    decreases n
  {
    if n > 0 {
      SweepsKeepRoundIds(db, n - 1, cfg, answers);
      var now := Sweeps(db, n - 1, cfg, answers);
      OpenRowsAreOnChain(now, cfg.cutoff, cfg.batch);
      SweepRowsKeepRoundIds(now, now.preds, Selected(now, cfg), answers(n - 1), cfg.maxAttempts, Zero);
    }
  }

  /** A row without a hash is never found, by any sweep. */
  lemma NeverFound(db: Db, n: nat, cfg: Config, chains: nat -> Chain, answers: Answers, k: nat)
    requires WellFormed(db) && k < |db.preds| && Asked(db, cfg, chains, answers)
    requires KnowsOnlyWallets(chains(n), db.rounds)
    requires Open(RowAfter(db, n, cfg, answers, k)) && !HasHash(db.preds[k])
    ensures answers(n)(k) == Unknown
  {
    EveryRowHasItsFate(db, n, cfg, answers, k);
    SweepsKeepRoundIds(db, n, cfg, answers);
    var now := Sweeps(db, n, cfg, answers);
    assert answers(n)(k) == Ask(chains(n), now, now.preds[k]);
  }

  /** What the visit to an open row does that has no hash and is not found. */
  lemma UnfoundVisit(db: Db, k: nat, maxAttempts: int)
    requires WellFormed(db) && k < |db.preds| && Open(db.preds[k]) && !HasHash(db.preds[k])
    ensures var row := db.preds[k];
            var db' := Perform(db, k, Decide(row, Unknown, maxAttempts));
            && |db'.preds| == |db.preds|
            && db'.preds[k] == if row.attempts < maxAttempts then row.(attempts := row.attempts + 1)
                               else if row.compensated then row
                               else row.(status := Failed, compensated := true, refunds := row.refunds + 1)
  {
    assert RowWellFormed(db.users, db.rounds, db.preds[k]);
  }

  /** What one sweep does to an open row without a hash that its lookup does not find. */
  lemma BumpedOrRefunded(db: Db, cfg: Config, verdict: nat -> Verdict, k: nat)
    requires WellFormed(db) && k < |db.preds| && Open(db.preds[k]) && !HasHash(db.preds[k]) && verdict(k).Unknown?
    ensures var row, row' := db.preds[k], Sweep1(db, cfg, verdict).preds[k];
            || row' == row
            || row' == row.(attempts := row.attempts + 1)
            || (!row.compensated && row.attempts >= cfg.maxAttempts
                && row' == row.(status := Failed, compensated := true, refunds := row.refunds + 1))
  {
    var ids := Selected(db, cfg);
    OpenRowsAreOnChain(db, cfg.cutoff, cfg.batch);
    SweepRow(db, db.preds, ids, verdict, cfg.maxAttempts, Zero, k);
    hide SweepRows, Perform, Decide;
    UnfoundVisit(db, k, cfg.maxAttempts);
  }

  /** The row as it was, but for attempts and, once it is refunded, the refund. */
  predicate OnlyBumpedOrRefunded(before: Prediction, after: Prediction) {
    && after.attempts >= before.attempts
    && (after == before.(attempts := after.attempts)
        || (!before.compensated
            && after == before.(attempts := after.attempts, status := Failed, compensated := true,
                                refunds := before.refunds + 1)))
  }

  /**
   The sweep passes the round id where the lookup expects the address. On chains
   whose positions belong to addresses it therefore never finds one: through any
   number of sweeps, whatever stake is on chain, an open row without a hash is not
   confirmed; only its attempts are raised, until it is refunded.
   */
  lemma {:induction false} RowWithoutHashIsNeverConfirmed(
      db: Db, n: nat, cfg: Config, chains: nat -> Chain, answers: Answers, k: nat)
    requires WellFormed(db) && k < |db.preds| && Open(db.preds[k]) && !HasHash(db.preds[k])
    requires Asked(db, cfg, chains, answers) && forall i: nat :: KnowsOnlyWallets(chains(i), db.rounds)
    ensures OnlyBumpedOrRefunded(db.preds[k], RowAfter(db, n, cfg, answers, k))
    decreases n
  {
    hide Sweep1, Selected, Work;
    if n > 0 {
      RowWithoutHashIsNeverConfirmed(db, n - 1, cfg, chains, answers, k);
      var row := RowAfter(db, n - 1, cfg, answers, k);
      if Open(row) {
        NeverFound(db, n - 1, cfg, chains, answers, k);
        BumpedOrRefunded(Sweeps(db, n - 1, cfg, answers), cfg, answers(n - 1), k);
      } else {
        Sweep1Row(Sweeps(db, n - 1, cfg, answers), cfg, answers(n - 1), k);
      }
    }
  }

  lemma RefundsWhenUsedUp(db: Db, cfg: Config, verdict: nat -> Verdict, k: nat)
    requires WellFormed(db) && cfg.batch >= |db.preds| && AllAged(db, cfg.cutoff)
    requires k < |db.preds| && Open(db.preds[k]) && !HasHash(db.preds[k]) && verdict(k).Unknown?
    requires !db.preds[k].compensated
    ensures var row, row' := db.preds[k], Sweep1(db, cfg, verdict).preds[k];
            row' == if row.attempts >= cfg.maxAttempts
                    then row.(status := Failed, compensated := true, refunds := row.refunds + 1)
                    else row.(attempts := row.attempts + 1)
  {
    var ids := Selected(db, cfg);
    SelectFindsAll(db.preds, 0, cfg.cutoff, cfg.batch, k);
    OpenRowsAreOnChain(db, cfg.cutoff, cfg.batch);
    SweepRow(db, db.preds, ids, verdict, cfg.maxAttempts, Zero, k);
    hide SweepRows, Perform, Decide;
    UnfoundVisit(db, k, cfg.maxAttempts);
  }

  lemma AgedThroughout(db: Db, n: nat, cfg: Config, answers: Answers)
    requires WellFormed(db) && AllAged(db, cfg.cutoff)
    ensures AllAged(Sweeps(db, n, cfg, answers), cfg.cutoff)
  {
    var now := Sweeps(db, n, cfg, answers);
    forall k | 0 <= k < |now.preds| && Open(now.preds[k]) ensures now.preds[k].createdAt < cfg.cutoff {
      EveryRowHasItsFate(db, n, cfg, answers, k);
    }
  }

  /** And it is refunded: exactly by the sweep after its attempts are used up, when the batch has room for every row. */
  lemma {:induction false} RowWithoutHashIsRefunded(
      db: Db, n: nat, cfg: Config, chains: nat -> Chain, answers: Answers, k: nat)
    requires WellFormed(db) && cfg.batch >= |db.preds| && AllAged(db, cfg.cutoff)
    requires k < |db.preds| && Open(db.preds[k]) && !HasHash(db.preds[k]) && !db.preds[k].compensated
    requires Asked(db, cfg, chains, answers) && forall i: nat :: KnowsOnlyWallets(chains(i), db.rounds)
    ensures var row, row' := db.preds[k], RowAfter(db, n, cfg, answers, k);
            if n < Work(row, cfg.maxAttempts) then row' == row.(attempts := row.attempts + n)
            else row'.status == Failed && row'.compensated && row'.refunds == row.refunds + 1
    decreases n
  {
    hide Sweep1, AllAged, KnowsOnlyWallets, Asked;
    if n > 0 {
      RowWithoutHashIsRefunded(db, n - 1, cfg, chains, answers, k);
      var now := Sweeps(db, n - 1, cfg, answers);
      if Open(now.preds[k]) {
        NeverFound(db, n - 1, cfg, chains, answers, k);
        AgedThroughout(db, n - 1, cfg, answers);
        RefundsWhenUsedUp(now, cfg, answers(n - 1), k);
      } else {
        Sweep1Row(now, cfg, answers(n - 1), k);
      }
    }
  }
}
