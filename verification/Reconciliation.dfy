/**
 The sweep that `reconcilePredictions` makes over stranded predictions, and what
 repeated sweeps achieve. Rows are kept in creation order, so the oldest rows
 come first; chain answers are inputs, since the chain is not part of the model.
 */
module Reconciliation {
  import opened Wrappers
  import opened PredictionLedger

  datatype Verdict = Landed | Refused | Unknown

  datatype Fault =
    | NoFault
    | BeforeWrite   // the chain lookup or the database failed and nothing changed
    | AfterWrite    // the write committed but its reply was lost

  datatype Counters = Counters(checked: nat, confirmed: nat, failed: nat, unresolved: nat, errors: nat)

  /** Every row that was checked is counted exactly once more. */
  predicate Balanced(c: Counters) {
    c.checked == c.confirmed + c.failed + c.unresolved + c.errors
  }

  const Zero: Counters := Counters(0, 0, 0, 0, 0)

  datatype Action = Confirm(hash: Option<string>) | Refund | Review | Wait

  /** A hash column counts as absent when it is null or empty. */
  predicate HasHash(row: Prediction) {
    row.txHash.Some? && row.txHash.value != ""
  }

  /** What the sweep decides for a row as it was read. */
  function Decide(row: Prediction, v: Verdict, maxAttempts: int): Action {
    if v.Landed? then Confirm(if HasHash(row) then row.txHash else None)
    else if HasHash(row) then
      if v.Refused? then Refund else if row.attempts >= maxAttempts then Review else Wait
    else if row.attempts >= maxAttempts then Refund
    else Wait
  }

  /** `confirmPredictionFromReconciliation`, whose write still demands a PENDING row. */
  function ConfirmFromReconciliation(db: Db, p: nat, hash: Option<string>): Db {
    if p >= |db.preds| || db.preds[p].status.Confirmed? then db
    else
      var known := if hash.Some? then hash else if HasHash(db.preds[p]) then db.preds[p].txHash else None;
      Finalize(db, p, if known.Some? then known else Some("reconciled-no-txhash"))
  }

  function Perform(db: Db, p: nat, a: Action): Db
    requires WellFormed(db)
  {
    match a
    case Confirm(hash) => ConfirmFromReconciliation(db, p, hash)
    case Refund => Compensate(db, p)
    case Review => FlagForReview(db, p)
    case Wait => BumpAttempts(db, p)
  }

  function Count(c: Counters, a: Action): Counters {
    match a
    case Confirm(_) => c.(confirmed := c.confirmed + 1)
    case Refund => c.(failed := c.failed + 1)
    case _ => c.(unresolved := c.unresolved + 1)
  }

  /** One row of the loop: `row` as the query read it, `p` its id. */
  function Visit(db: Db, p: nat, row: Prediction, v: Verdict, f: Fault, maxAttempts: int, c: Counters): (Db, Counters)
    requires WellFormed(db)
  {
    var a := Decide(row, v, maxAttempts);
    var c1 := c.(checked := c.checked + 1);
    match f
    case NoFault => (Perform(db, p, a), Count(c1, a))
    case BeforeWrite => (db, c1.(errors := c1.errors + 1))
    case AfterWrite => (Perform(db, p, a), c1.(errors := c1.errors + 1))
  }

  predicate Stranded(row: Prediction, cutoff: int) {
    Open(row) && row.createdAt < cutoff
  }

  /** The ids the query returns from row `i` on, oldest first and at most `room` of them. */
  function SelectFrom(preds: seq<Prediction>, i: nat, cutoff: int, room: nat): (ids: seq<nat>)
    requires i <= |preds|
    ensures |ids| <= room
    ensures forall k :: 0 <= k < |ids| ==> i <= ids[k] < |preds| && Stranded(preds[ids[k]], cutoff)
    ensures forall j, k :: 0 <= j < k < |ids| ==> ids[j] < ids[k]
    ensures forall n :: i <= n < |preds| && Stranded(preds[n], cutoff) && n !in ids ==>
              |ids| == room && forall k :: 0 <= k < |ids| ==> ids[k] < n
    decreases |preds| - i
  {
    if i == |preds| || room == 0 then []
    else if Stranded(preds[i], cutoff) then [i] + SelectFrom(preds, i + 1, cutoff, room - 1)
    else SelectFrom(preds, i + 1, cutoff, room)
  }

  lemma PerformKeepsWellFormed(db: Db, p: nat, a: Action)
    requires WellFormed(db) && OnChain(db, p)
    ensures var db' := Perform(db, p, a);
            && WellFormed(db')
            && |db'.preds| == |db.preds|
            && SameShape(db.rounds, db'.rounds)
            && db'.preds[p].round == db.preds[p].round && db'.preds[p].createdAt == db.preds[p].createdAt
            && (forall k :: 0 <= k < |db.preds| && k != p ==> db'.preds[k] == db.preds[k])
  {
    match a
    case Confirm(hash) =>
      if !db.preds[p].status.Confirmed? {
        var known := if hash.Some? then hash else if HasHash(db.preds[p]) then db.preds[p].txHash else None;
        RowWriteKeepsWellFormed(db, OpFinalize(p, if known.Some? then known else Some("reconciled-no-txhash")));
      }
    case Refund => CompensateKeepsWellFormed(db, p);
    case Review => RowWriteKeepsWellFormed(db, OpFlag(p));
    case Wait => RowWriteKeepsWellFormed(db, OpBump(p));
  }

  /** Every id of the list names a row of an UP_DOWN round, and no id comes twice. */
  predicate Sweepable(db: Db, ids: seq<nat>) {
    && (forall k :: 0 <= k < |ids| ==> OnChain(db, ids[k]))
    && (forall j, k :: 0 <= j < k < |ids| ==> ids[j] < ids[k])
  }

  lemma VisitKeepsSweepable(
      db: Db, p: nat, row: Prediction, v: Verdict, f: Fault, maxAttempts: int, c: Counters, ids: seq<nat>)
    requires WellFormed(db) && OnChain(db, p) && Sweepable(db, ids)
    ensures var db' := Visit(db, p, row, v, f, maxAttempts, c).0;
            WellFormed(db') && |db'.preds| == |db.preds| && Sweepable(db', ids)
  {
    PerformKeepsWellFormed(db, p, Decide(row, v, maxAttempts));
    var db' := Visit(db, p, row, v, f, maxAttempts, c).0;
    forall k | 0 <= k < |ids| ensures OnChain(db', ids[k]) {
      assert OnChain(db, ids[k]);
    }
  }

  /** The whole loop over `ids`, each row as it stood in `read`. */
  function SweepRows(
      db: Db, read: seq<Prediction>, ids: seq<nat>, verdict: nat -> Verdict, fault: nat -> Fault, maxAttempts: int,
      c: Counters)
    : (r: (Db, Counters))
    requires WellFormed(db) && Sweepable(db, ids) && |read| == |db.preds|
    ensures WellFormed(r.0) && |r.0.preds| == |db.preds|
    decreases |ids|
  {
    if ids == [] then (db, c)
    else
      var p := ids[0];
      VisitKeepsSweepable(db, p, read[p], verdict(p), fault(p), maxAttempts, c, ids[1..]);
      var (db', c') := Visit(db, p, read[p], verdict(p), fault(p), maxAttempts, c);
      SweepRows(db', read, ids[1..], verdict, fault, maxAttempts, c')
  }

  /** The loop still has `ids` to visit and will end in `outcome`. */
  ghost predicate Remaining(
      db: Db, read: seq<Prediction>, ids: seq<nat>, verdict: nat -> Verdict, fault: nat -> Fault, maxAttempts: int,
      c: Counters, outcome: (Db, Counters))
  {
    && WellFormed(db) && Sweepable(db, ids) && |read| == |db.preds|
    && SweepRows(db, read, ids, verdict, fault, maxAttempts, c) == outcome
  }

  lemma RemainingStep(
      db: Db, read: seq<Prediction>, ids: seq<nat>, i: nat, verdict: nat -> Verdict, fault: nat -> Fault, maxAttempts: int,
      c: Counters, outcome: (Db, Counters))
    requires i < |ids| && Remaining(db, read, ids[i..], verdict, fault, maxAttempts, c, outcome)
    ensures WellFormed(db) && OnChain(db, ids[i]) && ids[i] < |read|
    ensures var p := ids[i];
            var (db', c') := Visit(db, p, read[p], verdict(p), fault(p), maxAttempts, c);
            Remaining(db', read, ids[i + 1..], verdict, fault, maxAttempts, c', outcome)
  {
    var p := ids[i];
    assert ids[i..][0] == p && ids[i..][1..] == ids[i + 1..];
    VisitKeepsSweepable(db, p, read[p], verdict(p), fault(p), maxAttempts, c, ids[i + 1..]);
  }

  lemma OpenRowsAreOnChain(db: Db, cutoff: int, batch: nat)
    requires WellFormed(db)
    ensures Sweepable(db, SelectFrom(db.preds, 0, cutoff, batch))
  {
    var ids := SelectFrom(db.preds, 0, cutoff, batch);
    forall k | 0 <= k < |ids| ensures OnChain(db, ids[k]) {
      assert RowWellFormed(db.users, db.rounds, db.preds[ids[k]]);
    }
  }

  function Sweep(
      db: Db, cutoff: int, batch: nat, maxAttempts: int, verdict: nat -> Verdict, fault: nat -> Fault)
    : (r: (Db, Counters))
    requires WellFormed(db)
    ensures WellFormed(r.0) && |r.0.preds| == |db.preds|
  {
    OpenRowsAreOnChain(db, cutoff, batch);
    SweepRows(db, db.preds, SelectFrom(db.preds, 0, cutoff, batch), verdict, fault, maxAttempts, Zero)
  }

  // ---------------------------------------------------------------------------
  // The service, in the imperative form of the source
  // ---------------------------------------------------------------------------

  class PredictionReconciliationService {
    var db: Db

    constructor (db: Db)
      ensures this.db == db
    {
      this.db := db;
    }

    /** The body of the loop for one row, counters included. */
    method ReconcileRow(p: nat, row: Prediction, v: Verdict, f: Fault, maxAttempts: int, c: Counters)
      returns (c': Counters)
      requires WellFormed(db) && OnChain(db, p)
      modifies this
      ensures (db, c') == Visit(old(db), p, row, v, f, maxAttempts, c)
      ensures Balanced(c) ==> Balanced(c')
    {
      c' := c.(checked := c.checked + 1);
      if f.BeforeWrite? {
        c' := c'.(errors := c'.errors + 1);
        return;
      }
      if HasHash(row) {
        if v.Landed? {
          db := ConfirmFromReconciliation(db, p, row.txHash);
          c' := c'.(confirmed := c'.confirmed + 1);
        } else if v.Refused? {
          db := Compensate(db, p);
          c' := c'.(failed := c'.failed + 1);
        } else if row.attempts >= maxAttempts {
          db := FlagForReview(db, p);
          c' := c'.(unresolved := c'.unresolved + 1);
        } else {
          db := BumpAttempts(db, p);
          c' := c'.(unresolved := c'.unresolved + 1);
        }
      } else {
        if v.Landed? {
          db := ConfirmFromReconciliation(db, p, None);
          c' := c'.(confirmed := c'.confirmed + 1);
        } else if row.attempts >= maxAttempts {
          db := Compensate(db, p);
          c' := c'.(failed := c'.failed + 1);
        } else {
          db := BumpAttempts(db, p);
          c' := c'.(unresolved := c'.unresolved + 1);
        }
      }
      if f.AfterWrite? {
        // The exception overtook the counter of the branch.
        c' := c.(checked := c.checked + 1, errors := c.errors + 1);
      }
    }

    /** The loop over the rows the query returned. */
    method ReconcileRows(
        stranded: seq<nat>, read: seq<Prediction>, maxAttempts: int, verdict: nat -> Verdict, fault: nat -> Fault,
        ghost outcome: (Db, Counters))
      returns (c: Counters)
      requires Remaining(db, read, stranded, verdict, fault, maxAttempts, Zero, outcome)
      modifies this
      ensures db == outcome.0 && c == outcome.1 && Balanced(c)
    {
      c := Zero;
      assert stranded[0..] == stranded;
      for i := 0 to |stranded|
        invariant Remaining(db, read, stranded[i..], verdict, fault, maxAttempts, c, outcome)
        invariant Balanced(c)
      {
        RemainingStep(db, read, stranded, i, verdict, fault, maxAttempts, c, outcome);
        var p := stranded[i];
        c := ReconcileRow(p, read[p], verdict(p), fault(p), maxAttempts, c);
      }
    }

    method ReconcilePredictions(
        cutoff: int, batchSize: nat, maxAttempts: int, verdict: nat -> Verdict, fault: nat -> Fault)
      returns (c: Counters)
      requires WellFormed(db)
      modifies this
      ensures (db, c) == Sweep(old(db), cutoff, batchSize, maxAttempts, verdict, fault)
      ensures Balanced(c)
    {
      var stranded := SelectFrom(db.preds, 0, cutoff, batchSize);
      OpenRowsAreOnChain(db, cutoff, batchSize);
      if |stranded| == 0 {
        return Zero;
      }
      c := ReconcileRows(stranded, db.preds, maxAttempts, verdict, fault,
                         Sweep(db, cutoff, batchSize, maxAttempts, verdict, fault));
    }
  }
}
