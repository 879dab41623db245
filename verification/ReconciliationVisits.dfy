/**
 One visit of the sweep over stranded predictions, told from the row as it was read,
 the row as it is stored, and what the chain answers: which rows are confirmed,
 refunded, flagged or left for later, and how the visit is counted.
 */
module ReconciliationVisits {
  import opened Wrappers
  import opened PredictionLedger
  import opened Reconciliation

  predicate NonEmpty(hash: Option<string>) {
    hash.Some? && hash.value != ""
  }

  /** The stake is given back: its transaction failed, or nothing was ever found of it in all its attempts. */
  predicate GivenBack(row: Prediction, v: Verdict, maxAttempts: int) {
    if NonEmpty(row.txHash) then v.Refused? else !v.Landed? && row.attempts >= maxAttempts
  }

  /** The row is left to people: its transaction has no outcome after all its attempts. */
  predicate LeftToPeople(row: Prediction, v: Verdict, maxAttempts: int) {
    NonEmpty(row.txHash) && v.Unknown? && row.attempts >= maxAttempts
  }

  /** The hash a confirmed row ends up with: as read, else as stored, else a mark that there was none. */
  function HashKept(row: Prediction, stored: Prediction): Option<string> {
    if NonEmpty(row.txHash) then row.txHash
    else if NonEmpty(stored.txHash) then stored.txHash
    else Some("reconciled-no-txhash")
  }

  /** What a visit whose write goes through leaves of the row. */
  predicate Left(db: Db, p: nat, row: Prediction, v: Verdict, maxAttempts: int, now: Prediction)
    requires p < |db.preds|
  {
    var was := db.preds[p];
    if v.Landed? then
      now == if was.status.Pending? then was.(status := Confirmed, attempts := 1, txHash := HashKept(row, was)) else was
    else if GivenBack(row, v, maxAttempts) then
      now == if Open(was) && !was.compensated
             then was.(status := Failed, compensated := true, refunds := was.refunds + 1) else was
    else if LeftToPeople(row, v, maxAttempts) then now == was.(status := NeedsManualReview)
    else now == was.(attempts := was.attempts + 1)
  }

  /**
   What one visit does to its row, and to no other, and which counter it increments
   beside `checked`: confirmed for a stake that landed, failed for one given back,
   unresolved for the rest, and errors for a lookup or write that failed, whether or
   not the write took effect.
   */
  lemma VisitTold(db: Db, p: nat, row: Prediction, v: Verdict, f: Fault, maxAttempts: int, c: Counters)
    requires WellFormed(db) && p < |db.preds|
    ensures var (db', c') := Visit(db, p, row, v, f, maxAttempts, c);
            && |db'.preds| == |db.preds|
            && (forall k :: 0 <= k < |db.preds| && k != p ==> db'.preds[k] == db.preds[k])
            && (if f.BeforeWrite? then db' == db else Left(db, p, row, v, maxAttempts, db'.preds[p]))
            && c'.checked == c.checked + 1
            && c'.errors == c.errors + (if f.NoFault? then 0 else 1)
            && c'.confirmed == c.confirmed + (if f.NoFault? && v.Landed? then 1 else 0)
            && c'.failed == c.failed + (if f.NoFault? && !v.Landed? && GivenBack(row, v, maxAttempts) then 1 else 0)
            && c'.unresolved
               == c.unresolved + (if f.NoFault? && !v.Landed? && !GivenBack(row, v, maxAttempts) then 1 else 0)
  {
    assert RowWellFormed(db.users, db.rounds, db.preds[p]);
  }

  /** The row waits for the chain since before the cutoff. */
  predicate Waits(p: Prediction, cutoff: int) {
    (p.status.Pending? || p.status.Submitted?) && p.createdAt < cutoff
  }

  /** A sweep takes up the oldest rows that wait, all of them or as many as its batch. */
  lemma SweepTakesTheOldest(db: Db, cutoff: int, batch: nat, k: nat)
    requires k < |db.preds|
    ensures var ids := SelectFrom(db.preds, 0, cutoff, batch);
            && |ids| <= batch && (k in ids ==> Waits(db.preds[k], cutoff))
            && (Waits(db.preds[k], cutoff) && k !in ids ==>
                  |ids| == batch && forall j :: 0 <= j < |ids| ==> ids[j] < k)
  {
  }
}
