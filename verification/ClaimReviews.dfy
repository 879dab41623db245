/**
 What a visit of the payout worker does to its row and how it counts it, told from
 the row as read, the row as stored and what the visit meets; what a user's request
 and the queueing of a wallet write; and that claims which keep failing end in review.
 */
module ClaimReviews {
  import opened Wrappers
  import opened ClaimLedger

  // ---------------------------------------------------------------------------
  // One visit
  // ---------------------------------------------------------------------------

  predicate HasHashOf(c: Option<string>) {
    c.Some? && c.value != ""
  }

  /** The winnings are read, and something is owed. */
  predicate IsOwed(env: Env) {
    env.read.Owed? && env.read.stroops > 0
  }

  /** The winnings read as nothing: there are none, or the call failed. */
  predicate ReadsAsNothing(env: Env) {
    env.read.CallFailed? || (env.read.Owed? && env.read.stroops == 0)
  }

  /** The visit asks the chain about the row's transaction. */
  predicate AsksTheChain(row: Snapshot) {
    row.status.Submitted? && HasHashOf(row.txHash)
  }

  /** A claim is sent for the row. */
  predicate Sends(claims: seq<Claim>, row: Snapshot, env: Env)
    requires row.id < |claims|
  {
    && !row.status.Submitted? && IsOwed(env)
    && forall i :: 0 <= i < |claims| && i != row.id && claims[i].wallet == claims[row.id].wallet ==>
         !claims[i].status.Submitted?
  }

  /** The attempt that the row stands for has failed: sent and not recorded as paid, lost on chain, or never sent. */
  predicate AttemptFails(claims: seq<Claim>, row: Snapshot, env: Env)
    requires row.id < |claims|
  {
    if AsksTheChain(row) then env.chainStatus.NotFound?
    else if row.status.Submitted? then IsOwed(env)
    else Sends(claims, row, env) && !(env.chain.Paid? && env.writes.first)
  }

  /** The write that records a failure goes through. */
  predicate FailureWritten(row: Snapshot, env: Env) {
    if row.status.Submitted? then env.writes.first else env.writes.second
  }

  predicate Untouched(claims: seq<Claim>, row: Snapshot)
    requires row.id < |claims|
  {
    claims[row.id].status == row.status
  }

  /** The row goes to review: its transaction was reverted, or its failed attempt is the last it has. */
  predicate Flags(claims: seq<Claim>, row: Snapshot, env: Env, max: nat)
    requires row.id < |claims|
  {
    && Untouched(claims, row) && FailureWritten(row, env)
    && (|| (AsksTheChain(row) && env.chainStatus.Reverted?)
        || (AttemptFails(claims, row, env) && row.attempts + 1 >= max))
  }

  predicate FailsForNow(claims: seq<Claim>, row: Snapshot, env: Env, max: nat)
    requires row.id < |claims|
  {
    Untouched(claims, row) && FailureWritten(row, env) && AttemptFails(claims, row, env) && row.attempts + 1 < max
  }

  /** A new claim is accepted and recorded. */
  predicate Resubmits(claims: seq<Claim>, row: Snapshot, env: Env)
    requires row.id < |claims|
  {
    && Sends(claims, row, env) && env.chain.Paid? && env.writes.first
    && (claims[row.id].status.Pending? || claims[row.id].status.Failed?)
  }

  /** The row is closed: its transaction succeeded, or nothing is left to be paid. */
  predicate Closes(claims: seq<Claim>, row: Snapshot, env: Env)
    requires row.id < |claims|
  {
    && Open(claims[row.id].status) && env.writes.first
    && if AsksTheChain(row) then env.chainStatus.Succeeded? else ReadsAsNothing(env)
  }

  /**
   The one counter a visit increments and what becomes of its row, for every row as
   read, every row as stored and everything the visit may meet.
   */
  lemma VisitTold(claims: seq<Claim>, row: Snapshot, env: Env, max: nat)
    requires row.id < |claims|
    ensures var (after, verdict) := Visit(claims, row, env, max);
            && (verdict.WasSubmitted? <==> Resubmits(claims, row, env))
            && (verdict.WasConfirmed? <==> Closes(claims, row, env) && row.status.Submitted?)
            && (verdict.WasNoPending? <==> Closes(claims, row, env) && !row.status.Submitted?)
            && (verdict.WasFailed? <==> FailsForNow(claims, row, env, max))
            && (verdict.WasFlagged? <==> Flags(claims, row, env, max))
            && (verdict.WasError? || verdict.WasNoop? ==> after == claims)
  {
  }

  /** A visit counts an error exactly when something it asks, or a write it has to make, fails. */
  lemma VisitErrsIff(claims: seq<Claim>, row: Snapshot, env: Env, max: nat)
    requires row.id < |claims|
    ensures Visit(claims, row, env, max).1.WasError? <==>
      if AsksTheChain(row) then
        || env.chainStatus.CheckFailed? || env.chainStatus.StatusThrew?
        || (!env.writes.first && !env.chainStatus.InProgress?)
      else
        || env.read.ServiceDown?
        || (ReadsAsNothing(env) && !env.writes.first)
        || (AttemptFails(claims, row, env) && !FailureWritten(row, env))
  {
  }

  lemma RowAfterVisit(claims: seq<Claim>, row: Snapshot, env: Env, max: nat)
    requires row.id < |claims|
    ensures var (after, verdict) := Visit(claims, row, env, max);
            && |after| == |claims| && (forall i :: 0 <= i < |claims| && i != row.id ==> after[i] == claims[i])
            && var was, now := claims[row.id], after[row.id];
               && now.wallet == was.wallet && now.createdAt == was.createdAt
               && match verdict
                  case WasSubmitted =>
                    && env.chain.Paid? && now.status.Submitted? && now.amount == Some(env.chain.amount)
                    && now.attempts == was.attempts
                    && now.txHash == if env.chain.txHash.Some? then env.chain.txHash else row.txHash
                  case WasConfirmed =>
                    && now.status.Confirmed? && now.attempts == was.attempts && now.txHash == was.txHash
                    && now.amount == if row.amount.Some? then row.amount else was.amount
                  case WasNoPending =>
                    now.status.Confirmed? && now.attempts == was.attempts && now.txHash == was.txHash && now.amount == Some(0.0)
                  case WasFailed =>
                    now == was.(status := Failed, attempts := was.attempts + 1)
                  case WasFlagged =>
                    now == was.(status := NeedsManualReview, attempts := was.attempts + 1)
                  case _ => now == was
  {
  }

  // ---------------------------------------------------------------------------
  // Claims that keep failing
  // ---------------------------------------------------------------------------

  /** A row as the worker reads it now. */
  function AsRead(claims: seq<Claim>, id: nat): Snapshot
    requires id < |claims| && Open(claims[id].status)
  {
    var c := claims[id];
    Snapshot(id, c.status, c.txHash, c.amount, c.attempts)
  }

  /** The wallet is owed, the chain does not pay or its answer cannot be recorded, and the failure is written. */
  predicate Failing(env: Env) {
    IsOwed(env) && !(env.chain.Paid? && env.writes.first) && env.writes.second
  }

  /** The attempts a row has left, at least one. */
  function AttemptsLeft(c: Claim, max: nat): nat {
    if c.attempts + 1 >= max then 1 else max - c.attempts
  }

  /** What a failed claim leaves of the row. */
  function OneFailure(c: Claim, max: nat): Claim {
    c.(status := if AttemptsLeft(c, max) == 1 then NeedsManualReview else Failed, attempts := c.attempts + 1)
  }

  lemma FailedVisit(claims: seq<Claim>, row: Snapshot, env: Env, max: nat, id: nat)
    requires OneOpen(claims) && id < |claims| && (claims[id].status.Pending? || claims[id].status.Failed?)
    requires row == AsRead(claims, id) && Failing(env)
    ensures |Visit(claims, row, env, max).0| == |claims|
    ensures Visit(claims, row, env, max).0[id] == OneFailure(claims[id], max)
  {
    VisitTold(claims, row, env, max);
    RowAfterVisit(claims, row, env, max);
    hide Visit;
    forall i | 0 <= i < |claims| && i != id && claims[i].wallet == claims[id].wallet ensures !claims[i].status.Submitted? {
      var a, b := if i < id then i else id, if i < id then id else i;
      assert !(Open(claims[a].status) && Open(claims[b].status));
    }
  }

  /** One pass of the worker: the rows it read at its start, and what each visit met. */
  datatype Sweep = Sweep(rows: seq<Snapshot>, envs: seq<Env>)

  /** The rows are open ones of the table, each read once and as it is. */
  predicate ReadsTable(claims: seq<Claim>, sweep: Sweep) {
    && |sweep.rows| == |sweep.envs|
    && (forall k :: 0 <= k < |sweep.rows| ==>
          && sweep.rows[k].id < |claims| && Open(claims[sweep.rows[k].id].status)
          && sweep.rows[k] == AsRead(claims, sweep.rows[k].id))
    && (forall j, k :: 0 <= j < k < |sweep.rows| ==> sweep.rows[j].id != sweep.rows[k].id)
  }

  lemma {:induction false} PassKeepsOneOpen(claims: seq<Claim>, rows: seq<Snapshot>, envs: seq<Env>, max: nat)
    requires OneOpen(claims) && |rows| == |envs| && forall k :: 0 <= k < |rows| ==> rows[k].id < |claims|
    ensures OneOpen(Pass(claims, rows, envs, max))
  {
    if rows != [] {
      var n := |rows| - 1;
      PassKeepsOneOpen(claims, rows[..n], envs[..n], max);
      StepKeepsOneOpen(Pass(claims, rows[..n], envs[..n], max), OpVisit(rows[n], envs[n], max));
    }
  }

  lemma {:induction false} PassLeavesTheRest(claims: seq<Claim>, rows: seq<Snapshot>, envs: seq<Env>, max: nat, id: nat)
    requires |rows| == |envs| && forall k :: 0 <= k < |rows| ==> rows[k].id < |claims|
    requires id < |claims| && forall k :: 0 <= k < |rows| ==> rows[k].id != id
    ensures Pass(claims, rows, envs, max)[id] == claims[id]
  {
    if rows != [] {
      var n := |rows| - 1;
      PassLeavesTheRest(claims, rows[..n], envs[..n], max, id);
      RowAfterVisit(Pass(claims, rows[..n], envs[..n], max), rows[n], envs[n], max);
    }
  }

  /** A pass takes one attempt from a row whose claim fails, whatever it does to the other rows. */
  lemma {:induction false} FailedPass(
      claims: seq<Claim>, rows: seq<Snapshot>, envs: seq<Env>, max: nat, id: nat, k: nat)
    requires OneOpen(claims) && ReadsTable(claims, Sweep(rows, envs))
    requires k < |rows| && rows[k].id == id && id < |claims| && Failing(envs[k])
    requires claims[id].status.Pending? || claims[id].status.Failed?
    ensures Pass(claims, rows, envs, max)[id] == OneFailure(claims[id], max)
    decreases |rows|
  {
    var n := |rows| - 1;
    var before := Pass(claims, rows[..n], envs[..n], max);
    PassKeepsOneOpen(claims, rows[..n], envs[..n], max);
    hide OneOpen, OneFailure, Visit;
    if k == n {
      PassLeavesTheRest(claims, rows[..n], envs[..n], max, id);
      FailedVisit(before, rows[n], envs[n], max, id);
    } else {
      FailedPass(claims, rows[..n], envs[..n], max, id, k);
      RowAfterVisit(before, rows[n], envs[n], max);
    }
  }

  ghost function Sweeps(claims: seq<Claim>, sweeps: seq<Sweep>, max: nat): (r: seq<Claim>)
    requires AllRead(claims, sweeps, max)
    ensures |r| == |claims|
    decreases |sweeps|
  {
    if sweeps == [] then claims
    else Sweeps(Pass(claims, sweeps[0].rows, sweeps[0].envs, max), sweeps[1..], max)
  }

  /** Each pass reads the table the one before it left. */
  ghost predicate AllRead(claims: seq<Claim>, sweeps: seq<Sweep>, max: nat)
    decreases |sweeps|
  {
    sweeps != [] ==>
      && ReadsTable(claims, sweeps[0])
      && AllRead(Pass(claims, sweeps[0].rows, sweeps[0].envs, max), sweeps[1..], max)
  }

  /** While the row is open, every pass selects it and its claim fails. */
  ghost predicate AllFail(claims: seq<Claim>, sweeps: seq<Sweep>, max: nat, id: nat)
    requires AllRead(claims, sweeps, max)
    decreases |sweeps|
  {
    sweeps != [] ==>
      && (id < |claims| && Open(claims[id].status) ==>
            exists k :: 0 <= k < |sweeps[0].rows| && sweeps[0].rows[k].id == id && Failing(sweeps[0].envs[k]))
      && AllFail(Pass(claims, sweeps[0].rows, sweeps[0].envs, max), sweeps[1..], max, id)
  }

  lemma {:induction false} ReviewedRowStays(claims: seq<Claim>, sweeps: seq<Sweep>, max: nat, id: nat)
    requires AllRead(claims, sweeps, max) && id < |claims| && !Open(claims[id].status)
    ensures Sweeps(claims, sweeps, max)[id] == claims[id]
    decreases |sweeps|
  {
    if sweeps != [] {
      PassLeavesTheRest(claims, sweeps[0].rows, sweeps[0].envs, max, id);
      ReviewedRowStays(Pass(claims, sweeps[0].rows, sweeps[0].envs, max), sweeps[1..], max, id);
    }
  }

  /**
   A row whose claims all fail is retried by every pass until its attempts are used
   up, and is then, and not before, in review for good: after as many passes as
   `max` leaves it attempts, and after the first if it has none left.
   */
  lemma {:induction false} FailingClaimEndsInReview(claims: seq<Claim>, sweeps: seq<Sweep>, max: nat, id: nat)
    requires OneOpen(claims) && AllRead(claims, sweeps, max) && AllFail(claims, sweeps, max, id)
    requires id < |claims| && (claims[id].status.Pending? || claims[id].status.Failed?)
    ensures var last, left := Sweeps(claims, sweeps, max)[id], AttemptsLeft(claims[id], max);
            if |sweeps| >= left then last.status.NeedsManualReview? && last.attempts == claims[id].attempts + left
            else (sweeps != [] ==> last.status.Failed?) && last.attempts == claims[id].attempts + |sweeps|
    decreases |sweeps|
  {
    if sweeps != [] {
      var rows, envs := sweeps[0].rows, sweeps[0].envs;
      var k :| 0 <= k < |rows| && rows[k].id == id && Failing(envs[k]);
      FailedPass(claims, rows, envs, max, id, k);
      PassKeepsOneOpen(claims, rows, envs, max);
      hide OneOpen, ReadsTable, Pass;
      var next := Pass(claims, rows, envs, max);
      if AttemptsLeft(claims[id], max) == 1 {
        ReviewedRowStays(next, sweeps[1..], max, id);
      } else {
        FailingClaimEndsInReview(next, sweeps[1..], max, id);
      }
    }
  }

  // ---------------------------------------------------------------------------
  // The user's request and the queueing of a wallet
  // ---------------------------------------------------------------------------

  /** The wallet's oldest open claim; none is open when it is absent. */
  predicate IsOldestOpen(claims: seq<Claim>, wallet: string, open: Option<nat>) {
    && (open.Some? ==> open.value < |claims| && OpenFor(claims[open.value], wallet))
    && forall i :: 0 <= i < (if open.Some? then open.value else |claims|) ==> !OpenFor(claims[i], wallet)
  }

  /** The table differs from `before` in that row alone, which is the wallet's, or in a new row of the wallet. */
  predicate WritesOne(before: seq<Claim>, after: seq<Claim>, open: Option<nat>, wallet: string) {
    if open.Some? then
      && |after| == |before| && open.value < |before|
      && (forall i :: 0 <= i < |before| && i != open.value ==> after[i] == before[i])
      && after[open.value].wallet == before[open.value].wallet
      && after[open.value].createdAt == before[open.value].createdAt
    else |after| == |before| + 1 && after[..|before|] == before && after[|before|].wallet == wallet
  }

  /**
   What a user's request is told and what it leaves: a claim in flight is reported as
   it is and nothing is written; an accepted claim is recorded as SUBMITTED with its
   amount on the oldest open row or on a new one; anything else is a failed attempt
   of that row.
   */
  lemma UserClaimTold(claims: seq<Claim>, wallet: string, chain: ChainClaim, writes: Writes, now: int, open: Option<nat>)
    requires IsOldestOpen(claims, wallet, open)
    ensures var (after, reply) := UserClaim(claims, wallet, chain, writes, now);
            var inFlight := open.Some? && claims[open.value].status.Submitted?;
            var id := if open.Some? then open.value else |claims|;
            && (reply == AlreadySubmitted(id) <==> inFlight)
            && (reply.Claimed? <==> !inFlight && chain.Paid? && writes.first)
            && (reply.Claimed? ==> reply == Claimed(chain.amount, chain.txHash))
            && (after != claims ==> WritesOne(claims, after, open, wallet))
            && (reply.Claimed? ==>
                  && id < |after| && after[id].status.Submitted? && after[id].amount == Some(chain.amount)
                  && after[id].txHash == (if chain.txHash.Some? || open.None? then chain.txHash else claims[id].txHash)
                  && after[id].attempts == if open.Some? then claims[id].attempts else 0)
            && (reply.Threw? && writes.second ==>
                  && id < |after| && after[id].status.Failed?
                  && (if open.Some? then after[id].txHash == claims[id].txHash && after[id].amount == claims[id].amount
                      else after[id].txHash.None? && after[id].amount.None?)
                  && after[id].attempts == if open.Some? then claims[id].attempts + 1 else 1)
            && (inFlight || (reply.Threw? && !writes.second) ==> after == claims)
  {
    var first := FirstOpen(claims, wallet);
    assert first == open;
  }

  /** A wallet is queued exactly when it has no open claim and none confirmed since its last bet was settled. */
  lemma QueuedIff(claims: seq<Claim>, wallet: string, settledAt: int, now: int)
    ensures var after := Queue(claims, wallet, settledAt, now);
            if forall i :: 0 <= i < |claims| && claims[i].wallet == wallet ==>
                 !Open(claims[i].status) && !(claims[i].status.Confirmed? && claims[i].createdAt >= settledAt)
            then after == claims + [Claim(wallet, Pending, None, None, 0, now)]
            else after == claims
  {
    var latest := LatestConfirmed(claims, wallet);
    if latest.Some? {
      var i :| 0 <= i < |claims| && ConfirmedFor(claims[i], wallet) && claims[i].createdAt == latest.value;
    }
  }
}
