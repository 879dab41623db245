/**
 The claim ledger: the user's claim request in bet.service.ts and the payout
 worker of payout-reconciliation.service.ts, which share one table of claim rows.
 Here requests, sweeps and visits are whole operations, one after the other, the
 visits working from a snapshot of the row that may be out of date. ClaimSteps
 takes them apart and lets them overlap.
 */
module ClaimLedger {
  import opened Wrappers

  datatype ClaimStatus = Pending | Submitted | Confirmed | Failed | NeedsManualReview

  predicate Open(s: ClaimStatus) {
    s.Pending? || s.Submitted? || s.Failed?
  }

  type OpenStatus = s: ClaimStatus | Open(s) witness Pending

  /** The index of a row in the table is its id; rows are kept in creation order. */
  datatype Claim = Claim(
    wallet: string, status: ClaimStatus, txHash: Option<string>, amount: Option<real>, attempts: nat, createdAt: int)

  predicate OpenFor(c: Claim, wallet: string) {
    c.wallet == wallet && Open(c.status)
  }

  predicate InFlight(claims: seq<Claim>, wallet: string) {
    exists i :: 0 <= i < |claims| && claims[i].wallet == wallet && claims[i].status.Submitted?
  }

  /** The oldest open claim of a wallet. */
  function FirstOpen(claims: seq<Claim>, wallet: string): (r: Option<nat>)
    ensures r.Some? ==> r.value < |claims| && OpenFor(claims[r.value], wallet)
    ensures r.Some? ==> forall i :: 0 <= i < r.value ==> !OpenFor(claims[i], wallet)
    ensures r.None? ==> forall i :: 0 <= i < |claims| ==> !OpenFor(claims[i], wallet)
  {
    if claims == [] then None
    else
      var n := |claims| - 1;
      var earlier := FirstOpen(claims[..n], wallet);
      if earlier.Some? then earlier else if OpenFor(claims[n], wallet) then Some(n) else None
  }

  predicate ConfirmedFor(c: Claim, wallet: string) {
    c.wallet == wallet && c.status.Confirmed?
  }

  /** The creation time of the wallet's newest CONFIRMED claim. */
  function LatestConfirmed(claims: seq<Claim>, wallet: string): (r: Option<int>)
    ensures r.Some? ==> exists i :: 0 <= i < |claims| && ConfirmedFor(claims[i], wallet) && claims[i].createdAt == r.value
    ensures r.Some? ==> forall i :: 0 <= i < |claims| && ConfirmedFor(claims[i], wallet) ==> claims[i].createdAt <= r.value
    ensures r.None? ==> forall i :: 0 <= i < |claims| ==> !ConfirmedFor(claims[i], wallet)
  {
    if claims == [] then None
    else
      var n := |claims| - 1;
      var earlier := LatestConfirmed(claims[..n], wallet);
      if ConfirmedFor(claims[n], wallet) && (earlier.None? || claims[n].createdAt >= earlier.value)
      then Some(claims[n].createdAt)
      else earlier
  }

  // ---------------------------------------------------------------------------
  // The user's request
  // ---------------------------------------------------------------------------

  /** What the claim contract answers. */
  datatype ChainClaim = Paid(amount: real, txHash: Option<string>) | Rejected

  /** Whether the first and the second database write of a request go through. */
  datatype Writes = Writes(first: bool, second: bool)

  datatype Reply = AlreadySubmitted(id: nat) | Claimed(amount: real, txHash: Option<string>) | Threw

  function AsSubmitted(c: Claim, paid: ChainClaim): Claim
    requires paid.Paid?
  {
    c.(status := Submitted, txHash := if paid.txHash.Some? then paid.txHash else c.txHash, amount := Some(paid.amount))
  }

  function RecordSubmission(
      claims: seq<Claim>, wallet: string, paid: ChainClaim, existing: Option<nat>, now: int): seq<Claim>
    requires paid.Paid? && (existing.Some? ==> existing.value < |claims|)
  {
    if existing.None? then claims + [Claim(wallet, Submitted, paid.txHash, Some(paid.amount), 0, now)]
    else if claims[existing.value].status.Pending? || claims[existing.value].status.Failed? then
      claims[existing.value := AsSubmitted(claims[existing.value], paid)]
    else claims
  }

  function RecordFailure(claims: seq<Claim>, wallet: string, existing: Option<nat>, now: int): seq<Claim>
    requires existing.Some? ==> existing.value < |claims|
  {
    if existing.None? then claims + [Claim(wallet, Failed, None, None, 1, now)]
    else if claims[existing.value].status.Pending? || claims[existing.value].status.Failed? then
      claims[existing.value :=
        claims[existing.value].(status := Failed, attempts := claims[existing.value].attempts + 1)]
    else claims
  }

  /** The request submits to the chain exactly when the oldest open claim is not SUBMITTED. */
  predicate UserSubmits(claims: seq<Claim>, wallet: string) {
    var open := FirstOpen(claims, wallet);
    open.None? || !claims[open.value].status.Submitted?
  }

  function UserClaim(claims: seq<Claim>, wallet: string, chain: ChainClaim, writes: Writes, now: int)
    : (seq<Claim>, Reply)
  {
    var open := FirstOpen(claims, wallet);
    if !UserSubmits(claims, wallet) then (claims, AlreadySubmitted(open.value))
    else if chain.Paid? && writes.first then
      (RecordSubmission(claims, wallet, chain, open, now), Claimed(chain.amount, chain.txHash))
    else if writes.second then (RecordFailure(claims, wallet, open, now), Threw)
    else (claims, Threw)
  }

  // ---------------------------------------------------------------------------
  // The payout worker
  // ---------------------------------------------------------------------------

  /** Queues a candidate wallet whose last bet was settled at `settledAt`. */
  function Queue(claims: seq<Claim>, wallet: string, settledAt: int, now: int): seq<Claim> {
    var confirmed := LatestConfirmed(claims, wallet);
    if FirstOpen(claims, wallet).Some? then claims
    else if confirmed.Some? && confirmed.value >= settledAt then claims
    else claims + [Claim(wallet, Pending, None, None, 0, now)]
  }

  /** A row as the worker read it at the start of its pass. */
  datatype Snapshot = Snapshot(
    id: nat, status: OpenStatus, txHash: Option<string>, amount: Option<real>, attempts: nat)

  /** Reading the winnings a wallet is still owed on chain. */
  datatype WinningsRead = Owed(stroops: nat) | CallFailed | ServiceDown

  datatype ChainStatus = Succeeded | Reverted | NotFound | CheckFailed | InProgress | StatusThrew

  datatype Env = Env(read: WinningsRead, chainStatus: ChainStatus, chain: ChainClaim, writes: Writes)

  /**
   What the worker is told. A failed call is reported as nothing owed; only a
   service that cannot be reached at all is reported as an error.
   */
  function PendingWinnings(read: WinningsRead): Option<nat> {
    match read
    case Owed(n) => Some(n)
    case CallFailed => Some(0)
    case ServiceDown => None
  }

  /** The one counter a visit increments. */
  datatype Verdict = WasSubmitted | WasConfirmed | WasNoPending | WasFailed | WasFlagged | WasError | WasNoop

  function MarkConfirmed(claims: seq<Claim>, row: Snapshot, nothingOwed: bool, write: bool): (seq<Claim>, Verdict)
    requires row.id < |claims|
  {
    if !write then (claims, WasError)
    else if !Open(claims[row.id].status) then (claims, WasNoop)
    else
      var amount := if nothingOwed then Some(0.0) else if row.amount.None? then claims[row.id].amount else row.amount;
      (claims[row.id := claims[row.id].(status := Confirmed, amount := amount)],
       if nothingOwed then WasNoPending else WasConfirmed)
  }

  function RecordFailedAttempt(claims: seq<Claim>, row: Snapshot, max: nat, write: bool): (seq<Claim>, Verdict)
    requires row.id < |claims|
  {
    var willFlag := row.attempts + 1 >= max;
    if !write then (claims, WasError)
    else if claims[row.id].status != row.status then (claims, WasNoop)
    else
      (claims[row.id := claims[row.id].(status := if willFlag then NeedsManualReview else Failed,
                                        attempts := claims[row.id].attempts + 1)],
       if willFlag then WasFlagged else WasFailed)
  }

  function FlagForReview(claims: seq<Claim>, row: Snapshot, write: bool): (seq<Claim>, Verdict)
    requires row.id < |claims|
  {
    if !write then (claims, WasError)
    else if claims[row.id].status != row.status then (claims, WasNoop)
    else
      (claims[row.id := claims[row.id].(status := NeedsManualReview, attempts := claims[row.id].attempts + 1)],
       WasFlagged)
  }

  /** A hash column counts as absent when it is null or empty. */
  predicate HasHash(row: Snapshot) {
    row.txHash.Some? && row.txHash.value != ""
  }

  function ReconcileSubmitted(claims: seq<Claim>, row: Snapshot, env: Env, max: nat): (seq<Claim>, Verdict)
    requires row.id < |claims|
  {
    if !HasHash(row) then
      match PendingWinnings(env.read)
      case None => (claims, WasError)
      case Some(n) =>
        if n == 0 then MarkConfirmed(claims, row, false, env.writes.first)
        else RecordFailedAttempt(claims, row, max, env.writes.first)
    else
      match env.chainStatus
      case Succeeded => MarkConfirmed(claims, row, false, env.writes.first)
      case Reverted => FlagForReview(claims, row, env.writes.first)
      case NotFound => RecordFailedAttempt(claims, row, max, env.writes.first)
      case CheckFailed => (claims, WasError)
      case InProgress => (claims, WasNoop)
      case StatusThrew => (claims, WasError)
  }

  /** Another row of the same wallet is SUBMITTED. */
  predicate OtherInFlight(claims: seq<Claim>, id: nat)
    requires id < |claims|
  {
    exists i :: 0 <= i < |claims| && i != id && claims[i].wallet == claims[id].wallet && claims[i].status.Submitted?
  }

  predicate WorkerSubmits(claims: seq<Claim>, row: Snapshot, env: Env) {
    && row.id < |claims|
    && !row.status.Submitted?
    && PendingWinnings(env.read).Some? && PendingWinnings(env.read).value > 0
    && !OtherInFlight(claims, row.id)
  }

  function AttemptClaim(claims: seq<Claim>, row: Snapshot, env: Env, max: nat): (seq<Claim>, Verdict)
    requires row.id < |claims| && !row.status.Submitted?
  {
    var owed := PendingWinnings(env.read);
    if owed.None? then (claims, WasError)
    else if owed.value == 0 then MarkConfirmed(claims, row, true, env.writes.first)
    else if OtherInFlight(claims, row.id) then (claims, WasNoop)
    else if env.chain.Paid? && env.writes.first then
      var now := claims[row.id];
      if now.status.Pending? || now.status.Failed? then
        (claims[row.id := now.(status := Submitted,
                               txHash := if env.chain.txHash.Some? then env.chain.txHash else row.txHash,
                               amount := Some(env.chain.amount))],
         WasSubmitted)
      else (claims, WasNoop)
    else RecordFailedAttempt(claims, row, max, env.writes.second)
  }

  function Visit(claims: seq<Claim>, row: Snapshot, env: Env, max: nat): (seq<Claim>, Verdict)
    requires row.id < |claims|
  {
    if row.status.Submitted? then ReconcileSubmitted(claims, row, env, max) else AttemptClaim(claims, row, env, max)
  }

  datatype Tally = Tally(
    checked: nat, submitted: nat, confirmed: nat, noPending: nat, failed: nat, flagged: nat, errors: nat, noop: nat)

  predicate Balanced(t: Tally) {
    t.checked == t.submitted + t.confirmed + t.noPending + t.failed + t.flagged + t.errors + t.noop
  }

  /** A pass over the rows read at its start, with what each visit meets. */
  function Pass(claims: seq<Claim>, rows: seq<Snapshot>, envs: seq<Env>, max: nat): (r: seq<Claim>)
    requires |rows| == |envs| && forall k :: 0 <= k < |rows| ==> rows[k].id < |claims|
    ensures |r| == |claims|
  {
    if rows == [] then claims
    else Visit(Pass(claims, rows[..|rows| - 1], envs[..|rows| - 1], max), rows[|rows| - 1], envs[|rows| - 1], max).0
  }

  /** How each visit of a pass is counted. */
  function Verdicts(claims: seq<Claim>, rows: seq<Snapshot>, envs: seq<Env>, max: nat): (r: seq<Verdict>)
    requires |rows| == |envs| && forall k :: 0 <= k < |rows| ==> rows[k].id < |claims|
    ensures |r| == |rows|
  {
    if rows == [] then []
    else
      var n := |rows| - 1;
      Verdicts(claims, rows[..n], envs[..n], max)
        + [Visit(Pass(claims, rows[..n], envs[..n], max), rows[n], envs[n], max).1]
  }

  lemma OneMoreVisit(claims: seq<Claim>, rows: seq<Snapshot>, envs: seq<Env>, max: nat, i: nat)
    requires |rows| == |envs| && i < |rows| && forall k :: 0 <= k < |rows| ==> rows[k].id < |claims|
    ensures var before := Pass(claims, rows[..i], envs[..i], max);
            var visit := Visit(before, rows[i], envs[i], max);
            && Pass(claims, rows[..i + 1], envs[..i + 1], max) == visit.0
            && Verdicts(claims, rows[..i + 1], envs[..i + 1], max) == Verdicts(claims, rows[..i], envs[..i], max) + [visit.1]
  {
    assert rows[..i + 1][..i] == rows[..i] && envs[..i + 1][..i] == envs[..i];
  }

  function CountOf(verdicts: seq<Verdict>, v: Verdict): nat {
    if verdicts == [] then 0
    else CountOf(verdicts[..|verdicts| - 1], v) + if verdicts[|verdicts| - 1] == v then 1 else 0
  }

  /** Each counter is the number of visits with its verdict. */
  predicate Tallies(t: Tally, verdicts: seq<Verdict>) {
    && t.checked == |verdicts|
    && t.submitted == CountOf(verdicts, WasSubmitted) && t.confirmed == CountOf(verdicts, WasConfirmed)
    && t.noPending == CountOf(verdicts, WasNoPending) && t.failed == CountOf(verdicts, WasFailed)
    && t.flagged == CountOf(verdicts, WasFlagged) && t.errors == CountOf(verdicts, WasError)
    && t.noop == CountOf(verdicts, WasNoop)
  }

  lemma CountAppend(verdicts: seq<Verdict>, last: Verdict, v: Verdict)
    ensures CountOf(verdicts + [last], v) == CountOf(verdicts, v) + if last == v then 1 else 0
  {
    assert (verdicts + [last])[..|verdicts|] == verdicts;
  }

  lemma {:induction false} VerdictsAddUp(verdicts: seq<Verdict>)
    ensures |verdicts| == CountOf(verdicts, WasSubmitted) + CountOf(verdicts, WasConfirmed)
                          + CountOf(verdicts, WasNoPending) + CountOf(verdicts, WasFailed)
                          + CountOf(verdicts, WasFlagged) + CountOf(verdicts, WasError) + CountOf(verdicts, WasNoop)
  {
    if verdicts != [] {
      VerdictsAddUp(verdicts[..|verdicts| - 1]);
    }
  }

  lemma TalliesBalance(t: Tally, verdicts: seq<Verdict>)
    requires Tallies(t, verdicts)
    ensures Balanced(t) && t.checked == |verdicts|
  {
    VerdictsAddUp(verdicts);
  }

  function Counted(t: Tally, v: Verdict): Tally {
    var t := t.(checked := t.checked + 1);
    match v
    case WasSubmitted => t.(submitted := t.submitted + 1)
    case WasConfirmed => t.(confirmed := t.confirmed + 1)
    case WasNoPending => t.(noPending := t.noPending + 1)
    case WasFailed => t.(failed := t.failed + 1)
    case WasFlagged => t.(flagged := t.flagged + 1)
    case WasError => t.(errors := t.errors + 1)
    case WasNoop => t.(noop := t.noop + 1)
  }

  lemma CountedTallies(t: Tally, verdicts: seq<Verdict>, v: Verdict)
    requires Tallies(t, verdicts)
    ensures Tallies(Counted(t, v), verdicts + [v])
  {
    forall w ensures CountOf(verdicts + [v], w) == CountOf(verdicts, w) + if v == w then 1 else 0 {
      CountAppend(verdicts, v, w);
    }
  }

  class PayoutReconciliationService {
    var claims: seq<Claim>

    constructor ()
      ensures claims == []
    {
      claims := [];
    }

    method ClaimWinnings(wallet: string, chain: ChainClaim, writes: Writes, now: int) returns (reply: Reply)
      modifies this
      ensures (claims, reply) == UserClaim(old(claims), wallet, chain, writes, now)
    {
      var open := FirstOpen(claims, wallet);
      if open.Some? && claims[open.value].status.Submitted? {
        return AlreadySubmitted(open.value);
      }
      if chain.Paid? && writes.first {
        if open.None? {
          claims := claims + [Claim(wallet, Submitted, chain.txHash, Some(chain.amount), 0, now)];
        } else if claims[open.value].status.Pending? || claims[open.value].status.Failed? {
          claims := claims[open.value := AsSubmitted(claims[open.value], chain)];
        }
        return Claimed(chain.amount, chain.txHash);
      }
      // Both a rejected call and a submission that could not be recorded end up here.
      if writes.second {
        claims := RecordFailure(claims, wallet, open, now);
      }
      reply := Threw;
    }

    method VisitRow(row: Snapshot, env: Env, max: nat) returns (verdict: Verdict)
      requires row.id < |claims|
      modifies this
      ensures (claims, verdict) == Visit(old(claims), row, env, max) && |claims| == old(|claims|)
    {
      if row.status.Submitted? {
        var r := ReconcileSubmitted(claims, row, env, max);
        claims, verdict := r.0, r.1;
        return;
      }
      var owed := PendingWinnings(env.read);
      if owed.None? { return WasError; }
      if owed.value == 0 {
        var r := MarkConfirmed(claims, row, true, env.writes.first);
        claims, verdict := r.0, r.1;
        return;
      }
      if OtherInFlight(claims, row.id) { return WasNoop; }
      if env.chain.Paid? && env.writes.first {
        var current := claims[row.id];
        if !current.status.Pending? && !current.status.Failed? { return WasNoop; }
        var txHash := env.chain.txHash;
        if txHash.None? { txHash := row.txHash; }
        claims := claims[row.id := current.(status := Submitted, txHash := txHash, amount := Some(env.chain.amount))];
        return WasSubmitted;
      }
      var r := RecordFailedAttempt(claims, row, max, env.writes.second);
      claims, verdict := r.0, r.1;
    }

    method ReconcilePendingPayouts(rows: seq<Snapshot>, envs: seq<Env>, max: nat) returns (t: Tally)
      requires |rows| == |envs| && forall k :: 0 <= k < |rows| ==> rows[k].id < |claims|
      modifies this
      ensures claims == Pass(old(claims), rows, envs, max)
      ensures t.checked == |rows| && Balanced(t) && Tallies(t, Verdicts(old(claims), rows, envs, max))
    {
      ghost var start := claims;
      t := Tally(0, 0, 0, 0, 0, 0, 0, 0);
      assert Tallies(t, []) && Pass(claims, [], [], max) == claims && Verdicts(claims, [], [], max) == [];
      hide Tallies, CountOf, Visit, Pass, Verdicts, Balanced;
      for i := 0 to |rows|
        invariant |claims| == |start|
        invariant claims == Pass(start, rows[..i], envs[..i], max)
        invariant Tallies(t, Verdicts(start, rows[..i], envs[..i], max))
      {
        ghost var before := t;
        t := t.(checked := t.checked + 1);
        var verdict := VisitRow(rows[i], envs[i], max);
        match verdict {
          case WasSubmitted => t := t.(submitted := t.submitted + 1);
          case WasConfirmed => t := t.(confirmed := t.confirmed + 1);
          case WasNoPending => t := t.(noPending := t.noPending + 1);
          case WasFailed => t := t.(failed := t.failed + 1);
          case WasFlagged => t := t.(flagged := t.flagged + 1);
          case WasError => t := t.(errors := t.errors + 1);
          case WasNoop => t := t.(noop := t.noop + 1);
        }
        assert t == Counted(before, verdict);
        CountedTallies(before, Verdicts(start, rows[..i], envs[..i], max), verdict);
        OneMoreVisit(start, rows, envs, max, i);
      }
      assert rows[..|rows|] == rows && envs[..|rows|] == envs;
      TalliesBalance(t, Verdicts(start, rows, envs, max));
    }
  }

  // ---------------------------------------------------------------------------
  // Runs
  // ---------------------------------------------------------------------------

  datatype Op =
    | OpUser(wallet: string, chain: ChainClaim, writes: Writes, now: int)
    | OpQueue(wallet: string, settledAt: int, now: int)
    | OpVisit(row: Snapshot, env: Env, max: nat)

  function Apply(claims: seq<Claim>, op: Op): seq<Claim> {
    match op
    case OpUser(wallet, chain, writes, now) => UserClaim(claims, wallet, chain, writes, now).0
    case OpQueue(wallet, settledAt, now) => Queue(claims, wallet, settledAt, now)
    case OpVisit(row, env, max) => if row.id < |claims| then Visit(claims, row, env, max).0 else claims
  }

  function Run(ops: seq<Op>): seq<Claim> {
    if ops == [] then [] else Apply(Run(ops[..|ops| - 1]), ops[|ops| - 1])
  }

  predicate OneOpen(claims: seq<Claim>) {
    forall i, j :: 0 <= i < j < |claims| && claims[i].wallet == claims[j].wallet ==>
      !(Open(claims[i].status) && Open(claims[j].status))
  }

  /** One operation appends a row to a wallet without an open one, or rewrites an open row in place. */
  lemma OneRowChanges(claims: seq<Claim>, op: Op)
    ensures var after := Apply(claims, op);
            || after == claims
            || (|after| == |claims| + 1 && after[..|claims|] == claims
                && FirstOpen(claims, after[|claims|].wallet).None?)
            || (|after| == |claims|
                && exists i :: 0 <= i < |claims| && Open(claims[i].status) && after[i].wallet == claims[i].wallet
                     && after == claims[i := after[i]])
  {
    var after := Apply(claims, op);
    match op {
      case OpUser(wallet, chain, writes, now) =>
        var open := FirstOpen(claims, wallet);
        if open.Some? && after != claims { assert after == claims[open.value := after[open.value]]; }
      case OpQueue(_, _, _) =>
      case OpVisit(row, env, max) =>
        if after != claims { assert after == claims[row.id := after[row.id]]; }
    }
  }

  lemma StepKeepsOneOpen(claims: seq<Claim>, op: Op)
    requires OneOpen(claims)
    ensures OneOpen(Apply(claims, op))
  {
    var after := Apply(claims, op);
    OneRowChanges(claims, op);
    if |after| == |claims| + 1 {
      assert forall i :: 0 <= i < |claims| ==> after[i] == claims[i] && !OpenFor(claims[i], after[|claims|].wallet);
    } else if after != claims {
      var i :| 0 <= i < |claims| && Open(claims[i].status) && after[i].wallet == claims[i].wallet
               && after == claims[i := after[i]];
    }
  }

  /**
   At most one open claim per wallet, over every run of user requests, sweeps and
   worker visits that do not overlap, however stale the worker's snapshots are.
   */
  lemma {:induction false} AtMostOneOpenClaim(ops: seq<Op>)
    ensures OneOpen(Run(ops))
  {
    if ops != [] {
      AtMostOneOpenClaim(ops[..|ops| - 1]);
      StepKeepsOneOpen(Run(ops[..|ops| - 1]), ops[|ops| - 1]);
    }
  }

  predicate Submits(claims: seq<Claim>, op: Op) {
    match op
    case OpUser(wallet, _, _, _) => UserSubmits(claims, wallet)
    case OpQueue(_, _, _) => false
    case OpVisit(row, env, _) => WorkerSubmits(claims, row, env)
  }

  function WalletOf(claims: seq<Claim>, op: Op): string {
    match op
    case OpUser(wallet, _, _, _) => wallet
    case OpQueue(wallet, _, _) => wallet
    case OpVisit(row, _, _) => if row.id < |claims| then claims[row.id].wallet else ""
  }

  /**
   The ledger promises that a wallet with a claim in flight is never submitted
   again. As long as operations do not overlap, user requests keep that promise;
   the worker breaks it exactly when the row it holds as PENDING or FAILED has
   become SUBMITTED since it was read, for its check leaves out the row itself, and
   the winnings still read as owed.
   */
  lemma SubmissionOverInFlightIff(ops: seq<Op>, op: Op)
    ensures var claims := Run(ops);
            Submits(claims, op) && InFlight(claims, WalletOf(claims, op)) <==>
              && op.OpVisit? && op.row.id < |claims|
              && !op.row.status.Submitted? && claims[op.row.id].status.Submitted?
              && PendingWinnings(op.env.read).Some? && PendingWinnings(op.env.read).value > 0
  {
    AtMostOneOpenClaim(ops);
    var claims := Run(ops);
    var wallet := WalletOf(claims, op);
    if op.OpUser? && UserSubmits(claims, wallet) && InFlight(claims, wallet) {
      var i :| 0 <= i < |claims| && claims[i].wallet == wallet && claims[i].status.Submitted?;
      OnlyOpen(claims, wallet, i);
      assert false;
    }
  }

  /**
   In any table with at most one open claim per wallet, a user's claim that the
   chain accepted is submitted again by the same user's next request exactly when it
   could not be recorded: the failed write is handled like a rejected call, which
   leaves the row FAILED or writes nothing.
   */
  lemma AcceptedClaimIsResubmittedIff(claims: seq<Claim>, wallet: string, chain: ChainClaim, writes: Writes, now: int)
    requires OneOpen(claims) && UserSubmits(claims, wallet) && chain.Paid?
    ensures UserSubmits(UserClaim(claims, wallet, chain, writes, now).0, wallet) <==> !writes.first
  {
    var after := UserClaim(claims, wallet, chain, writes, now).0;
    StepKeepsOneOpen(claims, OpUser(wallet, chain, writes, now));
    var open := FirstOpen(claims, wallet);
    var id := if open.Some? then open.value else |claims|;
    if id < |after| {
      assert OpenFor(after[id], wallet);
      OnlyOpen(after, wallet, id);
    }
  }

  lemma OnlyOpen(claims: seq<Claim>, wallet: string, id: nat)
    requires OneOpen(claims) && id < |claims| && OpenFor(claims[id], wallet)
    ensures FirstOpen(claims, wallet) == Some(id)
  {
    var first := FirstOpen(claims, wallet);
    assert first.Some? && first.value <= id;
    assert claims[first.value].wallet == claims[id].wallet;
  }

  /** The visit asks for the winnings, not for the status of a transaction. */
  predicate ReadsWinnings(row: Snapshot) {
    !row.status.Submitted? || !HasHash(row)
  }

  /**
   What a visit needs in order to turn its row CONFIRMED while the wallet is owed: a
   winnings read that failed, for a failed call reads as zero; or, for a SUBMITTED
   row with a hash, a transaction that succeeded.
   */
  predicate Confirms(status: ClaimStatus, row: Snapshot, env: Env) {
    && env.writes.first && Open(status)
    && (if ReadsWinnings(row) then env.read.CallFailed? else env.chainStatus.Succeeded?)
  }

  /** A read of the winnings that goes through tells what the wallet is owed, and it is owed something. */
  predicate Owing(read: WinningsRead) {
    read.Owed? ==> read.stroops > 0
  }

  lemma VisitWritesItsRow(claims: seq<Claim>, row: Snapshot, env: Env, max: nat)
    requires row.id < |claims|
    ensures var after := Visit(claims, row, env, max).0;
            |after| == |claims| && after == claims[row.id := after[row.id]] && after[row.id].wallet == claims[row.id].wallet
  {
    var after := Visit(claims, row, env, max).0;
    assert forall i :: 0 <= i < |claims| && i != row.id ==> after[i] == claims[i];
  }

  /**
   A visit to any row of a wallet that is owed turns it CONFIRMED exactly then; it is
   counted as owed nothing if the row was read as PENDING or FAILED, and as confirmed
   if it was read as SUBMITTED, with or without a hash.
   */
  lemma ClosedWhileOwedIff(claims: seq<Claim>, row: Snapshot, env: Env, max: nat)
    requires row.id < |claims| && Owing(env.read)
    ensures var (after, verdict) := Visit(claims, row, env, max);
            && |after| == |claims|
            && (!claims[row.id].status.Confirmed? && after[row.id].status.Confirmed? <==>
                  Confirms(claims[row.id].status, row, env))
            && (verdict.WasNoPending? <==> Confirms(claims[row.id].status, row, env) && !row.status.Submitted?)
            && (verdict.WasConfirmed? <==> Confirms(claims[row.id].status, row, env) && row.status.Submitted?)
  {
  }

  /**
   And so over a whole pass, whose query returns each row once: the rows of owed
   wallets that end it CONFIRMED and did not start so are those whose own visit had
   what it needed, judged by the rows as they stood before the pass.
   */
  lemma {:induction false} PassClosesWhileOwedIff(
      claims: seq<Claim>, rows: seq<Snapshot>, envs: seq<Env>, max: nat, id: nat)
    requires |rows| == |envs| && forall k :: 0 <= k < |rows| ==> rows[k].id < |claims|
    requires forall j, k :: 0 <= j < k < |rows| ==> rows[j].id != rows[k].id
    requires id < |claims| && forall k :: 0 <= k < |rows| && rows[k].id == id ==> Owing(envs[k].read)
    ensures !claims[id].status.Confirmed? && Pass(claims, rows, envs, max)[id].status.Confirmed? <==>
            exists k :: 0 <= k < |rows| && rows[k].id == id && Confirms(claims[id].status, rows[k], envs[k])
    ensures (forall k :: 0 <= k < |rows| ==> rows[k].id != id) ==> Pass(claims, rows, envs, max)[id] == claims[id]
  {
    if rows != [] {
      var n := |rows| - 1;
      var before := Pass(claims, rows[..n], envs[..n], max);
      PassClosesWhileOwedIff(claims, rows[..n], envs[..n], max, id);
      VisitWritesItsRow(before, rows[n], envs[n], max);
      if rows[n].id == id {
        ClosedWhileOwedIff(before, rows[n], envs[n], max);
      } else {
        LastVisitIsElsewhere(claims, rows, envs, id);
      }
    }
  }

  lemma LastVisitIsElsewhere(claims: seq<Claim>, rows: seq<Snapshot>, envs: seq<Env>, id: nat)
    requires |rows| == |envs| > 0 && id < |claims| && rows[|rows| - 1].id != id
    ensures var n := |rows| - 1;
            (exists k :: 0 <= k < |rows| && rows[k].id == id && Confirms(claims[id].status, rows[k], envs[k])) <==>
            (exists k :: 0 <= k < n && rows[..n][k].id == id && Confirms(claims[id].status, rows[..n][k], envs[..n][k]))
  {
    var n := |rows| - 1;
    if k :| 0 <= k < |rows| && rows[k].id == id && Confirms(claims[id].status, rows[k], envs[k]) {
      assert rows[..n][k].id == id && Confirms(claims[id].status, rows[..n][k], envs[..n][k]);
    }
    if k :| 0 <= k < n && rows[..n][k].id == id && Confirms(claims[id].status, rows[..n][k], envs[..n][k]) {
      assert rows[k].id == id && Confirms(claims[id].status, rows[k], envs[k]);
    }
  }
}
