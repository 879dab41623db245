/**
 The money side of a prediction: the database transactions of
 prediction.service.ts, of the reconciler and of round settlement, each one
 atomic. Chain calls, request handlers and sweeps on any number of replicas only
 ever reach the money through these transactions, so a property kept by every
 sequence of them holds in every interleaving.

 Tables are sequences and a row's id is its index. Cell 0 of an UP_DOWN round is
 its UP pool and cell 1 its DOWN pool; cell k of a LEGENDS round is the pool of
 its k-th price range.
 */
module PredictionLedger {
  import opened Wrappers
  import opened Sums

  datatype Mode = UpDown | Legends

  datatype RoundStatus = Active | Locked | Resolved | Cancelled

  datatype Round = Round(mode: Mode, status: RoundStatus, sorobanId: Option<string>, pools: seq<real>)

  datatype User = User(balance: real, wallet: Option<string>)

  datatype ChainStatus = NotRequired | Pending | Submitted | Confirmed | Failed | NeedsManualReview

  /** `reservations` and `refunds` are history counters, not columns. */
  datatype Prediction = Prediction(
    user: nat,
    round: nat,
    cell: nat,
    amount: real,
    status: ChainStatus,
    txHash: Option<string>,
    attempts: int,
    compensated: bool,
    payout: Option<real>,
    createdAt: int,
    reservations: nat,
    refunds: nat)

  datatype Db = Db(users: seq<User>, rounds: seq<Round>, preds: seq<Prediction>)

  datatype ReserveError =
    | RoundNotFound
    | RoundNotActive
    | BeingProcessed
    | UnderReview
    | Duplicate
    | InvalidChoice
    | UserNotFound
    | InsufficientBalance

  datatype Reservation = Reserved(db: Db, id: nat) | Rejected(error: ReserveError)

  predicate Open(p: Prediction) {
    p.status.Pending? || p.status.Submitted?
  }

  /** The rows that settlement, statistics and the leaderboard read. */
  predicate Eligible(p: Prediction) {
    p.status.Confirmed? || p.status.NotRequired?
  }

  /** The row of (round, user), which the schema makes unique. */
  function FindRow(preds: seq<Prediction>, round: nat, user: nat): (r: Option<nat>)
    ensures r.Some? ==> r.value < |preds| && preds[r.value].round == round && preds[r.value].user == user
    ensures r.None? ==> forall k :: 0 <= k < |preds| ==> !(preds[k].round == round && preds[k].user == user)
  {
    if preds == [] then None
    else
      var n := |preds| - 1;
      if preds[n].round == round && preds[n].user == user then Some(n) else FindRow(preds[..n], round, user)
  }

  /**
   Phase 1 of a submission. `cell` is the side or range that was asked for,
   absent when it was missing or matched no range of the round.
   */
  function Reserve(db: Db, user: nat, round: nat, cell: Option<nat>, amount: real, now: int): Reservation {
    if round >= |db.rounds| then Rejected(RoundNotFound)
    else
      var rd := db.rounds[round];
      var existing := FindRow(db.preds, round, user);
      if !rd.status.Active? then Rejected(RoundNotActive)
      else if existing.Some? && Open(db.preds[existing.value]) then Rejected(BeingProcessed)
      else if existing.Some? && db.preds[existing.value].status.NeedsManualReview? then Rejected(UnderReview)
      else if existing.Some? && Eligible(db.preds[existing.value]) then Rejected(Duplicate)
      else if cell.None? || cell.value >= |rd.pools| then Rejected(InvalidChoice)
      else if user >= |db.users| then Rejected(UserNotFound)
      else if db.users[user].balance < amount then Rejected(InsufficientBalance)
      else
        var c := cell.value;
        var target := if rd.mode.Legends? then NotRequired else Pending;
        var users := db.users[user := db.users[user].(balance := db.users[user].balance - amount)];
        var rounds := db.rounds[round := rd.(pools := rd.pools[c := rd.pools[c] + amount])];
        if existing.Some? then
          var prior := db.preds[existing.value];
          var row := prior.(cell := c, amount := amount, status := target, txHash := None, attempts := 0,
                          compensated := false, payout := None, reservations := prior.reservations + 1);
          Reserved(Db(users, rounds, db.preds[existing.value := row]), existing.value)
        else
          var row := Prediction(user, round, c, amount, target, None, 0, false, None, now, 1, 0);
          Reserved(Db(users, rounds, db.preds + [row]), |db.preds|)
  }

  /** The row write of `finalizeChainSuccess`; an absent hash leaves the column alone. */
  function Finalize(db: Db, p: nat, hash: Option<string>): Db {
    if p >= |db.preds| || !db.preds[p].status.Pending? then db
    else
      var row := db.preds[p];
      db.(preds := db.preds[p := row.(status := Confirmed, attempts := 1,
                                      txHash := if hash.Some? then hash else row.txHash)])
  }

  /** The unconditional write `handleChainFailure` makes after an ambiguous timeout. */
  function MarkSubmitted(db: Db, p: nat): Db {
    if p >= |db.preds| then db else db.(preds := db.preds[p := db.preds[p].(status := Submitted)])
  }

  /** `compensatePrediction`: refund and pool decrement, guarded by `compensatedAt`. */
  function Compensate(db: Db, p: nat): Db
    requires WellFormed(db)
  {
    if p >= |db.preds| || !(Open(db.preds[p]) || db.preds[p].status.Failed?) || db.preds[p].compensated then db
    else
      var row := db.preds[p];
      var user := db.users[row.user];
      var rd := db.rounds[row.round];
      Db(db.users[row.user := user.(balance := user.balance + row.amount)],
         if rd.mode.UpDown?
         then db.rounds[row.round := rd.(pools := rd.pools[row.cell := rd.pools[row.cell] - row.amount])]
         else db.rounds,
         db.preds[p := row.(status := Failed, compensated := true, refunds := row.refunds + 1)])
  }

  function BumpAttempts(db: Db, p: nat): Db {
    if p >= |db.preds| then db
    else db.(preds := db.preds[p := db.preds[p].(attempts := db.preds[p].attempts + 1)])
  }

  function FlagForReview(db: Db, p: nat): Db {
    if p >= |db.preds| then db else db.(preds := db.preds[p := db.preds[p].(status := NeedsManualReview)])
  }

  function LockRound(db: Db, round: nat): Db {
    if round >= |db.rounds| || !db.rounds[round].status.Active? then db
    else db.(rounds := db.rounds[round := db.rounds[round].(status := Locked)])
  }

  /** What the final price decides: everyone gets the stake back, or one cell wins. */
  datatype Decision = RefundAll | Wins(cell: nat)

  ghost function PoolTotal(rd: Round): real {
    Sum(rd.pools, (x: real) => x)
  }

  /** The payout of an eligible row, absent when settlement leaves the row untouched. */
  ghost function PayoutOf(rd: Round, d: Decision, p: Prediction): Option<real> {
    match d
    case RefundAll => Some(p.amount)
    case Wins(cell) =>
      var pool := if cell < |rd.pools| then rd.pools[cell] else 0.0;
      if pool == 0.0 then (if rd.mode.UpDown? then None else Some(0.0))
      else if p.cell == cell then Some(p.amount + p.amount / pool * (PoolTotal(rd) - pool))
      else Some(0.0)
  }

  ghost function SettledRow(rd: Round, round: nat, d: Decision, p: Prediction): Prediction {
    if p.round == round && Eligible(p) && PayoutOf(rd, d, p).Some? then p.(payout := PayoutOf(rd, d, p)) else p
  }

  /** What user `u` is paid when `round` settles. */
  ghost function Payment(rd: Round, round: nat, d: Decision, u: nat): Prediction -> real {
    (p: Prediction) =>
      if p.user == u && p.round == round && Eligible(p) && PayoutOf(rd, d, p).Some?
      then PayoutOf(rd, d, p).value else 0.0
  }

  /**
   `resolveRound`: only a LOCKED round settles, and all of its writes to these tables
   commit together. The bets it resolves on the way are written apart (SettledBets).
   */
  ghost function Settle(db: Db, round: nat, d: Decision): Db {
    if round >= |db.rounds| || !db.rounds[round].status.Locked? then db
    else
      var rd := db.rounds[round];
      Db(seq(|db.users|, u requires 0 <= u < |db.users| =>
               db.users[u].(balance := db.users[u].balance + Sum(db.preds, Payment(rd, round, d, u)))),
         db.rounds[round := rd.(status := Resolved)],
         seq(|db.preds|, k requires 0 <= k < |db.preds| => SettledRow(rd, round, d, db.preds[k])))
  }

  // ---------------------------------------------------------------------------
  // Well-formed tables
  // ---------------------------------------------------------------------------

  predicate RowWellFormed(users: seq<User>, rounds: seq<Round>, p: Prediction) {
    && p.user < |users|
    && p.round < |rounds|
    && p.cell < |rounds[p.round].pools|
    && (p.status.Failed? ==> p.compensated)
    && (p.status.Pending? ==> !p.compensated)
    && (Eligible(p) ==> !p.compensated)
    && (p.status.NotRequired? <==> rounds[p.round].mode.Legends?)
    && (p.payout.Some? ==> rounds[p.round].status.Resolved?)
    && p.reservations == p.refunds + (if p.compensated then 0 else 1)
  }

  predicate WellFormed(db: Db) {
    && (forall k :: 0 <= k < |db.preds| ==> RowWellFormed(db.users, db.rounds, db.preds[k]))
    && (forall j, k :: 0 <= j < k < |db.preds| ==>
          !(db.preds[j].user == db.preds[k].user && db.preds[j].round == db.preds[k].round))
  }

  // ---------------------------------------------------------------------------
  // Runs
  // ---------------------------------------------------------------------------

  datatype Op =
    | OpReserve(user: nat, round: nat, cell: Option<nat>, amount: real, now: int)
    | OpFinalize(pred: nat, hash: Option<string>)
    | OpMarkSubmitted(pred: nat)
    | OpCompensate(pred: nat)
    | OpBump(pred: nat)
    | OpFlag(pred: nat)
    | OpLock(round: nat)
    | OpSettle(round: nat, decision: Decision)

  /** Only UP_DOWN rows are ever handed to the chain and so to these three writes. */
  predicate OnChain(db: Db, p: nat) {
    p < |db.preds| && db.preds[p].round < |db.rounds| && db.rounds[db.preds[p].round].mode.UpDown?
  }

  ghost function Apply(db: Db, op: Op): Db
    requires WellFormed(db)
  {
    match op
    case OpReserve(u, r, c, a, now) =>
      var res := Reserve(db, u, r, c, a, now);
      if res.Reserved? then res.db else db
    case OpFinalize(p, hash) => Finalize(db, p, hash)
    case OpMarkSubmitted(p) => if OnChain(db, p) then MarkSubmitted(db, p) else db
    case OpCompensate(p) => Compensate(db, p)
    case OpBump(p) => if OnChain(db, p) then BumpAttempts(db, p) else db
    case OpFlag(p) => if OnChain(db, p) then FlagForReview(db, p) else db
    case OpLock(r) => LockRound(db, r)
    case OpSettle(r, d) => Settle(db, r, d)
  }

  /** Round tables that differ in nothing a row's well-formedness looks at. */
  predicate SameShape(before: seq<Round>, after: seq<Round>) {
    |before| == |after| &&
    forall r :: 0 <= r < |before| ==>
      && before[r].mode == after[r].mode
      && |before[r].pools| == |after[r].pools|
      && (before[r].status.Resolved? ==> after[r].status.Resolved?)
  }

  lemma RewriteRowKeepsWellFormed(db: Db, users: seq<User>, rounds: seq<Round>, p: nat, row: Prediction)
    requires WellFormed(db) && p < |db.preds|
    requires |users| == |db.users| && SameShape(db.rounds, rounds)
    requires row.user == db.preds[p].user && row.round == db.preds[p].round
    requires RowWellFormed(users, rounds, row)
    ensures WellFormed(Db(users, rounds, db.preds[p := row]))
  {
    var preds := db.preds[p := row];
    forall k | 0 <= k < |preds| ensures RowWellFormed(users, rounds, preds[k]) {
      assert RowWellFormed(db.users, db.rounds, db.preds[k]);
    }
    forall j, k | 0 <= j < k < |preds|
      ensures !(preds[j].user == preds[k].user && preds[j].round == preds[k].round)
    {
      assert !(db.preds[j].user == db.preds[k].user && db.preds[j].round == db.preds[k].round);
    }
  }

  lemma ReserveKeepsWellFormed(db: Db, user: nat, round: nat, cell: Option<nat>, amount: real, now: int)
    requires WellFormed(db)
    ensures var res := Reserve(db, user, round, cell, amount, now);
            res.Reserved? ==>
              && WellFormed(res.db)
              && |res.db.users| == |db.users| && SameShape(db.rounds, res.db.rounds)
              && res.id < |res.db.preds| && |db.preds| <= |res.db.preds|
  {
    var res := Reserve(db, user, round, cell, amount, now);
    if res.Reserved? {
      if res.id < |db.preds| {
        assert RowWellFormed(db.users, db.rounds, db.preds[res.id]);
        RewriteRowKeepsWellFormed(db, res.db.users, res.db.rounds, res.id, res.db.preds[res.id]);
      } else {
        forall k | 0 <= k < |res.db.preds| ensures RowWellFormed(res.db.users, res.db.rounds, res.db.preds[k]) {
          if k < |db.preds| {
            assert RowWellFormed(db.users, db.rounds, db.preds[k]);
          }
        }
      }
    }
  }

  lemma CompensateKeepsWellFormed(db: Db, p: nat)
    requires WellFormed(db)
    ensures var db' := Compensate(db, p);
            WellFormed(db') && |db'.users| == |db.users| && SameShape(db.rounds, db'.rounds) && |db'.preds| == |db.preds|
  {
    var db' := Compensate(db, p);
    if db' != db {
      assert RowWellFormed(db.users, db.rounds, db.preds[p]);
      RewriteRowKeepsWellFormed(db, db'.users, db'.rounds, p, db'.preds[p]);
    }
  }

  lemma RowWriteKeepsWellFormed(db: Db, op: Op)
    requires WellFormed(db)
    requires op.OpFinalize? || op.OpMarkSubmitted? || op.OpBump? || op.OpFlag?
    ensures var db' := Apply(db, op);
            WellFormed(db') && db'.users == db.users && db'.rounds == db.rounds && |db'.preds| == |db.preds|
  {
    var db' := Apply(db, op);
    if op.pred < |db.preds| {
      assert RowWellFormed(db.users, db.rounds, db.preds[op.pred]);
      RewriteRowKeepsWellFormed(db, db.users, db.rounds, op.pred, db'.preds[op.pred]);
    }
  }

  lemma SettleKeepsWellFormed(db: Db, round: nat, d: Decision)
    requires WellFormed(db)
    ensures var db' := Settle(db, round, d);
            WellFormed(db') && |db'.users| == |db.users| && SameShape(db.rounds, db'.rounds) && |db'.preds| == |db.preds|
  {
    var db' := Settle(db, round, d);
    forall k | 0 <= k < |db'.preds| ensures RowWellFormed(db'.users, db'.rounds, db'.preds[k]) {
      assert RowWellFormed(db.users, db.rounds, db.preds[k]);
    }
  }

  lemma LockKeepsWellFormed(db: Db, round: nat)
    requires WellFormed(db)
    ensures var db' := LockRound(db, round);
            WellFormed(db') && db'.users == db.users && db'.preds == db.preds && SameShape(db.rounds, db'.rounds)
  {
    var db' := LockRound(db, round);
    forall k | 0 <= k < |db'.preds| ensures RowWellFormed(db'.users, db'.rounds, db'.preds[k]) {
      assert RowWellFormed(db.users, db.rounds, db.preds[k]);
    }
  }

  lemma ApplyKeepsWellFormed(db: Db, op: Op)
    requires WellFormed(db)
    ensures var db' := Apply(db, op);
            && WellFormed(db')
            && |db'.users| == |db.users|
            && SameShape(db.rounds, db'.rounds)
            && |db.preds| <= |db'.preds|
  {
    match op
    case OpReserve(u, r, c, a, now) => ReserveKeepsWellFormed(db, u, r, c, a, now);
    case OpCompensate(p) => CompensateKeepsWellFormed(db, p);
    case OpSettle(r, d) => SettleKeepsWellFormed(db, r, d);
    case OpLock(r) => LockKeepsWellFormed(db, r);
    case _ => RowWriteKeepsWellFormed(db, op);
  }

  ghost function Run(db: Db, ops: seq<Op>): (r: Db)
    requires WellFormed(db)
    ensures WellFormed(r) && |r.users| == |db.users| && |r.rounds| == |db.rounds|
    decreases |ops|
  {
    if ops == [] then db
    else
      ApplyKeepsWellFormed(db, ops[0]);
      Run(Apply(db, ops[0]), ops[1..])
  }

  lemma {:induction false} RunAppend(db: Db, first: seq<Op>, second: seq<Op>)
    requires WellFormed(db)
    ensures Run(db, first + second) == Run(Run(db, first), second)
    decreases |first|
  {
    if first == [] {
      assert first + second == second;
    } else {
      ApplyKeepsWellFormed(db, first[0]);
      assert (first + second)[1..] == first[1..] + second;
      RunAppend(Apply(db, first[0]), first[1..], second);
    }
  }

  lemma RunTwo(db: Db, a: Op, b: Op)
    requires WellFormed(db)
    ensures WellFormed(Apply(db, a)) && Run(db, [a, b]) == Apply(Apply(db, a), b)
  {
    ApplyKeepsWellFormed(db, a);
    ApplyKeepsWellFormed(Apply(db, a), b);
    assert [a, b][1..] == [b] && [b][1..] == [];
    assert Run(Apply(db, a), [b]) == Apply(Apply(db, a), b);
  }

  // ---------------------------------------------------------------------------
  // Conservation
  // ---------------------------------------------------------------------------

  /** What a row still owes its user: the stake it holds less the payout it made. */
  ghost function Claim(u: nat): Prediction -> real {
    (p: Prediction) =>
      if p.user != u then 0.0
      else (if p.compensated then 0.0 else p.amount) - (if p.payout.Some? then p.payout.value else 0.0)
  }

  /** The balance of user `u` plus every stake the user has out, less what settlements paid in. */
  ghost function Worth(db: Db, u: nat): real
    requires u < |db.users|
  {
    db.users[u].balance + Sum(db.preds, Claim(u))
  }

  /** The stake a row has in cell `c` of round `r`. */
  ghost function CellStake(r: nat, c: nat): Prediction -> real {
    (p: Prediction) => if p.round == r && p.cell == c && !p.compensated then p.amount else 0.0
  }

  /** What a pool holds beyond the uncompensated stakes placed in it. */
  ghost function Excess(db: Db, r: nat, c: nat): real
    requires r < |db.rounds| && c < |db.rounds[r].pools|
  {
    db.rounds[r].pools[c] - Sum(db.preds, CellStake(r, c))
  }

  lemma ReserveConserves(db: Db, user: nat, round: nat, cell: Option<nat>, amount: real, now: int, u: nat)
    requires WellFormed(db) && u < |db.users|
    ensures var res := Reserve(db, user, round, cell, amount, now);
            res.Reserved? ==> |res.db.users| == |db.users| && Worth(res.db, u) == Worth(db, u)
  {
    var res := Reserve(db, user, round, cell, amount, now);
    if res.Reserved? {
      var row := res.db.preds[res.id];
      if res.id < |db.preds| {
        assert RowWellFormed(db.users, db.rounds, db.preds[res.id]);
        SumUpdate(db.preds, res.id, row, Claim(u));
      } else {
        SumAppend(db.preds, row, Claim(u));
      }
    }
  }

  lemma RowOpConserves(db: Db, op: Op, u: nat)
    requires WellFormed(db) && u < |db.users|
    requires !op.OpReserve? && !op.OpSettle? && !op.OpLock?
    ensures |Apply(db, op).users| == |db.users| && Worth(Apply(db, op), u) == Worth(db, u)
  {
    var db' := Apply(db, op);
    if op.pred < |db.preds| {
      assert RowWellFormed(db.users, db.rounds, db.preds[op.pred]);
      SumUpdate(db.preds, op.pred, db'.preds[op.pred], Claim(u));
    }
  }

  lemma SettledRowClaim(rd: Round, round: nat, d: Decision, u: nat, p: Prediction)
    requires p.round == round ==> p.payout.None?
    ensures Claim(u)(SettledRow(rd, round, d, p)) == Claim(u)(p) - Payment(rd, round, d, u)(p)
  {
  }

  lemma SettleConserves(db: Db, round: nat, d: Decision, u: nat)
    requires WellFormed(db) && u < |db.users|
    ensures |Settle(db, round, d).users| == |db.users| && Worth(Settle(db, round, d), u) == Worth(db, u)
  {
    if round < |db.rounds| && db.rounds[round].status.Locked? {
      var db' := Settle(db, round, d);
      var rd := db.rounds[round];
      var paid := Payment(rd, round, d, u);
      forall k | 0 <= k < |db.preds| ensures Claim(u)(db'.preds[k]) == Claim(u)(db.preds[k]) - paid(db.preds[k]) {
        assert RowWellFormed(db.users, db.rounds, db.preds[k]);
        SettledRowClaim(rd, round, d, u, db.preds[k]);
      }
      SumDiff(db.preds, db'.preds, Claim(u), paid);
    }
  }

  lemma ApplyConserves(db: Db, op: Op, u: nat)
    requires WellFormed(db) && u < |db.users|
    ensures |Apply(db, op).users| == |db.users| && Worth(Apply(db, op), u) == Worth(db, u)
  {
    match op
    case OpReserve(user, r, c, a, now) => ReserveConserves(db, user, r, c, a, now, u);
    case OpSettle(r, d) => SettleConserves(db, r, d, u);
    case OpLock(_) =>
    case _ => RowOpConserves(db, op, u);
  }

  /** Over every run, a user's balance and stakes change only by what settlements paid. */
  lemma {:induction false} BalanceAndStakesConserved(db: Db, ops: seq<Op>, u: nat)
    requires WellFormed(db) && u < |db.users|
    ensures Worth(Run(db, ops), u) == Worth(db, u)
    decreases |ops|
  {
    if ops != [] {
      ApplyKeepsWellFormed(db, ops[0]);
      ApplyConserves(db, ops[0], u);
      BalanceAndStakesConserved(Apply(db, ops[0]), ops[1..], u);
    }
  }

  lemma ReserveKeepsExcess(db: Db, op: Op, r: nat, c: nat)
    requires WellFormed(db) && r < |db.rounds| && c < |db.rounds[r].pools|
    requires op.OpReserve? && SameShape(db.rounds, Apply(db, op).rounds)
    ensures Excess(Apply(db, op), r, c) == Excess(db, r, c)
  {
    var res := Reserve(db, op.user, op.round, op.cell, op.amount, op.now);
    if res.Reserved? {
      var row := res.db.preds[res.id];
      if res.id < |db.preds| {
        assert RowWellFormed(db.users, db.rounds, db.preds[res.id]);
        SumUpdate(db.preds, res.id, row, CellStake(r, c));
      } else {
        SumAppend(db.preds, row, CellStake(r, c));
      }
    }
  }

  lemma SettleKeepsExcess(db: Db, op: Op, r: nat, c: nat)
    requires WellFormed(db) && r < |db.rounds| && c < |db.rounds[r].pools|
    requires op.OpSettle? && SameShape(db.rounds, Apply(db, op).rounds)
    ensures Excess(Apply(db, op), r, c) == Excess(db, r, c)
  {
    if op.round < |db.rounds| && db.rounds[op.round].status.Locked? {
      var zero := (p: Prediction) => 0.0;
      SumDiff(db.preds, Apply(db, op).preds, CellStake(r, c), zero);
      SumZero(db.preds, zero);
    }
  }

  lemma ApplyKeepsExcess(db: Db, op: Op, r: nat, c: nat)
    requires WellFormed(db) && r < |db.rounds| && c < |db.rounds[r].pools|
    ensures SameShape(db.rounds, Apply(db, op).rounds)
    ensures Excess(Apply(db, op), r, c) == Excess(db, r, c)
  {
    ApplyKeepsWellFormed(db, op);
    match op
    case OpReserve(_, _, _, _, _) => ReserveKeepsExcess(db, op, r, c);
    case OpSettle(_, _) => SettleKeepsExcess(db, op, r, c);
    case OpLock(_) =>
    case _ =>
      if op.pred < |db.preds| {
        assert RowWellFormed(db.users, db.rounds, db.preds[op.pred]);
        SumUpdate(db.preds, op.pred, Apply(db, op).preds[op.pred], CellStake(r, c));
      }
  }

  /** Over every run, each pool moves exactly with the uncompensated stakes placed in it. */
  lemma {:induction false} PoolsBackedByStakes(db: Db, ops: seq<Op>, r: nat, c: nat)
    requires WellFormed(db) && r < |db.rounds| && c < |db.rounds[r].pools|
    ensures SameShape(db.rounds, Run(db, ops).rounds)
    ensures Excess(Run(db, ops), r, c) == Excess(db, r, c)
    decreases |ops|
  {
    if ops != [] {
      ApplyKeepsWellFormed(db, ops[0]);
      ApplyKeepsExcess(db, ops[0], r, c);
      PoolsBackedByStakes(Apply(db, ops[0]), ops[1..], r, c);
    }
  }

  /**
   Each reservation of a row is refunded at most once: every refund but the last
   is followed by a new reservation, and the last is outstanding exactly while
   `compensatedAt` is set.
   */
  lemma RefundedAtMostOnce(db: Db, ops: seq<Op>, k: nat)
    requires WellFormed(db) && k < |Run(db, ops).preds|
    ensures var p := Run(db, ops).preds[k];
            p.refunds <= p.reservations <= p.refunds + 1 && (p.compensated <==> p.refunds == p.reservations)
  {
    var db' := Run(db, ops);
    assert RowWellFormed(db'.users, db'.rounds, db'.preds[k]);
  }

  /** A payout appears only on a CONFIRMED or NOT_REQUIRED row of the LOCKED round being settled. */
  lemma OnlyEligibleRowsArePaid(db: Db, op: Op, k: nat)
    requires WellFormed(db) && k < |Apply(db, op).preds|
    requires Apply(db, op).preds[k].payout.Some?
    requires k < |db.preds| ==> Apply(db, op).preds[k].payout != db.preds[k].payout
    ensures op.OpSettle? && k < |db.preds|
    ensures Eligible(db.preds[k]) && db.preds[k].round == op.round && db.rounds[op.round].status.Locked?
  {
    if op.OpSettle? {
      assert op.round < |db.rounds| && db.rounds[op.round].status.Locked?;
    }
  }
}
