/**
 One submission of an UP_DOWN prediction: reserve in the database, make one
 chain attempt outside of it, then finalize, compensate, or leave the row for
 the reconciler. Which of the last two happens is decided by the text of an error
 message, so messages are modelled as text.
 */
module PredictionSaga {
  import opened Wrappers
  import opened PredictionLedger

  // ---------------------------------------------------------------------------
  // Error messages
  // ---------------------------------------------------------------------------

  function LowerChar(c: char): char {
    if 'A' <= c <= 'Z' then c + 32 as char else c
  }

  function Lower(s: string): (r: string)
    ensures |r| == |s| && forall i :: 0 <= i < |s| ==> r[i] == LowerChar(s[i])
  {
    seq(|s|, i requires 0 <= i < |s| => LowerChar(s[i]))
  }

  predicate OccursAt(text: string, word: string, i: nat) {
    i + |word| <= |text| && text[i..i + |word|] == word
  }

  predicate Occurs(text: string, word: string) {
    exists i: nat | i <= |text| :: OccursAt(text, word, i)
  }

  predicate Mentions(text: string, word: string) {
    Occurs(Lower(text), word)
  }

  /** `mapSorobanError`: every contract error reaches callers as one of these texts. */
  function MapSorobanError(raw: string): string {
    if Mentions(raw, "insufficient funds") then "Insufficient funds" + " for contract operation."
    else if Mentions(raw, "no pending") || Mentions(raw, "nothing to claim") || Mentions(raw, "already claimed")
    then "No claimable winnings available."
    else if Mentions(raw, "invalid state") then "Contract operation rejected" + " due to invalid state."
    else if Mentions(raw, "timeout") then "Contract operation timed out."
    else if Mentions(raw, "circuit breaker")
    then "Contract service temporarily" + " unavailable. Please retry shortly."
    else "An unexpected contract error occurred."
  }

  /** Failures that `placeBet` reports before anything is sent. */
  datatype NotSent = NotInitialized | TooManyInFlight

  function NotSentMessage(why: NotSent): string {
    match why
    case NotInitialized => "Soroban service is not initialized"
    case TooManyInFlight => "Too many in-flight money-path" + " operations. Please retry shortly."
  }

  /** "timeout" needs an 'e' followed by an 'o', whatever the case. */
  predicate EoAt(text: string, i: nat)
    requires i + 1 < |text|
  {
    LowerChar(text[i]) == 'e' && LowerChar(text[i + 1]) == 'o'
  }

  predicate NoEo(text: string) {
    forall i: nat :: i + 1 < |text| ==> !EoAt(text, i)
  }

  lemma NoTimeoutWithoutEo(text: string)
    requires NoEo(text)
    ensures !Mentions(text, "timeout")
  {
    if Mentions(text, "timeout") {
      var i: nat :| i <= |Lower(text)| && OccursAt(Lower(text), "timeout", i);
      var t := Lower(text);
      assert t[i..i + 7][3] == 'e' && t[i..i + 7][4] == 'o';
      assert EoAt(text, i + 3);
    }
  }

  lemma NoEoAppend(a: string, b: string)
    requires NoEo(a) && NoEo(b) && a != [] && b != []
    requires LowerChar(a[|a| - 1]) != 'e'
    ensures NoEo(a + b)
  {
    forall i: nat | i + 1 < |a + b| ensures !EoAt(a + b, i) {
      if i + 1 < |a| {
        assert !EoAt(a, i);
      } else if i >= |a| {
        assert !EoAt(b, i - |a|);
      }
    }
  }

  lemma ClaimText() ensures NoEo("No claimable winnings available.") {}

  lemma StateText() ensures NoEo("Contract operation rejected" + " due to invalid state.") {
    assert NoEo("Contract operation rejected");
    assert NoEo(" due to invalid state.");
    NoEoAppend("Contract operation rejected", " due to invalid state.");
  }

  lemma TimedOutText() ensures NoEo("Contract operation timed out.") {}

  lemma BreakerTail() ensures NoEo(" unavailable. Please retry shortly.") {}

  lemma BreakerText() ensures NoEo("Contract service temporarily" + " unavailable. Please retry shortly.") {
    BreakerTail();
    NoEoAppend("Contract service temporarily", " unavailable. Please retry shortly.");
  }

  lemma UnexpectedText() ensures NoEo("An unexpected contract error occurred.") {}

  lemma InFlightTail() ensures NoEo(" operations. Please retry shortly.") {}

  lemma InFlightText() ensures NoEo("Too many in-flight money-path" + " operations. Please retry shortly.") {
    InFlightTail();
    NoEoAppend("Too many in-flight money-path", " operations. Please retry shortly.");
  }

  /** No contract error that reaches the saga mentions a timeout, not even a timeout. */
  lemma MappedErrorsNeverMentionTimeout(raw: string)
    ensures !Mentions(MapSorobanError(raw), "timeout")
  {
    ClaimText();
    StateText();
    TimedOutText();
    BreakerText();
    UnexpectedText();
    NoTimeoutWithoutEo(MapSorobanError(raw));
  }

  lemma NotSentNeverMentionsTimeout(why: NotSent)
    ensures !Mentions(NotSentMessage(why), "timeout")
  {
    InFlightText();
    NoTimeoutWithoutEo(NotSentMessage(why));
  }

  const CAPITALS: string := "ABCDEFGHIJKLMNOPQRSTUVWXYZ"

  const SMALL: string := "abcdefghijklmnopqrstuvwxyz"

  /** The same character, or the capital of a small letter. */
  ghost predicate SameLetter(c: char, small: char) {
    c == small || exists k :: 0 <= k < 26 && c == CAPITALS[k] && small == SMALL[k]
  }

  lemma AlphabetIsInOrder(k: nat)
    requires k < 26
    ensures CAPITALS[k] as int == 'A' as int + k && SMALL[k] as int == 'a' as int + k
  {
    assert |CAPITALS| == 26 && |SMALL| == 26;
    if k < 13 {
      assert k in {0, 1, 2, 3, 4, 5, 6, 7, 8, 9, 10, 11, 12};
    } else {
      assert k in {13, 14, 15, 16, 17, 18, 19, 20, 21, 22, 23, 24, 25};
    }
  }

  lemma LowerIsSameLetter(c: char, small: char)
    requires !('A' <= small <= 'Z')
    ensures LowerChar(c) == small <==> SameLetter(c, small)
  {
    if k :| 0 <= k < 26 && c == CAPITALS[k] && small == SMALL[k] {
      AlphabetIsInOrder(k);
    }
    if 'A' <= c <= 'Z' {
      AlphabetIsInOrder(c as int - 'A' as int);
    }
  }

  ghost predicate SameWord(part: string, word: string) {
    |part| == |word| && forall j :: 0 <= j < |word| ==> SameLetter(part[j], word[j])
  }

  ghost predicate StandsAt(text: string, word: string, i: nat) {
    i + |word| <= |text| && SameWord(text[i..i + |word|], word)
  }

  lemma StandsWhereItOccurs(text: string, word: string, i: nat)
    requires forall j :: 0 <= j < |word| ==> !('A' <= word[j] <= 'Z')
    ensures OccursAt(Lower(text), word, i) <==> StandsAt(text, word, i)
  {
    if i + |word| <= |text| {
      var part, low := text[i..i + |word|], Lower(text)[i..i + |word|];
      forall j | 0 <= j < |word| ensures low[j] == word[j] <==> SameLetter(part[j], word[j]) {
        assert low[j] == LowerChar(part[j]);
        LowerIsSameLetter(part[j], word[j]);
      }
    }
  }

  /** A text mentions a word of small letters exactly when the word stands somewhere in it, in whatever case. */
  lemma MentionsIff(text: string, word: string)
    requires forall j :: 0 <= j < |word| ==> !('A' <= word[j] <= 'Z')
    ensures Mentions(text, word) <==> exists i: nat :: StandsAt(text, word, i)
  {
    forall i: nat ensures OccursAt(Lower(text), word, i) <==> StandsAt(text, word, i) {
      StandsWhereItOccurs(text, word, i);
    }
  }

  /** Every contract error is told by the first of these phrases that its text mentions. */
  lemma MappedErrorTold(raw: string)
    ensures var funds, state := Mentions(raw, "insufficient funds"), Mentions(raw, "invalid state");
            var nothing := Mentions(raw, "no pending") || Mentions(raw, "nothing to claim") || Mentions(raw, "already claimed");
            var late, open := Mentions(raw, "timeout"), Mentions(raw, "circuit breaker");
            && (funds ==> MapSorobanError(raw) == "Insufficient funds" + " for contract operation.")
            && (!funds && nothing ==> MapSorobanError(raw) == "No claimable winnings available.")
            && (!funds && !nothing && state ==> MapSorobanError(raw) == "Contract operation rejected" + " due to invalid state.")
            && (!funds && !nothing && !state && late ==> MapSorobanError(raw) == "Contract operation timed out.")
            && (!funds && !nothing && !state && !late && open ==>
                  MapSorobanError(raw) == "Contract service temporarily" + " unavailable. Please retry shortly.")
            && (!funds && !nothing && !state && !late && !open ==>
                  MapSorobanError(raw) == "An unexpected contract error occurred.")
  {
    hide Mentions;
  }

  // ---------------------------------------------------------------------------
  // Retrying the finalization
  // ---------------------------------------------------------------------------

  const FINALIZE_ATTEMPTS: nat := 3

  const RETRYABLE_CODES: seq<string> := ["P2034", "P2025", "ECONNREFUSED", "ETIMEDOUT", "ENOTFOUND"]

  /** What one run of the finalizing transaction does; an abort may come after its commit. */
  datatype Attempt = Commits | Aborts(code: string, message: string, applied: bool)

  predicate Retryable(code: string, message: string) {
    code in RETRYABLE_CODES
    || (exists k | 0 <= k < |RETRYABLE_CODES| :: Occurs(message, RETRYABLE_CODES[k]))
    || Occurs(message, "timeout")
  }

  /** A transaction is worth another attempt when its code or its message names one of these, or a timeout. */
  lemma RetryableIff(code: string, message: string)
    ensures Retryable(code, message) <==>
      || code in {"P2034", "P2025", "ECONNREFUSED", "ETIMEDOUT", "ENOTFOUND"}
      || Occurs(message, "P2034") || Occurs(message, "P2025") || Occurs(message, "ECONNREFUSED")
      || Occurs(message, "ETIMEDOUT") || Occurs(message, "ENOTFOUND") || Occurs(message, "timeout")
  {
    hide Occurs;
    assert RETRYABLE_CODES[0] == "P2034" && RETRYABLE_CODES[1] == "P2025" && RETRYABLE_CODES[2] == "ECONNREFUSED";
    assert RETRYABLE_CODES[3] == "ETIMEDOUT" && RETRYABLE_CODES[4] == "ENOTFOUND" && |RETRYABLE_CODES| == 5;
    assert code in RETRYABLE_CODES <==> exists k :: 0 <= k < 5 && RETRYABLE_CODES[k] == code;
  }

  /** `retryOrThrow` around the finalizing transaction, from attempt `n` on. */
  function RetryFinalize(db: Db, p: nat, hash: Option<string>, attempt: nat -> Attempt, n: nat): (Db, Option<string>)
    requires 1 <= n <= FINALIZE_ATTEMPTS
    decreases FINALIZE_ATTEMPTS - n
  {
    match attempt(n)
    case Commits => (Finalize(db, p, hash), None)
    case Aborts(code, message, applied) =>
      var db' := if applied then Finalize(db, p, hash) else db;
      if !Retryable(code, message) || n == FINALIZE_ATTEMPTS then (db', Some(message))
      else RetryFinalize(db', p, hash, attempt, n + 1)
  }

  /** The chain attempt. A failed call may still have reached the network and landed. */
  datatype ChainCall =
    | Succeeds(hash: Option<string>)
    | Fails(raw: string, landed: bool)
    | NeverSent(why: NotSent)

  predicate Landed(call: ChainCall) {
    call.Succeeds? || (call.Fails? && call.landed)
  }

  function HandleChainFailure(db: Db, p: nat, message: string): Db
    requires WellFormed(db)
  {
    if Mentions(message, "timeout") then MarkSubmitted(db, p) else Compensate(db, p)
  }

  lemma RetryKeepsWellFormed(db: Db, p: nat, hash: Option<string>, attempt: nat -> Attempt, n: nat)
    requires 1 <= n <= FINALIZE_ATTEMPTS && WellFormed(db)
    ensures WellFormed(RetryFinalize(db, p, hash, attempt, n).0)
    decreases FINALIZE_ATTEMPTS - n
  {
    RowWriteKeepsWellFormed(db, OpFinalize(p, hash));
    if attempt(n).Aborts? && Retryable(attempt(n).code, attempt(n).message) && n < FINALIZE_ATTEMPTS {
      RetryKeepsWellFormed(if attempt(n).applied then Finalize(db, p, hash) else db, p, hash, attempt, n + 1);
    }
  }

  /**
   Phases 2 and 3 for row `p`. The failure handler also receives the errors of
   the finalization, because both stand in the same try block.
   */
  function AfterReservation(db: Db, p: nat, call: ChainCall, attempt: nat -> Attempt): Db
    requires WellFormed(db)
  {
    match call
    case Succeeds(hash) =>
      RetryKeepsWellFormed(db, p, hash, attempt, 1);
      var (db', error) := RetryFinalize(db, p, hash, attempt, 1);
      if error.None? then db' else HandleChainFailure(db', p, error.value)
    case Fails(raw, _) => HandleChainFailure(db, p, MapSorobanError(raw))
    case NeverSent(why) => HandleChainFailure(db, p, NotSentMessage(why))
  }

  // ---------------------------------------------------------------------------
  // The service, in the imperative form of the source
  // ---------------------------------------------------------------------------

  class PredictionService {
    var db: Db

    constructor (db: Db)
      ensures this.db == db
    {
      this.db := db;
    }

    method FinalizeChainSuccess(p: nat, hash: Option<string>, attempt: nat -> Attempt)
      returns (error: Option<string>)
      modifies this
      ensures (db, error) == RetryFinalize(old(db), p, hash, attempt, 1)
    {
      var n := 1;
      error := None;
      while true
        invariant 1 <= n <= FINALIZE_ATTEMPTS
        invariant RetryFinalize(db, p, hash, attempt, n) == RetryFinalize(old(db), p, hash, attempt, 1)
        decreases FINALIZE_ATTEMPTS - n
      {
        match attempt(n) {
          case Commits =>
            db := Finalize(db, p, hash);
            return None;
          case Aborts(code, message, applied) =>
            if applied { db := Finalize(db, p, hash); }
            if !Retryable(code, message) || n == FINALIZE_ATTEMPTS {
              return Some(message);
            }
            n := n + 1;
        }
      }
    }

    method SubmitPrediction(
        user: nat, round: nat, cell: Option<nat>, amount: real, now: int, call: ChainCall, attempt: nat -> Attempt)
      returns (reservation: Reservation)
      requires WellFormed(db)
      modifies this
      ensures reservation == Reserve(old(db), user, round, cell, amount, now)
      ensures WellFormed(db)
      ensures reservation.Rejected? ==> db == old(db)
      ensures reservation.Reserved? ==>
                && WellFormed(reservation.db)
                && db == if old(db).rounds[round].mode.UpDown?
                         then AfterReservation(reservation.db, reservation.id, call, attempt)
                         else reservation.db
    {
      hide HandleChainFailure, MapSorobanError;
      reservation := Reserve(db, user, round, cell, amount, now);
      ReserveKeepsWellFormed(db, user, round, cell, amount, now);
      if reservation.Rejected? { return; }
      var p := reservation.id;
      var onChain := db.rounds[round].mode.UpDown?;
      db := reservation.db;
      if onChain {
        var message;
        match call {
          case Succeeds(hash) =>
            RetryKeepsWellFormed(db, p, hash, attempt, 1);
            var error := FinalizeChainSuccess(p, hash, attempt);
            if error.None? { return; }
            message := error.value;
          case Fails(raw, _) => message := MapSorobanError(raw);
          case NeverSent(why) => message := NotSentMessage(why);
        }
        HandleKeepsWellFormed(db, p, message);
        db := HandleChainFailure(db, p, message);
      }
    }
  }

  // ---------------------------------------------------------------------------
  // What a submission can end in
  // ---------------------------------------------------------------------------

  predicate UpDownRow(db: Db, p: nat) {
    p < |db.preds| && db.preds[p].round < |db.rounds| && db.rounds[db.preds[p].round].mode.UpDown?
  }

  lemma HandleKeepsWellFormed(db: Db, p: nat, message: string)
    requires WellFormed(db) && UpDownRow(db, p)
    ensures WellFormed(HandleChainFailure(db, p, message))
  {
    if Mentions(message, "timeout") {
      RowWriteKeepsWellFormed(db, OpMarkSubmitted(p));
    } else {
      CompensateKeepsWellFormed(db, p);
    }
  }

  /** Retrying touches only row `p`, and leaves it PENDING as it was or CONFIRMED. */
  lemma {:induction false} RetryEnds(db: Db, p: nat, hash: Option<string>, attempt: nat -> Attempt, n: nat)
    requires 1 <= n <= FINALIZE_ATTEMPTS && p < |db.preds| && (Open(db.preds[p]) || db.preds[p].status.Confirmed?)
    ensures var (db', error) := RetryFinalize(db, p, hash, attempt, n);
            && db'.users == db.users && db'.rounds == db.rounds && |db'.preds| == |db.preds|
            && (db' == db || (db.preds[p].status.Pending? && db'.preds[p].status.Confirmed?))
            && (db' != db ==> db' == Finalize(db, p, hash))
            && (error.None? && db.preds[p].status.Pending? ==> db'.preds[p].status.Confirmed?)
    decreases FINALIZE_ATTEMPTS - n
  {
    if attempt(n).Aborts? && Retryable(attempt(n).code, attempt(n).message) && n < FINALIZE_ATTEMPTS {
      RetryEnds(if attempt(n).applied then Finalize(db, p, hash) else db, p, hash, attempt, n + 1);
    }
  }

  predicate Retries(a: Attempt) {
    a.Aborts? && Retryable(a.code, a.message)
  }

  /** Counting from attempt `n`, the retry ends in failure with attempt `k`: its error is not retryable, or it is the last. */
  predicate GivesUpAt(attempt: nat -> Attempt, n: nat, k: nat) {
    && n <= k <= FINALIZE_ATTEMPTS
    && (forall j | n <= j < k :: Retries(attempt(j)))
    && attempt(k).Aborts? && (Retries(attempt(k)) ==> k == FINALIZE_ATTEMPTS)
  }

  /** No attempt from `n` to `k` was committed before it aborted. */
  predicate NoneApplied(attempt: nat -> Attempt, n: nat, k: nat) {
    forall j | n <= j <= k :: attempt(j).Aborts? ==> !attempt(j).applied
  }

  /** How the retry ends, told from the outcomes of its attempts. */
  lemma {:induction false} RetryOutcome(db: Db, p: nat, hash: Option<string>, attempt: nat -> Attempt, n: nat)
    returns (k: nat)
    requires 1 <= n <= FINALIZE_ATTEMPTS && p < |db.preds| && (db.preds[p].status.Pending? || db.preds[p].status.Confirmed?)
    ensures var (db', error) := RetryFinalize(db, p, hash, attempt, n);
            && (error.Some? ==>
                  && GivesUpAt(attempt, n, k) && error.value == attempt(k).message
                  && db' == if NoneApplied(attempt, n, k) then db else Finalize(db, p, hash))
            && (error.None? ==> forall i: nat :: !GivesUpAt(attempt, n, i))
    decreases FINALIZE_ATTEMPTS - n
  {
    k := n;
    if Retries(attempt(n)) && n < FINALIZE_ATTEMPTS {
      var next := if attempt(n).applied then Finalize(db, p, hash) else db;
      k := RetryOutcome(next, p, hash, attempt, n + 1);
      forall i: nat ensures GivesUpAt(attempt, n, i) ==> GivesUpAt(attempt, n + 1, i) {}
    }
  }

  /** Fresh from phase 1: the row is PENDING and its stake is reserved. */
  predicate JustReserved(db: Db, p: nat) {
    WellFormed(db) && UpDownRow(db, p) && db.preds[p].status.Pending?
  }

  /**
   Every failed chain call is refunded at once, an ambiguous timeout included: the
   row goes to FAILED, the stake back to the user, and nothing is left for the
   reconciler. So the stake is on chain and refunded whenever the call landed.
   */
  lemma FailedCallIsRefundedAtOnce(db: Db, p: nat, call: ChainCall, attempt: nat -> Attempt)
    requires JustReserved(db, p) && !call.Succeeds?
    ensures AfterReservation(db, p, call, attempt) == Compensate(db, p)
    ensures AfterReservation(db, p, call, attempt).preds[p].status.Failed?
    ensures AfterReservation(db, p, call, attempt).preds[p].refunds == db.preds[p].refunds + 1
  {
    assert RowWellFormed(db.users, db.rounds, db.preds[p]);
    if call.Fails? {
      MappedErrorsNeverMentionTimeout(call.raw);
    } else {
      NotSentNeverMentionsTimeout(call.why);
    }
  }

  /** A stake that reached the chain is refunded in the database by the submission itself. */
  predicate PrematureRefund(db: Db, p: nat, call: ChainCall, attempt: nat -> Attempt)
    requires JustReserved(db, p)
  {
    Landed(call) &&
    var db' := AfterReservation(db, p, call, attempt);
    |db'.preds| == |db.preds| && db'.preds[p].refunds > db.preds[p].refunds
  }

  /** The finalization gives up, with no attempt applied, on an error that does not say "timeout". */
  ghost predicate GivesUpInVain(attempt: nat -> Attempt) {
    exists k: nat ::
      GivesUpAt(attempt, 1, k) && NoneApplied(attempt, 1, k) && !Mentions(attempt(k).message, "timeout")
  }

  /** The finalization gives up on an error that says "timeout". */
  ghost predicate GivesUpOnTimeout(attempt: nat -> Attempt) {
    exists k: nat :: GivesUpAt(attempt, 1, k) && Mentions(attempt(k).message, "timeout")
  }

  /**
   Exactly when a submission refunds a stake that is on chain: the call was
   reported as failed although it landed, or it succeeded and the attempts to
   finalize ended on an error that does not say "timeout", none of them applied.
   */
  lemma PrematureRefundIff(db: Db, p: nat, call: ChainCall, attempt: nat -> Attempt)
    requires JustReserved(db, p)
    ensures PrematureRefund(db, p, call, attempt) <==>
              (call.Fails? && call.landed) || (call.Succeeds? && GivesUpInVain(attempt))
  {
    assert RowWellFormed(db.users, db.rounds, db.preds[p]);
    if call.Succeeds? {
      var k := RetryOutcome(db, p, call.hash, attempt, 1);
      RetryEnds(db, p, call.hash, attempt, 1);
    } else {
      FailedCallIsRefundedAtOnce(db, p, call, attempt);
    }
  }

  /**
   A submission leaves its row SUBMITTED exactly when the chain call succeeded and
   the attempts to finalize ended on an error that says "timeout": never because
   the chain call itself timed out.
   */
  lemma SubmittedIff(db: Db, p: nat, call: ChainCall, attempt: nat -> Attempt)
    requires JustReserved(db, p)
    ensures var db' := AfterReservation(db, p, call, attempt);
            && |db'.preds| == |db.preds|
            && (db'.preds[p].status.Submitted? <==> call.Succeeds? && GivesUpOnTimeout(attempt))
  {
    assert RowWellFormed(db.users, db.rounds, db.preds[p]);
    if call.Succeeds? {
      var k := RetryOutcome(db, p, call.hash, attempt, 1);
      RetryEnds(db, p, call.hash, attempt, 1);
    } else {
      FailedCallIsRefundedAtOnce(db, p, call, attempt);
    }
  }
}
