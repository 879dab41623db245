/**
 The connect flow (src/routes/auth.routes.ts): one-shot challenges, the login
 streak and the bonus ledger. Days are integers; logins are taken one at a time.
 */
module LoginStreak {
  import opened Wrappers

  // ---------------------------------------------------------------------------
  // Challenges
  // ---------------------------------------------------------------------------

  datatype Challenge = Challenge(wallet: string, expiresAt: int, isUsed: bool)

  /** The conditional update of one connect call; the second part is the number of rows it changed. */
  function Consume(c: Challenge, wallet: string, now: int): (Challenge, nat) {
    if c.wallet == wallet && !c.isUsed && c.expiresAt > now then (c.(isUsed := true), 1) else (c, 0)
  }

  datatype Attempt = Attempt(wallet: string, now: int, validSignature: bool)

  /** The challenge after the attempts, in the order their updates reach the database, and who got in. */
  function Attempts(c: Challenge, attempts: seq<Attempt>): (Challenge, seq<bool>) {
    if attempts == [] then (c, [])
    else
      var a := attempts[|attempts| - 1];
      var before := Attempts(c, attempts[..|attempts| - 1]);
      var step := Consume(before.0, a.wallet, a.now);
      (step.0, before.1 + [step.1 == 1 && a.validSignature])
  }

  /** In any order of arrival at most one connect gets in on a challenge, and none after a consumed one. */
  lemma {:induction false} ChallengeIsOneShot(c: Challenge, attempts: seq<Attempt>)
    ensures var r := Attempts(c, attempts);
            && |r.1| == |attempts| && r.0.wallet == c.wallet && r.0.expiresAt == c.expiresAt
            && (c.isUsed ==> r.0.isUsed)
            && (forall i :: 0 <= i < |r.1| && r.1[i] ==>
                  && r.0.isUsed && !c.isUsed
                  && attempts[i].wallet == c.wallet && attempts[i].now < c.expiresAt && attempts[i].validSignature)
            && (forall i, j :: 0 <= i < j < |r.1| ==> !(r.1[i] && r.1[j]))
  {
    if attempts != [] {
      ChallengeIsOneShot(c, attempts[..|attempts| - 1]);
    }
  }

  /** The attempt names the challenge's wallet and comes before it expires. */
  predicate InTime(c: Challenge, a: Attempt) {
    a.wallet == c.wallet && a.now < c.expiresAt
  }

  /**
   Exactly the first attempt by the right wallet before the expiry uses an unused
   challenge up, and it gets in exactly when its signature is valid too; one with a
   wrong signature uses the challenge up all the same.
   */
  lemma {:induction false} FirstInTimeUsesIt(c: Challenge, attempts: seq<Attempt>)
    ensures var r := Attempts(c, attempts);
            && |r.1| == |attempts|
            && (r.0.isUsed <==> c.isUsed || exists k :: 0 <= k < |attempts| && InTime(c, attempts[k]))
            && forall i :: 0 <= i < |attempts| ==>
                 (r.1[i] <==> && !c.isUsed && InTime(c, attempts[i]) && attempts[i].validSignature
                              && forall k :: 0 <= k < i ==> !InTime(c, attempts[k]))
  {
    ChallengeIsOneShot(c, attempts);
    if attempts != [] {
      var init := attempts[..|attempts| - 1];
      FirstInTimeUsesIt(c, init);
      ChallengeIsOneShot(c, init);
      assert forall k :: 0 <= k < |init| ==> init[k] == attempts[k];
    }
  }

  // ---------------------------------------------------------------------------
  // The streak and the bonus
  // ---------------------------------------------------------------------------

  /**
   The columns that connecting writes; settlement writes `streak` too. `balance`
   counts only what connecting adds.
   */
  datatype User = User(lastDay: Option<int>, streak: nat, balance: real)

  /** `bonuses` are the amounts of the user's BONUS transactions. */
  datatype Account = Account(user: Option<User>, bonuses: seq<real>)

  function DailyBonus(streak: int): real {
    if streak >= 7 then 200.0 else if streak >= 3 then 150.0 else 100.0
  }

  function DaysBetween(a: int, b: int): nat {
    if a <= b then b - a else a - b
  }

  /** A login whose writes can stop after the first one. */
  function Connected(acc: Account, day: int, halts: bool): Account {
    if acc.user.None? then
      Account(Some(User(Some(day), 1, 1000.0 + 100.0)), if halts then acc.bonuses else acc.bonuses + [100.0])
    else
      var u := acc.user.value;
      var diffDays := DaysBetween(if u.lastDay.Some? then u.lastDay.value else 0, day);
      if diffDays >= 1 then
        var newStreak := if diffDays == 1 then u.streak + 1 else 1;
        var bonus := DailyBonus(newStreak);
        Account(if halts then acc.user else Some(User(Some(day), newStreak, u.balance + bonus)), acc.bonuses + [bonus])
      else acc.(user := Some(u.(lastDay := Some(day))))
  }

  /** What settling one of the user's predictions does to the same column. */
  function Settled(acc: Account, won: bool): Account {
    if acc.user.None? then acc
    else acc.(user := Some(acc.user.value.(streak := if won then acc.user.value.streak + 1 else 0)))
  }

  class UserAccount {
    var user: Option<User>
    var bonuses: seq<real>

    constructor ()
      ensures user == None && bonuses == []
    {
      user, bonuses := None, [];
    }

    /** The account part of `connectHandler`; `false` when its second write did not happen. */
    method Connect(day: int, halts: bool) returns (done: bool)
      modifies this
      ensures Account(user, bonuses) == Connected(old(Account(user, bonuses)), day, halts)
    {
      var bonusAmount := 0.0;
      var newStreak := 0;
      var streakBonusApplied := false;
      if user.None? {
        bonusAmount := 100.0;
        newStreak := 1;
        user := Some(User(Some(day), newStreak, 1000.0 + bonusAmount));
        if halts { return false; }
        bonuses := bonuses + [bonusAmount];
        return true;
      }
      var u := user.value;
      var lastLogin := if u.lastDay.Some? then u.lastDay.value else 0;
      var diffDays := DaysBetween(lastLogin, day);
      if diffDays >= 1 {
        if diffDays == 1 { newStreak := u.streak + 1; } else { newStreak := 1; }
        var multiplier := 1.0;
        if newStreak >= 7 { multiplier := 2.0; } else if newStreak >= 3 { multiplier := 1.5; }
        bonusAmount := 100.0 * multiplier;
        streakBonusApplied := true;
        bonuses := bonuses + [bonusAmount];
        if halts { return false; }
      } else {
        newStreak := u.streak;
      }
      user := Some(User(Some(day), newStreak, if streakBonusApplied then u.balance + bonusAmount else u.balance));
      done := true;
    }

    /** The streak write of a settled prediction. */
    method SettlePrediction(won: bool)
      modifies this
      ensures Account(user, bonuses) == Settled(old(Account(user, bonuses)), won)
    {
      if user.None? { return; }
      if won {
        user := Some(user.value.(streak := user.value.streak + 1));
      } else {
        user := Some(user.value.(streak := 0));
      }
    }
  }

  // ---------------------------------------------------------------------------
  // Histories of logins and settlements
  // ---------------------------------------------------------------------------

  datatype Event = LoggedIn(day: int, halts: bool) | Won | Lost

  function Apply(acc: Account, e: Event): Account {
    match e
    case LoggedIn(day, halts) => Connected(acc, day, halts)
    case Won => Settled(acc, true)
    case Lost => Settled(acc, false)
  }

  function After(events: seq<Event>): Account {
    if events == [] then Account(None, []) else Apply(After(events[..|events| - 1]), events[|events| - 1])
  }

  /** Logins come on nondecreasing days. */
  predicate Timely(events: seq<Event>) {
    forall i, j :: 0 <= i < j < |events| && events[i].LoggedIn? && events[j].LoggedIn? ==> events[i].day <= events[j].day
  }

  /** A login that reaches the user's row: a halted one does so only when it creates the row. */
  predicate Counts(init: seq<Event>, e: Event) {
    e.LoggedIn? && (!e.halts || LoginDays(init) == [])
  }

  /** The days of the logins that count, in order. */
  function LoginDays(events: seq<Event>): seq<int> {
    if events == [] then []
    else
      var init, e := events[..|events| - 1], events[|events| - 1];
      LoginDays(init) + (if e.LoggedIn? && (!e.halts || LoginDays(init) == []) then [e.day] else [])
  }

  function LastDay(events: seq<Event>): int
    requires LoginDays(events) != []
  {
    LoginDays(events)[|LoginDays(events)| - 1]
  }

  /** The maximal run of consecutive days ending at the last one has this length. */
  ghost predicate RunLength(days: seq<int>, n: nat)
    requires days != []
  {
    var last := days[|days| - 1];
    && n >= 1
    && (forall d :: last - n < d <= last ==> d in days)
    && last - n !in days
  }

  /** A login that begins a new run: the first one, or one after a missed day. */
  predicate BeginsRun(init: seq<Event>, e: Event) {
    Counts(init, e) && (LoginDays(init) == [] || e.day > LastDay(init) + 1)
  }

  /** The length of the current run of login days. */
  function Run(events: seq<Event>): nat {
    if events == [] then 0
    else
      var init, e := events[..|events| - 1], events[|events| - 1];
      if !Counts(init, e) then Run(init)
      else if BeginsRun(init, e) then 1
      else if e.day == LastDay(init) then Run(init)
      else Run(init) + 1
  }

  /** How much of the current run the last loss since its beginning wiped out. */
  function Wiped(events: seq<Event>): nat {
    if events == [] then 0
    else
      var init, e := events[..|events| - 1], events[|events| - 1];
      if BeginsRun(init, e) then 0 else if e.Lost? then Run(init) else Wiped(init)
  }

  /** The wins settled since that loss, or since the run began. */
  function WinsSince(events: seq<Event>): nat {
    if events == [] then 0
    else
      var init, e := events[..|events| - 1], events[|events| - 1];
      if BeginsRun(init, e) || e.Lost? then 0
      else if e.Won? && LoginDays(init) != [] then WinsSince(init) + 1
      else WinsSince(init)
  }

  ghost predicate Fits(events: seq<Event>) {
    var acc, days := After(events), LoginDays(events);
    && (acc.user.None? <==> days == [])
    && (days == [] ==> Run(events) == Wiped(events) == WinsSince(events) == 0)
    && (days != [] ==>
          && acc.user.value.lastDay == Some(LastDay(events))
          && RunLength(days, Run(events))
          && Wiped(events) <= Run(events)
          && acc.user.value.streak == Run(events) - Wiped(events) + WinsSince(events))
  }

  lemma Step(init: seq<Event>, e: Event)
    ensures After(init + [e]) == Apply(After(init), e)
    ensures LoginDays(init + [e]) == LoginDays(init) + (if Counts(init, e) then [e.day] else [])
    ensures Run(init + [e])
         == if !Counts(init, e) then Run(init) else if BeginsRun(init, e) then 1
            else if e.day == LastDay(init) then Run(init) else Run(init) + 1
    ensures Wiped(init + [e]) == if BeginsRun(init, e) then 0 else if e.Lost? then Run(init) else Wiped(init)
    ensures WinsSince(init + [e])
         == if BeginsRun(init, e) || e.Lost? then 0
            else if e.Won? && LoginDays(init) != [] then WinsSince(init) + 1 else WinsSince(init)
  {
    assert (init + [e])[..|init|] == init;
  }

  /** Login days come in order, and none is later than an event to come. */
  lemma {:induction false} LoginDaysInOrder(events: seq<Event>, bound: int)
    requires Timely(events) && forall i :: 0 <= i < |events| && events[i].LoggedIn? ==> events[i].day <= bound
    ensures forall d :: d in LoginDays(events) ==> d <= bound
    ensures LoginDays(events) != [] ==> forall d :: d in LoginDays(events) ==> d <= LastDay(events)
  {
    if events != [] {
      var init, e := events[..|events| - 1], events[|events| - 1];
      assert events == init + [e];
      assert forall i :: 0 <= i < |init| ==> init[i] == events[i];
      Step(init, e);
      LoginDaysInOrder(init, if e.LoggedIn? then e.day else bound);
    }
  }

  /** How one more day changes the run. */
  lemma RunStep(init: seq<int>, day: int, n: nat)
    requires init != [] && RunLength(init, n) && init[|init| - 1] <= day
    requires forall d :: d in init ==> d <= init[|init| - 1]
    ensures RunLength(init + [day], if day == init[|init| - 1] then n else if day == init[|init| - 1] + 1 then n + 1 else 1)
  {
    assert forall d :: d in init + [day] <==> d in init || d == day;
  }

  lemma LaterLoginFits(init: seq<Event>, e: Event)
    requires Fits(init) && Counts(init, e) && LoginDays(init) != []
    requires forall d :: d in LoginDays(init) ==> d <= LastDay(init)
    requires LastDay(init) <= e.day
    ensures Fits(init + [e])
  {
    hide After, LoginDays, Run, Wiped, WinsSince;
    Step(init, e);
    RunStep(LoginDays(init), e.day, Run(init));
    hide RunLength;
  }

  lemma LoginFits(init: seq<Event>, e: Event)
    requires Fits(init) && Counts(init, e)
    requires forall d :: d in LoginDays(init) ==> d <= e.day
    requires LoginDays(init) != [] ==> forall d :: d in LoginDays(init) ==> d <= LastDay(init)
    ensures Fits(init + [e])
  {
    hide After, LoginDays, Run, Wiped, WinsSince;
    Step(init, e);
    if LoginDays(init) != [] {
      assert LastDay(init) in LoginDays(init);
      LaterLoginFits(init, e);
    }
  }

  lemma OtherFits(init: seq<Event>, e: Event)
    requires Fits(init) && !Counts(init, e)
    ensures Fits(init + [e])
  {
    hide After, LoginDays, Run, Wiped, WinsSince;
    Step(init, e);
    assert LoginDays(init + [e]) == LoginDays(init);
    hide RunLength;
  }

  lemma {:induction false} EveryHistoryFits(events: seq<Event>)
    requires Timely(events)
    ensures Fits(events)
  {
    if events != [] {
      var init, e := events[..|events| - 1], events[|events| - 1];
      assert events == init + [e];
      assert forall i :: 0 <= i < |init| ==> init[i] == events[i];
      hide After, Run, Wiped, WinsSince, RunLength;
      EveryHistoryFits(init);
      if Counts(init, e) {
        LoginDaysInOrder(init, e.day);
        LoginFits(init, e);
      } else {
        OtherFits(init, e);
      }
    }
  }

  /**
   The streak column over every history of logins and settlements: the length of
   the run of consecutive login days that ends at the last one, less the days a
   lost prediction wiped out, plus the predictions won since.
   */
  lemma StreakFormula(events: seq<Event>)
    requires Timely(events) && LoginDays(events) != []
    ensures var acc := After(events);
            && acc.user.Some? && acc.user.value.lastDay == Some(LastDay(events))
            && RunLength(LoginDays(events), Run(events)) && Wiped(events) <= Run(events)
            && acc.user.value.streak == Run(events) - Wiped(events) + WinsSince(events)
  {
    EveryHistoryFits(events);
  }

  /** So the streak is the run exactly when the wins since the last loss make up for the days that loss wiped out. */
  lemma StreakIsTheRunIff(events: seq<Event>)
    requires Timely(events) && LoginDays(events) != []
    ensures After(events).user.Some?
    ensures RunLength(LoginDays(events), After(events).user.value.streak) <==> WinsSince(events) == Wiped(events)
  {
    hide After, LoginDays, Run, Wiped, WinsSince, RunLength;
    EveryHistoryFits(events);
    OnlyOneLength(LoginDays(events), Run(events), After(events).user.value.streak);
  }

  lemma OnlyOneLength(days: seq<int>, n: nat, m: nat)
    requires days != [] && RunLength(days, n)
    ensures RunLength(days, m) <==> m == n
  {
    var last := days[|days| - 1];
    assert m < n ==> m == 0 || last - n < last - m <= last;
    assert n < m ==> last - m < last - n <= last;
  }

  /** No prediction of the user settles after the current run began. */
  predicate NoSettlementSince(events: seq<Event>) {
    events != [] ==>
      var init, e := events[..|events| - 1], events[|events| - 1];
      BeginsRun(init, e) || (e.LoggedIn? && NoSettlementSince(init))
  }

  /** In particular, the streak is the run while no prediction of the user settles during it. */
  lemma {:induction false} QuietStreakIsTheRun(events: seq<Event>)
    requires Timely(events) && LoginDays(events) != [] && NoSettlementSince(events)
    ensures After(events).user.Some? && RunLength(LoginDays(events), After(events).user.value.streak)
  {
    QuietCounters(events);
    StreakIsTheRunIff(events);
  }

  lemma {:induction false} QuietCounters(events: seq<Event>)
    requires NoSettlementSince(events)
    ensures WinsSince(events) == Wiped(events) == 0
  {
    if events != [] && !BeginsRun(events[..|events| - 1], events[|events| - 1]) {
      QuietCounters(events[..|events| - 1]);
    }
  }

  lemma TimelyLogin(init: seq<Event>, day: int, halts: bool)
    requires Timely(init + [LoggedIn(day, halts)])
    ensures Timely(init) && Timely(init + [LoggedIn(day, false)])
  {
    var events, whole := init + [LoggedIn(day, halts)], init + [LoggedIn(day, false)];
    forall i, j | 0 <= i < j < |whole| && whole[i].LoggedIn? && whole[j].LoggedIn? ensures whole[i].day <= whole[j].day {
      assert events[i].LoggedIn? && events[j].LoggedIn?;
    }
    assert forall i :: 0 <= i < |init| ==> init[i] == events[i];
  }

  lemma LastLoginIsStored(events: seq<Event>)
    requires Timely(events) && LoginDays(events) != []
    ensures After(events).user.Some? && After(events).user.value.lastDay == Some(LastDay(events))
  {
    EveryHistoryFits(events);
  }

  lemma BonusIsForTheStreak(init: seq<Event>, day: int, halts: bool)
    requires Timely(init) && LoginDays(init) != [] && day > LastDay(init)
    ensures var whole := init + [LoggedIn(day, false)];
            && LoginDays(whole) != [] && After(whole).user.Some?
            && After(init + [LoggedIn(day, halts)]).bonuses
            == After(init).bonuses + [DailyBonus(After(whole).user.value.streak)]
  {
    LastLoginIsStored(init);
  }

  /**
   A login on a new day, halted or not, puts on the ledger the bonus due for that
   streak, not for the run: what losses wiped out is missing from it and what was
   won is in it.
   */
  lemma BonusOfALogin(init: seq<Event>, day: int, halts: bool)
    requires Timely(init + [LoggedIn(day, halts)])
    requires LoginDays(init) != [] && day > LastDay(init)
    ensures var whole := init + [LoggedIn(day, false)];
            && Wiped(whole) <= Run(whole)
            && After(init + [LoggedIn(day, halts)]).bonuses
            == After(init).bonuses + [DailyBonus(Run(whole) - Wiped(whole) + WinsSince(whole))]
  {
    TimelyLogin(init, day, halts);
    BonusIsForTheStreak(init, day, halts);
    StreakFormula(init + [LoggedIn(day, false)]);
  }

  lemma AfterStep(init: seq<Event>, e: Event)
    ensures After(init + [e]) == Apply(After(init), e)
  {
    assert (init + [e])[..|init|] == init;
  }

  const LossBetweenDays: seq<Event> := [LoggedIn(1, false), LoggedIn(2, false), Lost, LoggedIn(3, false)]

  lemma AfterALoss()
    ensures After(LossBetweenDays) == Account(Some(User(Some(3), 1, 1300.0)), [100.0, 100.0, 100.0])
  {
    hide After;
    var a := [LoggedIn(1, false)];
    var b := a + [LoggedIn(2, false)];
    var c := b + [Lost];
    AfterNothing();
    AfterStep([], LoggedIn(1, false));
    assert [] + [LoggedIn(1, false)] == a;
    assert After(a) == Account(Some(User(Some(1), 1, 1100.0)), [100.0]);
    AfterStep(a, LoggedIn(2, false));
    assert After(b) == Account(Some(User(Some(2), 2, 1200.0)), [100.0, 100.0]);
    AfterStep(b, Lost);
    assert After(c) == Account(Some(User(Some(2), 0, 1200.0)), [100.0, 100.0]);
    AfterStep(c, LoggedIn(3, false));
    assert c + [LoggedIn(3, false)] == LossBetweenDays;
  }

  lemma AfterNothing()
    ensures After([]) == Account(None, [])
  {
  }

  lemma DaysStep(init: seq<Event>, e: Event)
    ensures LoginDays(init + [e]) == LoginDays(init) + (if Counts(init, e) then [e.day] else [])
  {
    assert (init + [e])[..|init|] == init;
  }

  lemma DaysAroundALoss()
    ensures LoginDays(LossBetweenDays) == [1, 2, 3]
  {
    var a := [LoggedIn(1, false)];
    var b := a + [LoggedIn(2, false)];
    var c := b + [Lost];
    assert [] + [LoggedIn(1, false)] == a && c + [LoggedIn(3, false)] == LossBetweenDays;
    DaysStep([], LoggedIn(1, false));
    assert LoginDays([]) == [];
    hide LoginDays;
    DaysStep(a, LoggedIn(2, false));
    DaysStep(b, Lost);
    DaysStep(c, LoggedIn(3, false));
  }

  /** Three days in a row, a loss on the second: the streak is 1 and the third bonus 100 instead of 150. */
  lemma LossBreaksTheStreak()
    ensures After(LossBetweenDays) == Account(Some(User(Some(3), 1, 1300.0)), [100.0, 100.0, 100.0])
    ensures LoginDays(LossBetweenDays) == [1, 2, 3] && RunLength([1, 2, 3], 3)
    ensures DailyBonus(3) == 150.0
  {
    hide After, LoginDays;
    AfterALoss();
    DaysAroundALoss();
  }

  /** Two wins between two days: the second login is paid as if it were the fourth. */
  lemma WinsInflateTheBonus()
    ensures var acc := After([LoggedIn(1, false), Won, Won, LoggedIn(2, false)]);
            acc == Account(Some(User(Some(2), 4, 1250.0)), [100.0, 150.0])
  {
    hide After;
    var a, b := [LoggedIn(1, false)], [LoggedIn(1, false), Won];
    AfterNothing();
    AfterStep([], LoggedIn(1, false));
    assert [] + [LoggedIn(1, false)] == a && a + [Won] == b;
    assert After(a) == Account(Some(User(Some(1), 1, 1100.0)), [100.0]);
    AfterStep(a, Won);
    AfterStep(b, Won);
    assert After(b + [Won]) == Account(Some(User(Some(1), 3, 1100.0)), [100.0]);
    AfterStep(b + [Won], LoggedIn(2, false));
    assert b + [Won] + [LoggedIn(2, false)] == [LoggedIn(1, false), Won, Won, LoggedIn(2, false)];
  }

  // ---------------------------------------------------------------------------
  // How many bonuses, and the balance
  // ---------------------------------------------------------------------------

  function DaySet(days: seq<int>): set<int> {
    set d | d in days
  }

  predicate NoHalt(events: seq<Event>) {
    forall i :: 0 <= i < |events| && events[i].LoggedIn? ==> !events[i].halts
  }

  lemma DaySetStep(init: seq<int>, day: int)
    requires init != [] ==> (forall d :: d in init ==> d <= init[|init| - 1]) && init[|init| - 1] <= day
    ensures |DaySet(init + [day])| == |DaySet(init)| + if init != [] && day == init[|init| - 1] then 0 else 1
  {
    assert DaySet(init + [day]) == DaySet(init) + {day};
    if init != [] {
      assert init[|init| - 1] in DaySet(init);
      assert day in DaySet(init) <==> day == init[|init| - 1];
    }
  }

  /** A halted login of a known user on a new day: its bonus is on the ledger, its day is not on the row. */
  predicate PaysHalfway(init: seq<Event>, e: Event) {
    e.LoggedIn? && e.halts && LoginDays(init) != [] && e.day > LastDay(init)
  }

  function Halfway(events: seq<Event>): nat {
    if events == [] then 0
    else
      var init, e := events[..|events| - 1], events[|events| - 1];
      Halfway(init) + if PaysHalfway(init, e) then 1 else 0
  }

  /** The first login created the user and halted before its bonus was written down. */
  predicate FirstHalted(events: seq<Event>) {
    events != [] &&
      var init, e := events[..|events| - 1], events[|events| - 1];
      if LoginDays(init) == [] then e.LoggedIn? && e.halts else FirstHalted(init)
  }

  lemma HalfwayStep(init: seq<Event>, e: Event)
    ensures Halfway(init + [e]) == Halfway(init) + if PaysHalfway(init, e) then 1 else 0
    ensures FirstHalted(init + [e]) == if LoginDays(init) == [] then e.LoggedIn? && e.halts else FirstHalted(init)
    ensures LoginDays(init) == [] ==> !FirstHalted(init) || init != []
  {
    assert (init + [e])[..|init|] == init;
  }

  /** What has been counted: bonuses and an unpaid first login, against days and logins paid halfway. */
  ghost predicate Counted(events: seq<Event>) {
    && |After(events).bonuses| + (if FirstHalted(events) then 1 else 0) == |DaySet(LoginDays(events))| + Halfway(events)
    && (LoginDays(events) == [] ==> !FirstHalted(events))
  }

  lemma CountedStep(init: seq<Event>, e: Event)
    requires Fits(init) && Counted(init)
    requires e.LoggedIn? && LoginDays(init) != [] ==> LastDay(init) <= e.day
    requires LoginDays(init) != [] ==> forall d :: d in LoginDays(init) ==> d <= LastDay(init)
    ensures Counted(init + [e])
  {
    hide After, LoginDays, Run, Wiped, WinsSince, RunLength, Halfway, FirstHalted, DaySet;
    Step(init, e);
    HalfwayStep(init, e);
    if Counts(init, e) {
      DaySetStep(LoginDays(init), e.day);
    } else {
      assert LoginDays(init + [e]) == LoginDays(init);
    }
  }

  /**
   How many bonuses there are, over every history: one for each distinct login day,
   one more for each halted login of a known user on a new day, which is paid again
   when it is repeated, and one less if the first login halted.
   */
  lemma {:induction false} BonusCount(events: seq<Event>)
    requires Timely(events)
    ensures Counted(events)
  {
    if events != [] {
      var init, e := events[..|events| - 1], events[|events| - 1];
      assert events == init + [e];
      assert forall i :: 0 <= i < |init| ==> init[i] == events[i];
      BonusCount(init);
      hide After, Run, Wiped, WinsSince, RunLength, Counted, Fits;
      EveryHistoryFits(init);
      LoginDaysInOrder(init, if e.LoggedIn? then e.day else LatestDay(init));
      assert LoginDays(init) != [] ==> LastDay(init) in LoginDays(init);
      CountedStep(init, e);
    }
  }

  lemma {:induction false} NoHaltNoHalfway(events: seq<Event>)
    requires NoHalt(events)
    ensures Halfway(events) == 0 && !FirstHalted(events)
  {
    if events != [] {
      var init := events[..|events| - 1];
      assert forall i :: 0 <= i < |init| ==> init[i] == events[i];
      NoHaltNoHalfway(init);
    }
  }

  /** So one bonus is paid for each distinct login day as long as no login halts, whatever settles in between. */
  lemma OneBonusPerDay(events: seq<Event>)
    requires Timely(events) && NoHalt(events)
    ensures |After(events).bonuses| == |DaySet(LoginDays(events))|
  {
    BonusCount(events);
    NoHaltNoHalfway(events);
  }

  function LatestDay(events: seq<Event>): (day: int)
    ensures forall i :: 0 <= i < |events| && events[i].LoggedIn? ==> events[i].day <= day
  {
    if events == [] then 0
    else
      var e, earlier := events[|events| - 1], LatestDay(events[..|events| - 1]);
      if e.LoggedIn? && e.day > earlier then e.day else earlier
  }

  function Total(bonuses: seq<real>): real {
    if bonuses == [] then 0.0 else Total(bonuses[..|bonuses| - 1]) + bonuses[|bonuses| - 1]
  }

  /** What a login put on the ledger. */
  function Paid(init: seq<Event>, e: Event): real {
    Total(After(init + [e]).bonuses) - Total(After(init).bonuses)
  }

  /** The bonuses that halted logins of a known user put on the ledger. */
  function HaltedBonuses(events: seq<Event>): real {
    if events == [] then 0.0
    else
      var init, e := events[..|events| - 1], events[|events| - 1];
      HaltedBonuses(init) + (if e.LoggedIn? && e.halts && After(init).user.Some? then Paid(init, e) else 0.0)
  }

  function WelcomeGap(events: seq<Event>): real {
    if FirstHalted(events) then 100.0 else 0.0
  }

  ghost predicate Drifts(events: seq<Event>) {
    var acc := After(events);
    && (acc.user.None? <==> LoginDays(events) == [])
    && (acc.user.None? ==> acc.bonuses == [] && WelcomeGap(events) == HaltedBonuses(events) == 0.0)
    && (acc.user.Some? ==>
          acc.user.value.balance - (1000.0 + Total(acc.bonuses)) == WelcomeGap(events) - HaltedBonuses(events))
  }

  /**
   Nothing ties the two writes of a login together. Over every history, halts and
   settlements included, the balance exceeds 1000 plus the ledger by exactly 100 if
   the first login halted, less the bonuses of the known user's halted logins.
   */
  lemma {:induction false} BalanceDrift(events: seq<Event>)
    ensures Drifts(events)
  {
    if events != [] {
      var init, e := events[..|events| - 1], events[|events| - 1];
      BalanceDrift(init);
      assert events == init + [e];
      DriftStep(init, e);
    }
  }

  lemma HaltedStep(init: seq<Event>, e: Event)
    ensures HaltedBonuses(init + [e])
         == HaltedBonuses(init) + (if e.LoggedIn? && e.halts && After(init).user.Some? then Paid(init, e) else 0.0)
  {
    assert (init + [e])[..|init|] == init;
  }

  lemma DriftStep(init: seq<Event>, e: Event)
    requires Drifts(init)
    ensures Drifts(init + [e])
  {
    hide After, LoginDays, HaltedBonuses, FirstHalted, Total;
    AfterStep(init, e);
    DaysStep(init, e);
    HalfwayStep(init, e);
    HaltedStep(init, e);
    TotalOfNothing();
    if e.LoggedIn? {
      TotalStep(After(init), e.day, e.halts);
    }
  }

  lemma TotalOfNothing()
    ensures Total([]) == 0.0
  {
  }

  /** What one login adds to the balance and to the ledger. */
  lemma TotalStep(acc: Account, day: int, halts: bool)
    ensures var after := Connected(acc, day, halts);
            && (acc.user.None? ==> Total(after.bonuses) == Total(acc.bonuses) + if halts then 0.0 else 100.0)
            && (acc.user.Some? && !halts ==>
                  after.user.value.balance - acc.user.value.balance == Total(after.bonuses) - Total(acc.bonuses))
  {
    var after := Connected(acc, day, halts);
    if after.bonuses != acc.bonuses {
      assert after.bonuses[..|after.bonuses| - 1] == acc.bonuses;
    }
  }

  /** Completed logins on `n` days in a row. */
  function DaysInARow(first: int, n: nat): seq<Event> {
    seq(n, i => LoggedIn(first + i, false))
  }

  /** The bonus of the day with that number in the row: 100, from the third day on 150, from the seventh on 200. */
  predicate IsBonusOfDay(number: nat, bonus: real) {
    bonus == if number < 3 then 100.0 else if number < 7 then 150.0 else 200.0
  }

  /** Logins on days in a row, with nothing settled in between, are paid by their number in the row. */
  lemma {:induction false} DaysInARowArePaid(first: int, n: nat)
    requires n > 0
    ensures var acc := After(DaysInARow(first, n));
            && acc.user.Some? && acc.user.value.streak == n && acc.user.value.lastDay == Some(first + n - 1)
            && acc.user.value.balance == 1000.0 + Total(acc.bonuses)
            && |acc.bonuses| == n && forall k :: 0 <= k < n ==> IsBonusOfDay(k + 1, acc.bonuses[k])
  {
    var events := DaysInARow(first, n);
    assert events[..n - 1] == DaysInARow(first, n - 1);
    var before := After(DaysInARow(first, n - 1));
    if n == 1 {
      assert After(events) == Account(Some(User(Some(first), 1, 1100.0)), [100.0]);
      assert Total([100.0]) == 100.0 by { assert [100.0][..0] == []; }
    } else {
      DaysInARowArePaid(first, n - 1);
      TotalAppend(before.bonuses, DailyBonus(n));
    }
  }

  /** So the balance is 1000 plus the ledger exactly when those two amounts are the same. */
  lemma BalanceIsTheLedgerIff(events: seq<Event>)
    requires After(events).user.Some?
    ensures After(events).user.value.balance == 1000.0 + Total(After(events).bonuses)
       <==> WelcomeGap(events) == HaltedBonuses(events)
  {
    BalanceDrift(events);
  }

  /** The bonuses due for the halted logins of a known user on new days, by the formula of the streak. */
  function DueBonuses(events: seq<Event>): real {
    if events == [] then 0.0
    else
      var init, e := events[..|events| - 1], events[|events| - 1];
      DueBonuses(init) + if PaysHalfway(init, e) then DailyBonus(Due(init, e.day)) else 0.0
  }

  /** The streak for which a login on that day is paid. */
  function Due(init: seq<Event>, day: int): int {
    var whole := init + [LoggedIn(day, false)];
    Run(whole) - Wiped(whole) + WinsSince(whole)
  }

  /** A halted login of a known user pays what is due on a new day, and nothing on the last login day. */
  lemma PaidIsDue(init: seq<Event>, day: int)
    requires Timely(init + [LoggedIn(day, true)]) && LoginDays(init) != []
    ensures Paid(init, LoggedIn(day, true)) == if day > LastDay(init) then DailyBonus(Due(init, day)) else 0.0
  {
    hide After, LoginDays, Run, Wiped, WinsSince, Total;
    if day > LastDay(init) {
      BonusOfALogin(init, day, true);
      TotalAppend(After(init).bonuses, DailyBonus(Due(init, day)));
    } else {
      SameDayPaysNothing(init, day);
    }
  }

  lemma SameDayPaysNothing(init: seq<Event>, day: int)
    requires Timely(init + [LoggedIn(day, true)]) && LoginDays(init) != [] && day <= LastDay(init)
    ensures After(init + [LoggedIn(day, true)]).bonuses == After(init).bonuses
  {
    hide After, LoginDays, Run, Wiped, WinsSince;
    TimelyLogin(init, day, true);
    LastDayBefore(init, day);
    LastLoginIsStored(init);
    AfterStep(init, LoggedIn(day, true));
  }

  lemma LastDayBefore(init: seq<Event>, day: int)
    requires Timely(init + [LoggedIn(day, true)]) && LoginDays(init) != []
    ensures LastDay(init) <= day
  {
    hide LoginDays;
    var events := init + [LoggedIn(day, true)];
    forall i | 0 <= i < |init| && init[i].LoggedIn? ensures init[i].day <= day {
      assert events[i] == init[i] && events[|init|].LoggedIn?;
    }
    TimelyLogin(init, day, true);
    LoginDaysInOrder(init, day);
    assert LastDay(init) in LoginDays(init);
  }

  lemma TotalAppend(bonuses: seq<real>, b: real)
    ensures Total(bonuses + [b]) == Total(bonuses) + b
  {
    assert (bonuses + [b])[..|bonuses|] == bonuses;
  }

  lemma {:induction false} HaltedBonusesAreDue(events: seq<Event>)
    requires Timely(events)
    ensures HaltedBonuses(events) == DueBonuses(events)
  {
    if events != [] {
      var init, e := events[..|events| - 1], events[|events| - 1];
      assert events == init + [e];
      assert forall i :: 0 <= i < |init| ==> init[i] == events[i];
      HaltedBonusesAreDue(init);
      BalanceDrift(init);
      hide After, LoginDays, Run, Wiped, WinsSince, Paid, Timely;
      if e.LoggedIn? && e.halts && LoginDays(init) != [] {
        PaidIsDue(init, e.day);
      }
    }
  }

  /**
   By the events alone: the balance is 1000 plus the ledger exactly when the bonuses
   due for the halted logins on new days come to 100 if the first login halted, and
   to nothing otherwise.
   */
  lemma BalanceIsTheLedgerByEvents(events: seq<Event>)
    requires Timely(events) && LoginDays(events) != []
    ensures After(events).user.Some?
    ensures After(events).user.value.balance == 1000.0 + Total(After(events).bonuses)
       <==> DueBonuses(events) == if FirstHalted(events) then 100.0 else 0.0
  {
    BalanceDrift(events);
    HaltedBonusesAreDue(events);
  }

  lemma {:induction false} NoHaltNoGap(events: seq<Event>)
    requires NoHalt(events)
    ensures WelcomeGap(events) == HaltedBonuses(events) == 0.0
  {
    if events != [] {
      var init := events[..|events| - 1];
      assert forall i :: 0 <= i < |init| ==> init[i] == events[i];
      NoHaltNoGap(init);
    }
  }

  /** Completed logins keep the balance at 1000 plus the bonuses on the ledger. */
  lemma BalanceIsTheLedger(events: seq<Event>)
    requires NoHalt(events) && After(events).user.Some?
    ensures After(events).user.value.balance == 1000.0 + Total(After(events).bonuses)
  {
    NoHaltNoGap(events);
    BalanceDrift(events);
  }

  /**
   A login that halted is paid again by the next one of the same day: two bonuses
   on the ledger, one in the balance.
   */
  lemma HalfwayLoginIsPaidTwice(acc: Account, day: int)
    requires acc.user.Some? && acc.user.value.lastDay.Some? && acc.user.value.lastDay.value < day
    ensures var twice := Connected(Connected(acc, day, true), day, false);
            && |twice.bonuses| == |acc.bonuses| + 2
            && twice.user.value.balance - acc.user.value.balance == (Total(twice.bonuses) - Total(acc.bonuses)) / 2.0
  {
  }
}
