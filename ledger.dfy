/**
 * The `users` table of the referral bot and what each command does to it.
 *
 * The table is keyed by `user_id` (UNIQUE in the schema, so a map); each row
 * holds the nullable `referrer_id` it was registered with and an integer
 * `balance` that starts at 0. `/start` registers a caller once and credits the
 * referrer named in the command; `/withdraw` debits a fixed amount once the
 * balance reaches the threshold; `/balance` and `/leaderboard` only read.
 * Each handler is one atomic step here.
 */
module Ledger {
  import opened Wrappers
  import opened Command

  /** Bounds of SQLite's INTEGER, which `sqlite3` binds Python ints into. */
  const MinInt64: int := -0x8000_0000_0000_0000
  const MaxInt64: int := 0x7FFF_FFFF_FFFF_FFFF

  /** A Telegram user id; it always fits a SQLite INTEGER. */
  type UserId = x: int | -0x8000_0000_0000_0000 <= x <= 0x7FFF_FFFF_FFFF_FFFF

  /** Credit a referrer earns per newly registered user. */
  const ReferralBonus: int := 2
  /** Smallest balance `/withdraw` accepts. */
  const WithdrawThreshold: int := 100
  /** Amount `/withdraw` takes off the balance. */
  const WithdrawAmount: int := 100
  /** Number of rows `/leaderboard` asks for. */
  const LeaderboardSize: nat := 10

  /** One row of `users`, apart from its key `user_id`. */
  datatype Row = Row(referrerId: Option<int>, balance: int)

  type Table = map<UserId, Row>

  /** Python's truth value of `referrer_id`: `None` and `0` are false. */
  predicate Truthy(referrerId: Option<int>) {
    referrerId.Some? && referrerId.value != 0
  }

  /** `sqlite3` can bind the value as a parameter (otherwise it raises `OverflowError`). */
  predicate Bindable(referrerId: Option<int>) {
    referrerId.None? || MinInt64 <= referrerId.value <= MaxInt64
  }

  /** The invariant the handlers keep: no balance is negative. */
  ghost predicate Consistent(t: Table) {
    forall k :: k in t ==> t[k].balance >= 0
  }

  /** The `INSERT` of a new caller raises, because the referrer id does not fit a SQLite INTEGER. */
  predicate InsertFails(t: Table, userId: UserId, referrerId: Option<int>) {
    userId !in t && !Bindable(referrerId)
  }

  /**
   * The table after `/start` from `userId` naming `referrerId`: an unknown
   * caller gets a row with that referrer and balance 0, then the row whose
   * `user_id` is a truthy referrer id (the new row included) gains the bonus.
   * A known caller, or an insert that raises, leaves the table as it was.
   */
  function Started(t: Table, userId: UserId, referrerId: Option<int>): (t': Table)
    ensures userId in t || InsertFails(t, userId, referrerId) ==> t' == t
    ensures userId !in t && Bindable(referrerId) ==>
      && t'.Keys == t.Keys + {userId}
      && t'[userId].referrerId == referrerId
      && t'[userId].balance == (if Truthy(referrerId) && referrerId.value == userId then ReferralBonus else 0)
    ensures userId !in t ==> forall k :: k in t ==>
      && k in t'
      && t'[k].referrerId == t[k].referrerId
      && t'[k].balance == t[k].balance + (if Truthy(referrerId) && referrerId.value == k then ReferralBonus else 0)
    ensures Consistent(t) ==> Consistent(t')
  {
    if userId in t || !Bindable(referrerId) then t
    else
      var inserted := t[userId := Row(referrerId, 0)];
      if Truthy(referrerId) && referrerId.value in inserted then
        var r: UserId := referrerId.value;
        inserted[r := inserted[r].(balance := inserted[r].balance + ReferralBonus)]
      else
        inserted
  }

  /** `/withdraw` succeeds: the caller is registered and holds at least the threshold. */
  predicate CanWithdraw(t: Table, userId: UserId) {
    userId in t && t[userId].balance >= WithdrawThreshold
  }

  /**
   * The table after `/withdraw` from `userId`: on success the caller's balance
   * drops by exactly the withdrawal amount (the rest stays), otherwise nothing
   * changes; no other row and no referrer binding is touched.
   */
  function Withdrawn(t: Table, userId: UserId): (t': Table)
    ensures t'.Keys == t.Keys
    ensures !CanWithdraw(t, userId) ==> t' == t
    ensures forall k :: k in t ==>
      && t'[k].referrerId == t[k].referrerId
      && t'[k].balance == t[k].balance - (if k == userId && CanWithdraw(t, userId) then WithdrawAmount else 0)
    ensures CanWithdraw(t, userId) ==> t'[userId].balance >= 0
    ensures Consistent(t) ==> Consistent(t')
  {
    if CanWithdraw(t, userId) then
      t[userId := t[userId].(balance := t[userId].balance - WithdrawAmount)]
    else
      t
  }

  // ---------------------------------------------------------------------------
  // Sequences of commands
  // ---------------------------------------------------------------------------

  /** An incoming command, as the dispatcher routes it to a handler. */
  datatype Update =
    | Start(userId: UserId, text: string)
    | Balance(userId: UserId)
    | Withdraw(userId: UserId)
    | Leaderboard

  /** The table after one handler has run. */
  function Step(t: Table, u: Update): Table {
    match u
    case Start(userId, text) => Started(t, userId, ReferrerArg(text))
    case Withdraw(userId) => Withdrawn(t, userId)
    case Balance(_) => t
    case Leaderboard => t
  }

  /** The table after the handlers for `us` have run one after another. */
  function Run(t: Table, us: seq<Update>): Table
    decreases |us|
  {
    if us == [] then t else Run(Step(t, us[0]), us[1..])
  }

  /** No reachable table holds a negative balance. */
  lemma {:induction false} RunConsistent(t: Table, us: seq<Update>)
    requires Consistent(t)
    ensures Consistent(Run(t, us))
    decreases |us|
  {
    if us != [] {
      RunConsistent(Step(t, us[0]), us[1..]);
    }
  }

  /** Rows are never deleted, and the referrer a user registered with never changes. */
  lemma {:induction false} RunKeepsRows(t: Table, us: seq<Update>)
    ensures forall k :: k in t ==> k in Run(t, us) && Run(t, us)[k].referrerId == t[k].referrerId
    decreases |us|
  {
    if us != [] {
      RunKeepsRows(Step(t, us[0]), us[1..]);
    }
  }

  /** Every update in `us` is a `/start` from `userId`. */
  ghost predicate AllStartsFrom(us: seq<Update>, userId: UserId) {
    forall i :: 0 <= i < |us| ==> us[i].Start? && us[i].userId == userId
  }

  /** Once `userId` is registered, further `/start` commands from it change nothing. */
  lemma {:induction false} RegisteredStartsAreNoops(t: Table, userId: UserId, us: seq<Update>)
    requires userId in t
    requires AllStartsFrom(us, userId)
    ensures Run(t, us) == t
    decreases |us|
  {
    if us != [] {
      RegisteredStartsAreNoops(t, userId, us[1..]);
    }
  }

  /**
   * A `/start` delivered any number of times (any texts) has the effect of the
   * first delivery alone, so the referrer is credited at most once. An insert
   * that raised leaves the caller unregistered and a later delivery registers it.
   */
  lemma DuplicateStartsCreditOnce(t: Table, userId: UserId, us: seq<Update>)
    requires us != [] && AllStartsFrom(us, userId)
    requires !InsertFails(t, userId, ReferrerArg(us[0].text))
    ensures Run(t, us) == Started(t, userId, ReferrerArg(us[0].text))
  {
    var t1 := Step(t, us[0]);
    assert userId in t1;
    RegisteredStartsAreNoops(t1, userId, us[1..]);
  }

  /**
   * The same `/start` update delivered any number of times has the effect of
   * one delivery, also when that delivery's insert raised: a redelivery then
   * raises again and changes nothing.
   */
  lemma {:induction false} RedeliveredStartActsOnce(t: Table, u: Update, us: seq<Update>)
    requires u.Start? && us != []
    requires forall i :: 0 <= i < |us| ==> us[i] == u
    ensures Run(t, us) == Step(t, u)
    decreases |us|
  {
    var t1 := Step(t, u);
    assert Run(t, us) == Run(t1, us[1..]);
    if u.userId in t1 {
      assert AllStartsFrom(us[1..], u.userId);
      RegisteredStartsAreNoops(t1, u.userId, us[1..]);
    } else if |us| > 1 {
      assert t1 == t;
      RedeliveredStartActsOnce(t, u, us[1..]);
    }
  }

  /**
   * Following the referral link of a user whose row does not exist yet
   * credits that user's own new row: there is no self-referral check.
   */
  lemma SelfReferralCreditsOwnRow(t: Table, userId: UserId)
    requires userId !in t && userId > 0
    ensures var t' := Started(t, userId, ReferrerArg(StartText(IdString(userId))));
            userId in t' && t'[userId] == Row(Some(userId), ReferralBonus)
  {
    ReferralLinkRoundTrip(userId);
  }

  /** The runs of the scenario below that matter: `a` registers without referrer, then `b` naming `a`. */
  lemma ReferredPair(t: Table, a: UserId, b: UserId)
    requires a != b && a > 0 && a !in t && b !in t
    ensures var t' := Started(Started(t, a, None), b, Some(a));
            && t'.Keys == t.Keys + {a, b}
            && t'[a] == Row(None, ReferralBonus)
            && t'[b] == Row(Some(a), 0)
            && forall k :: k in t ==> t'[k] == t[k]
  {
  }

  /** Three updates run as the first, then the second, then the third. */
  lemma RunThree(t: Table, us: seq<Update>)
    requires |us| == 3
    ensures Run(t, us) == Run(Step(Step(t, us[0]), us[1]), us[2..])
  {
  }

  /** The scenario below amounts to registering `a` without referrer, then `b` naming `a`. */
  lemma ScenarioRun(t: Table, a: UserId, b: UserId, plain: string)
    requires a > 0 && b > 0 && a != b && a !in t && b !in t
    requires ReferrerArg(plain) == None
    ensures Run(t, [Start(a, plain), Start(b, StartText(IdString(a))), Start(b, StartText(IdString(a)))])
         == Started(Started(t, a, None), b, Some(a))
  {
    var link := StartText(IdString(a));
    var us := [Start(a, plain), Start(b, link), Start(b, link)];
    ReferralLinkRoundTrip(a);
    var t2 := Started(Started(t, a, None), b, Some(a));
    assert Step(Step(t, us[0]), us[1]) == t2;
    RunThree(t, us);
    assert us[2..] == [Start(b, link)];
    assert b in t2;
    RegisteredStartsAreNoops(t2, b, us[2..]);
  }

  /**
   * Two new users: `a` sends a `/start` without referrer (a bare `/start`,
   * say), then `b` opens `a`'s referral link and that update is delivered
   * twice. `a` gains the bonus exactly once, `b` is bound to `a`, and every
   * other row stays as it was.
   */
  lemma ReferralScenario(t: Table, a: UserId, b: UserId, plain: string)
    requires a > 0 && b > 0 && a != b && a !in t && b !in t
    requires ReferrerArg(plain) == None
    ensures var t' := Run(t, [Start(a, plain), Start(b, StartText(IdString(a))), Start(b, StartText(IdString(a)))]);
            && t'.Keys == t.Keys + {a, b}
            && t'[a] == Row(None, ReferralBonus)
            && t'[b] == Row(Some(a), 0)
            && forall k :: k in t ==> t'[k] == t[k]
  {
    ScenarioRun(t, a, b, plain);
    ReferredPair(t, a, b);
  }

  // ---------------------------------------------------------------------------
  // Overlapping `/withdraw` requests
  // ---------------------------------------------------------------------------

  /**
   * The `UPDATE` of `/withdraw` on its own: the caller's row loses the
   * withdrawal amount, whatever its balance is by then.
   */
  function Debited(t: Table, userId: UserId): (t': Table)
    ensures t'.Keys == t.Keys
    ensures forall k :: k in t ==>
      && t'[k].referrerId == t[k].referrerId
      && t'[k].balance == t[k].balance - (if k == userId then WithdrawAmount else 0)
  {
    if userId in t then t[userId := t[userId].(balance := t[userId].balance - WithdrawAmount)] else t
  }

  /**
   * `/withdraw` as written: the balance is checked on the table `checked`,
   * the confirmation is awaited, and the debit then applies to the table
   * `now` that the handlers run meanwhile have left.
   */
  function WithdrawnAsWritten(checked: Table, now: Table, userId: UserId): Table {
    if CanWithdraw(checked, userId) then Debited(now, userId) else now
  }

  /** With no handler running during the `await`, the code as written is `Withdrawn`. */
  lemma WithdrawnAsWrittenAlone(t: Table, userId: UserId)
    ensures WithdrawnAsWritten(t, t, userId) == Withdrawn(t, userId)
  {
  }

  /**
   * Two `/withdraw` requests from a user holding between 100 and 199 that
   * overlap at the `await`: both checks read the same balance and pass, both
   * debits land, and the balance ends 200 lower and negative.
   */
  lemma OverlappingWithdrawsOverdraw(t: Table, userId: UserId)
    requires userId in t && WithdrawThreshold <= t[userId].balance < WithdrawThreshold + WithdrawAmount
    ensures var t2 := WithdrawnAsWritten(t, WithdrawnAsWritten(t, t, userId), userId);
            && t2[userId].balance == t[userId].balance - 2 * WithdrawAmount
            && t2[userId].balance < 0
            && !Consistent(t2)
  {
    var t2 := WithdrawnAsWritten(t, WithdrawnAsWritten(t, t, userId), userId);
    assert t2[userId].balance < 0;
  }

  /**
   * With the check made where the debit is (`Withdrawn`, one step), the same
   * two requests debit once and the balance stays non-negative, however they
   * interleave with other handlers.
   */
  lemma OverlappingWithdrawsGuarded(t: Table, userId: UserId, between: seq<Update>)
    requires Consistent(t)
    ensures Consistent(Withdrawn(Run(Withdrawn(t, userId), between), userId))
  {
    RunConsistent(Withdrawn(t, userId), between);
  }

  /** A balance that covers one withdrawal but not two refuses the second request. */
  lemma SecondWithdrawRefused(t: Table, userId: UserId)
    requires userId in t && WithdrawThreshold <= t[userId].balance < WithdrawThreshold + WithdrawAmount
    ensures CanWithdraw(t, userId)
    ensures !CanWithdraw(Withdrawn(t, userId), userId)
    ensures Run(t, [Withdraw(userId), Withdraw(userId)]) == Withdrawn(t, userId)
  {
    var us := [Withdraw(userId), Withdraw(userId)];
    assert Run(t, us) == Run(Withdrawn(t, userId), us[1..]);
  }
}
