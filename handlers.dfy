/**
 * The command handlers of main.py over the bot's `users` table.
 *
 * The table lives in one object; `/start` and `/withdraw` update it in place,
 * `/balance` and `/leaderboard` only read it. Each handler's effect on the
 * table is stated through the functions of `Ledger`, whose contracts say what
 * the effect means, so the invariant that no balance is negative is kept by
 * every handler.
 */
module Handlers {
  import opened Wrappers
  import opened Command
  import opened Ledger
  import opened Ranking

  /** What `/start` answers. */
  datatype StartReply =
    | Welcome(referralPayload: string)  // the welcome text with the link `?start=<payload>`
    | MustJoin                          // the caller is not subscribed to the channel
    | InsertRaised                      // the `INSERT` raised before any reply was sent

  class ReferralBot {
    var users: Table

    ghost predicate Valid()
      reads this
    {
      Consistent(users)
    }

    /** `initialize_database()` on a new database file: the table exists and is empty. */
    constructor ()
      ensures Valid() && users == map[]
    {
      users := map[];
    }

    /**
     * The database part of `/start`: inserts an unknown caller with
     * `referrerId` and balance 0, then credits the row of a truthy referrer
     * id. Returns true when the `INSERT` raises; a known caller runs no
     * `INSERT` and gets false.
     */
    method Register(userId: UserId, referrerId: Option<int>) returns (raised: bool)
      requires Valid()
      modifies this
      ensures Valid()
      ensures users == Started(old(users), userId, referrerId)
      ensures raised == InsertFails(old(users), userId, referrerId)
    {
      if userId !in users {
        if !Bindable(referrerId) {
          // `sqlite3` raises OverflowError binding the INSERT parameters
          return true;
        }
        var added := users[userId := Row(referrerId, 0)];
        if Truthy(referrerId) && referrerId.value in added {
          var r: UserId := referrerId.value;
          users := added[r := added[r].(balance := added[r].balance + ReferralBonus)];
        } else {
          users := added;
        }
      }
      raised := false;
    }

    /**
     * `/start` from `userId` with message `text`: registers an unknown caller
     * with the referrer the text names and credits that referrer, then replies
     * with the caller's own referral link, whose payload is the caller's id.
     */
    method Start(userId: UserId, text: string) returns (reply: StartReply)
      requires Valid()
      modifies this
      ensures Valid()
      ensures users == Started(old(users), userId, ReferrerArg(text))
      ensures reply == if InsertFails(old(users), userId, ReferrerArg(text)) then InsertRaised
                       else Welcome(IdString(userId))
    {
      var referrerId := ReferrerArg(text);
      var raised := Register(userId, referrerId);
      reply := if raised then InsertRaised else Welcome(IdString(userId));
    }

    /** `/balance`: the caller's stored balance, or 0 when the caller has no row. */
    method Balance(userId: UserId) returns (b: int)
      ensures userId in users ==> b == users[userId].balance
      ensures userId !in users ==> b == 0
      ensures Valid() ==> b >= 0
    {
      b := if userId in users then users[userId].balance else 0;
    }

    /**
     * `/withdraw`: accepted exactly when the caller is registered with at least
     * the threshold, in which case the withdrawal amount is debited.
     */
    method Withdraw(userId: UserId) returns (ok: bool)
      requires Valid()
      modifies this
      ensures Valid()
      ensures ok == CanWithdraw(old(users), userId)
      ensures users == Withdrawn(old(users), userId)
    {
      ok := userId in users && users[userId].balance >= WithdrawThreshold;
      if ok {
        users := users[userId := users[userId].(balance := users[userId].balance - WithdrawAmount)];
      }
    }

    /** A user among `candidates` whose balance no other candidate exceeds; any of several tied ones. */
    method Richest(candidates: set<UserId>) returns (best: UserId)
      requires candidates != {} && candidates <= users.Keys
      ensures best in candidates
      ensures forall k :: k in candidates ==> users[k].balance <= users[best].balance
    {
      best :| best in candidates;
      var todo := candidates - {best};
      while todo != {}
        invariant todo <= candidates && best in candidates
        invariant forall k :: k in candidates - todo ==> users[k].balance <= users[best].balance
        decreases |todo|
      {
        var k :| k in todo;
        if users[k].balance > users[best].balance {
          best := k;
        }
        todo := todo - {k};
      }
    }

    /** `/leaderboard`: the rows of `ORDER BY balance DESC LIMIT 10`. */
    method Leaderboard() returns (top: seq<Entry>)
      ensures IsTop(users, LeaderboardSize, top)
    {
      var rest := users.Keys;
      top := [];
      while |top| < LeaderboardSize && rest != {}
        invariant IsPartialTop(users, rest, top)
        invariant |rest| == |users.Keys| - |top|
        invariant |top| <= LeaderboardSize
        decreases |rest|
      {
        var best := Richest(rest);
        ExtendPartialTop(users, rest, top, best);
        top, rest := top + [Entry(best, users[best].balance)], rest - {best};
      }
      PartialTopComplete(users, LeaderboardSize, rest, top);
    }
  }
}
