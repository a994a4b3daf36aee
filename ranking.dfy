/**
 * What the leaderboard query may return: the ids and balances of at most
 * `n` users, ordered by balance from highest to lowest. SQLite fixes no
 * order among equal balances, so the result is a relation rather than a
 * function; the balances it lists, though, are the same for every
 * admissible result.
 */
module Ranking {
  import opened Ledger

  /** One result row of the leaderboard query. */
  datatype Entry = Entry(userId: UserId, balance: int)

  function Min(a: nat, b: nat): nat {
    if a <= b then a else b
  }

  /** The ids among the first `n` entries of `top`. */
  function IdsUpTo(top: seq<Entry>, n: nat): set<UserId>
    requires n <= |top|
  {
    set j | 0 <= j < n :: top[j].userId
  }

  /** The ids `top` lists. */
  function Ids(top: seq<Entry>): set<UserId> {
    IdsUpTo(top, |top|)
  }

  /**
   * `top` is an admissible answer to the query with `LIMIT n`: `min(n, |t|)`
   * distinct registered users with their stored balances, balances
   * non-increasing, and no user left out holds more than any user listed.
   */
  ghost predicate IsTop(t: Table, n: nat, top: seq<Entry>) {
    && |top| == Min(n, |t|)
    && (forall i :: 0 <= i < |top| ==> top[i].userId in t && top[i].balance == t[top[i].userId].balance)
    && (forall i, j :: 0 <= i < j < |top| ==> top[i].userId != top[j].userId)
    && (forall i, j :: 0 <= i < j < |top| ==> top[i].balance >= top[j].balance)
    && (forall k, i :: k in t && k !in Ids(top) && 0 <= i < |top| ==> t[k].balance <= top[i].balance)
  }

  /**
   * The state of a selection that has taken `top` off the front of the
   * ranking and still has `rest` to rank: the invariant by which the
   * leaderboard query is computed.
   */
  ghost predicate IsPartialTop(t: Table, rest: set<UserId>, top: seq<Entry>) {
    && rest == t.Keys - Ids(top)
    && (forall i :: 0 <= i < |top| ==> top[i].userId in t && top[i].balance == t[top[i].userId].balance)
    && (forall i, j :: 0 <= i < j < |top| ==> top[i].userId != top[j].userId)
    && (forall i, j :: 0 <= i < j < |top| ==> top[i].balance >= top[j].balance)
    && (forall k, i :: k in rest && 0 <= i < |top| ==> t[k].balance <= top[i].balance)
  }

  /** Appending an entry adds its id to the listed ids. */
  lemma IdsSnoc(top: seq<Entry>, e: Entry)
    ensures Ids(top + [e]) == Ids(top) + {e.userId}
  {
    var next := top + [e];
    forall x | x in Ids(next) ensures x in Ids(top) + {e.userId} {
      var j :| 0 <= j < |next| && next[j].userId == x;
      if j < |top| {
        assert top[j].userId == x;
      }
    }
    forall x | x in Ids(top) ensures x in Ids(next) {
      var j :| 0 <= j < |top| && top[j].userId == x;
      assert next[j].userId == x;
    }
    assert next[|top|].userId == e.userId;
  }

  /** Taking a richest remaining user onto the end keeps the selection invariant. */
  lemma ExtendPartialTop(t: Table, rest: set<UserId>, top: seq<Entry>, best: UserId)
    requires IsPartialTop(t, rest, top)
    requires best in rest && forall k :: k in rest ==> t[k].balance <= t[best].balance
    ensures IsPartialTop(t, rest - {best}, top + [Entry(best, t[best].balance)])
  {
    IdsSnoc(top, Entry(best, t[best].balance));
  }

  /** A selection stopped at `n` entries, or with nobody left, is an admissible answer. */
  lemma PartialTopComplete(t: Table, n: nat, rest: set<UserId>, top: seq<Entry>)
    requires IsPartialTop(t, rest, top)
    requires |rest| == |t.Keys| - |top| && |top| <= n
    requires |top| == n || rest == {}
    ensures IsTop(t, n, top)
  {
  }

  /** Users whose balance is at least `v`. */
  ghost function AtLeast(t: Table, v: int): set<UserId> {
    set k | k in t && t[k].balance >= v
  }

  /** Users whose balance exceeds `v`. */
  ghost function Above(t: Table, v: int): set<UserId> {
    set k | k in t && t[k].balance > v
  }

  /** A subset is no larger than its superset. */
  lemma SubsetCard(a: set<UserId>, b: set<UserId>)
    requires a <= b
    ensures |a| <= |b|
  {
    assert b == a + (b - a);
  }

  /** Listing `n` entries names at most `n` users, and exactly `n` when no id repeats. */
  lemma {:induction false} IdsUpToCard(top: seq<Entry>, n: nat)
    requires n <= |top|
    ensures |IdsUpTo(top, n)| <= n
    ensures (forall i, j :: 0 <= i < j < n ==> top[i].userId != top[j].userId) ==> |IdsUpTo(top, n)| == n
  {
    if n > 0 {
      IdsUpToCard(top, n - 1);
      assert IdsUpTo(top, n) == IdsUpTo(top, n - 1) + {top[n - 1].userId};
    }
  }

  /** The first `i + 1` entries of an admissible answer all hold at least the `i`-th balance. */
  lemma AtLeastBound(t: Table, n: nat, top: seq<Entry>, i: nat)
    requires IsTop(t, n, top) && i < |top|
    ensures |AtLeast(t, top[i].balance)| >= i + 1
  {
    IdsUpToCard(top, i + 1);
    SubsetCard(IdsUpTo(top, i + 1), AtLeast(t, top[i].balance));
  }

  /** Every user holding more than the `i`-th balance is among the first `i` entries. */
  lemma AboveBound(t: Table, n: nat, top: seq<Entry>, i: nat)
    requires IsTop(t, n, top) && i < |top|
    ensures |Above(t, top[i].balance)| <= i
  {
    forall k | k in Above(t, top[i].balance) ensures k in IdsUpTo(top, i) {
      if k in Ids(top) {
        var m :| 0 <= m < |top| && top[m].userId == k;
        assert m < i;
      }
    }
    IdsUpToCard(top, i);
    SubsetCard(Above(t, top[i].balance), IdsUpTo(top, i));
  }

  /** A higher threshold selects fewer users. */
  lemma ThresholdCard(t: Table, v: int, w: int)
    ensures v > w ==> |AtLeast(t, v)| <= |Above(t, w)|
  {
    if v > w {
      SubsetCard(AtLeast(t, v), Above(t, w));
    }
  }

  /**
   * Two admissible answers to the same query list the same balances in the
   * same order: they can differ only in which of several tied users appears.
   */
  lemma TopBalancesDetermined(t: Table, n: nat, a: seq<Entry>, b: seq<Entry>)
    requires IsTop(t, n, a) && IsTop(t, n, b)
    ensures |a| == |b|
    ensures forall i :: 0 <= i < |a| ==> a[i].balance == b[i].balance
  {
    forall i | 0 <= i < |a| ensures a[i].balance == b[i].balance {
      AtLeastBound(t, n, a, i);
      AboveBound(t, n, b, i);
      ThresholdCard(t, a[i].balance, b[i].balance);
      AtLeastBound(t, n, b, i);
      AboveBound(t, n, a, i);
      ThresholdCard(t, b[i].balance, a[i].balance);
    }
  }
}
