# Referral ledger of a Telegram referral bot

This project models the referral ledger behind the bot's command handlers. The
bot keeps one SQLite table, `users`. Each row has a unique `user_id`, the
nullable `referrer_id` the user registered with, and an integer `balance` that
starts at 0. Four commands work on it:

- `/start [arg]` registers an unknown caller. The second whitespace-separated
  token of the message, if it is all digits, is read as the referrer's id and
  stored with the new row. The row whose `user_id` equals a truthy (non-zero)
  referrer id then gains 2. A caller who already has a row changes nothing.
  The reply carries the caller's referral link `?start=<user_id>`, so a
  user's referral code is simply their own id.
- `/balance` answers the stored balance, or 0 for a caller without a row.
- `/withdraw` is accepted when the caller holds at least 100. It then
  subtracts exactly 100, and the rest of the balance stays.
- `/leaderboard` lists at most 10 `(user_id, balance)` rows, highest balance
  first.

`bot.php` holds the same handlers, despite its name written in the same
Python as `main.py`. Its one difference is that `/start` first checks whether
the caller is subscribed to the channel, and stops with a refusal when not.

Modules:

- `Wrappers` (`wrappers.dfy`): `Option`, the model of a nullable value.
- `Command` (`command.dfy`): Python's `str.split()`, `str.isdigit()`, `int()` and
  `str()` as far as the handler uses them. It proves that `Split` is exactly the
  tokenization of a text into words and whitespace runs. It defines
  `ReferrerArg`, the referral argument of a `/start` text (main.py:58-59), and
  proves that a user's referral link round-trips to their id.
- `Ledger` (`ledger.dfy`): the row type, the table as a map from `user_id`, the
  constants (bonus 2, threshold 100, debit 100, leaderboard size 10), and the
  effect of `/start` (`Started`) and of `/withdraw` (`Withdrawn`) on it. It also
  defines the effect of any sequence of commands (`Run`), with lemmas about
  such sequences.
- `Ranking` (`ranking.dfy`): which results `ORDER BY balance DESC LIMIT n` may
  return (`IsTop`), and the proof that all of them list the same balances.
- `Handlers` (`handlers.dfy`): the class `ReferralBot`, whose field `users` is
  the table and whose methods are main.py's handlers, written imperatively. Each
  method is proved against the `Ledger` or `Ranking` definitions.
- `GatedHandlers` (`gated.dfy`): bot.php's `/start` with its subscription gate.

bot.php's `/balance` (bot.php:84-93), `/withdraw` (bot.php:96-111) and
`/leaderboard` (bot.php:114-126) are the same code as main.py's. The same
`ReferralBot` methods model them. Its argument parse (bot.php:57-58) is the same
too and is modelled by `Command.ReferrerArg`. Its `/start` after the gate
(bot.php:64-75) is main.py's `/start`, and `GatedHandlers.Start` calls it.

Where a referral system would usually behave otherwise, the model follows
what this code does:

- There are no generated referral codes. The link carries the user's own id.
- There is no referral-edge table. The referrer is a column of the new row.
- There is no self-referral check. A new user who opens their own link gets
  the bonus on their own fresh row (`Ledger.SelfReferralCreditsOwnRow`). A
  referrer id of 0, or one with no row, credits nobody.
- `/withdraw` subtracts 100. It does not zero the balance.
- The leaderboard has no tie-break. Equal balances may come in any order.
- Registration is not gated in main.py. In bot.php, the subscription gate comes
  before registration.

One edge case of the code is modelled explicitly. `int()` in Python reads
digit strings far beyond 64 bits, but `sqlite3` can only bind values that fit a
64-bit SQLite INTEGER. So a `/start` from an unregistered caller whose argument is a digit
string above 2^63 - 1 raises `OverflowError` at the `INSERT`. Nothing is
committed, no welcome is sent, and the caller stays unregistered
(`Ledger.InsertFails`, the `InsertRaised` reply). Telegram user ids themselves
always fit, so `UserId` is the 64-bit range.

## Model

| member | source | states |
|---|---|---|
| `Command.Split` | main.py:58 | every token `text.split()` returns is non-empty and contains no whitespace; which tokens they are is stated by the next two lemmas |
| `Command.SplitTokenizes` | main.py:58 | the tokens of `text.split()`, with the whitespace runs it drops before, between and after them, spell `text` again; the runs are whitespace and those between two tokens are non-empty |
| `Command.SplitInterleave` | main.py:58 | any text laid out as words separated by non-empty whitespace runs, with optional whitespace at either end, splits into exactly those words, in order |
| `Command.StartArgument` | main.py:58-59 | for a text `cmd arg extra…` with any whitespace around and between the tokens, the referrer is `int(arg)` exactly when `arg` is all digits, whatever follows |
| `Command.FewTokensNoReferrer` | main.py:58-59 | a text of one token, or of whitespace only, names no referrer, whatever whitespace surrounds it |
| `Command.PlainStartHasNoReferrer` | main.py:59 | a bare `/start` names no referrer |
| `Command.DecimalRoundTrip` | main.py:59 | `int(str(n)) == n` for every non-negative `n` |
| `Command.IdString` | main.py:73 | `str(u)` is a single token, and it is all digits exactly when `u >= 0` |
| `Command.ReferralLinkRoundTrip` | main.py:73 | the `/start` text of user `u`'s referral link gives back `u` as referrer when `u >= 0`, and no referrer when `u < 0` |
| `Ledger.Started` | main.py:61-71 | a known caller, or an insert that raises, leaves the table unchanged; otherwise the keys grow by exactly the caller, whose row holds the parsed referrer and balance 0 (2 if it names itself). Every earlier row keeps its referrer, and its balance rises by exactly 2 if its id is the truthy referrer, else stays. No balance becomes negative |
| `Ledger.Withdrawn` | main.py:94-104 | the keys and all referrers stay; only when the caller has a row with balance ≥ 100 does its balance drop by exactly 100, and it stays ≥ 0; otherwise the table is unchanged |
| `Ledger.RunConsistent` | main.py:55-116 | after any sequence of commands run one at a time, starting from a table without negative balances, no balance is negative |
| `Ledger.RunKeepsRows` | main.py:61-104 | no command sequence deletes a row or changes the referrer a user registered with |
| `Ledger.RegisteredStartsAreNoops` | main.py:63-66 | once a user is registered, any number of further `/start` updates from that user leave the table unchanged |
| `Ledger.DuplicateStartsCreditOnce` | main.py:63-71 | `/start` updates from one caller, with any texts, have exactly the effect of the first, so the referrer is credited once, provided the first one's `INSERT` does not raise |
| `Ledger.RedeliveredStartActsOnce` | main.py:63-71 | the same `/start` update delivered any number of times has exactly the effect of one delivery, with no condition: an `INSERT` that raised raises again on every redelivery |
| `Ledger.SelfReferralCreditsOwnRow` | main.py:66-70 | a new user opening their own referral link gets a row referring to themselves with balance 2 |
| `Ledger.ReferredPair` | main.py:66-70 | registering `a` without referrer and then `b` naming `a` adds exactly these two rows: `a` with balance 2, `b` bound to `a` with balance 0, all else unchanged |
| `Ledger.ScenarioRun` | main.py:57-71 | a plain `/start` from `a`, then `a`'s link delivered twice to `b`, equals registering `a` and then `b` with referrer `a` once |
| `Ledger.ReferralScenario` | main.py:57-73 | in that scenario `a` ends with exactly one bonus, `b` is bound to `a` with balance 0, and every other row is unchanged |
| `Ledger.SecondWithdrawRefused` | main.py:99-101 | with a balance in [100, 200), of two `/withdraw` requests run one after the other the first is accepted and the second refused, and exactly 100 is debited |
| `Ledger.Debited` | main.py:101 | the `UPDATE` alone takes exactly 100 off the caller's row, whatever its balance, and changes nothing else |
| `Ledger.WithdrawnAsWrittenAlone` | main.py:96-102 | when no other handler runs during the `await`, `/withdraw` as written (check, then debit) is `Withdrawn` |
| `Ledger.OverlappingWithdrawsOverdraw` | main.py:96-102 | two `/withdraw` requests that both pass the check before either debits take 200 off a balance in [100, 200), leaving it negative |
| `Ledger.OverlappingWithdrawsGuarded` | main.py:96-102 | with check and debit in one step, two requests with any handlers run between them leave no balance negative |
| `Ranking.TopBalancesDetermined` | main.py:111 | any two admissible results of `ORDER BY balance DESC LIMIT n` have the same length and list the same balances position by position; they differ only among tied users |
| `Ranking.ExtendPartialTop` | main.py:111 | taking a richest remaining user keeps the selection invariant: listed users distinct, with their stored balances, non-increasing, none below any user still unlisted |
| `Ranking.PartialTopComplete` | main.py:111 | a selection stopped at `n` entries, or with nobody left, is an admissible query result |
| `Handlers.ReferralBot.constructor` | main.py:30-43 | a new database holds an empty table, which satisfies the invariant |
| `Handlers.ReferralBot.Register` | main.py:61-71 | the table becomes `Started(old table, caller, referrer)`, the invariant is kept, and it reports whether the `INSERT` raised; a known caller runs no `INSERT` and reports false |
| `Handlers.ReferralBot.Start` | main.py:56-77 | the table becomes `Started(old table, caller, ReferrerArg(text))`; the reply is the welcome with payload `str(user_id)`, unless the insert raised |
| `Handlers.ReferralBot.Balance` | main.py:82-88 | returns the stored balance of a registered caller and 0 for an unknown one, non-negative under the invariant, and changes nothing |
| `Handlers.ReferralBot.Withdraw` | main.py:93-104 | accepted exactly when the caller is registered with balance ≥ 100; the table becomes `Withdrawn(old table, caller)` and the invariant is kept; check and debit are one step (see Findings) |
| `Handlers.ReferralBot.Richest` | main.py:111 | picks a candidate whose balance no other candidate exceeds |
| `Handlers.ReferralBot.Leaderboard` | main.py:109-112 | returns an admissible result of `ORDER BY balance DESC LIMIT 10`: `min(10, |users|)` distinct registered users with their balances, non-increasing, and nobody left out holds more than anyone listed |
| `GatedHandlers.Start` | bot.php:55-81 | not subscribed: the reply is the refusal and the table is unchanged; subscribed: exactly main.py's `/start` |

## Left out

- The aiogram bot and dispatcher, polling, inline keyboards and all reply
  texts (main.py:5-7, 20-22, 74-77, 114-118, 121-129). Replies are modelled
  only as the `StartReply` variants, the returned balance, the `/withdraw`
  verdict and the leaderboard rows.
- The ranked text the leaderboard loop builds (main.py:114-116). It is
  presentation; the model returns the query's rows.
- `check_subscription` (main.py:46-52, bot.php:45-51). It calls the Telegram
  API, so bot.php's `/start` takes its result as the parameter `subscribed`.
- Environment loading, the exit on a missing token, and logging
  (main.py:10-18). These are configuration and I/O.
- sqlite3 connection handling and `row_factory`. Table creation is modelled
  only as the empty table of a new database file. The autoincrement `id` column
  is never read by the handlers and is not modelled.
- Concurrency. aiogram runs each update's handler as an asyncio task, and the
  database calls are synchronous. Between two `await`s a handler runs without
  interruption. `/start`, `/balance` and `/leaderboard` have no `await` inside
  their database work, so each is one atomic step, as modelled. `/withdraw`
  awaits its confirmation between the balance check and the debit
  (main.py:99-101, bot.php:104-106), so two requests can overlap there. The
  model keeps check and debit in one step; the overlap is under "## Findings".
  `Ledger.RunConsistent`, `Ledger.SecondWithdrawRefused` and
  `Handlers.ReferralBot.Withdraw` hold for handlers that run one at a time.
- Handlers.ReferralBot.Withdraw: models the check and the debit as one step,
  not the `await` between them in the code as written (see "## Findings").
- Failures of message sending. `/withdraw` sends its confirmation before the
  `UPDATE` (main.py:100-101), so a failed send would skip the debit. The model
  assumes sends succeed.
- `ReferrerArg` (in `Command`, without a contract of its own; its properties
  are `Command.StartArgument`, `Command.FewTokensNoReferrer` and
  `Command.ReferralLinkRoundTrip`): only the ASCII digits 0-9 count as digits. Python's
  `isdigit` also accepts other Unicode digits. For some of these `int()`
  raises, and for others it reads a value; neither case is modelled.
- Python's limit of 4300 digits for `int()` is not modelled. A Telegram message
  is too short to reach it.
- SQLite's 64-bit limit on balance arithmetic is not modelled; balances are
  unbounded integers. At 2 per referral, that limit is out of reach.
- Features the code does not have: generated referral codes, referral-edge
  records, self-referral rejection, withdrawing the whole balance, the daily
  bonus, and a per-user referral count.

## Findings

| source | as written | input that shows it | evidently intended | confidence | as-written member | corrected member |
|---|---|---|---|---|---|---|
| main.py:96-102 (also bot.php:101-107) | `/withdraw` reads the balance, checks it is at least 100, then awaits `message.answer` before the unconditional `UPDATE ... balance = balance - 100`; another `/withdraw` task can run its check during that `await` | a user holding 150 sends `/withdraw` twice in quick succession: both checks read 150, both debits land, and the balance ends at -50 | a withdrawal is accepted only while the balance at the debit still covers it (check and debit with no `await` between them, or `UPDATE ... WHERE user_id=? AND balance >= 100`), so balances never go negative | high in reasoning, not executed | `Ledger.OverlappingWithdrawsOverdraw` (over `Ledger.WithdrawnAsWritten`) | `Ledger.OverlappingWithdrawsGuarded` (over `Ledger.Withdrawn`, used by `Handlers.ReferralBot.Withdraw`) |
