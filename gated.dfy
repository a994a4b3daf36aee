/**
 * bot.php: the same handlers as main.py, except that `/start` first asks the
 * Telegram API whether the caller is subscribed to the channel and stops with
 * a refusal when not. The answer of that call is a parameter here.
 */
module GatedHandlers {
  import opened Command
  import opened Ledger
  import opened Handlers

  /** bot.php's `/start`: refused without any change unless `subscribed`, otherwise main.py's `/start`. */
  method Start(bot: ReferralBot, userId: UserId, text: string, subscribed: bool) returns (reply: StartReply)
    requires bot.Valid()
    modifies bot
    ensures bot.Valid()
    ensures !subscribed ==> reply == MustJoin && bot.users == old(bot.users)
    ensures subscribed ==> bot.users == Started(old(bot.users), userId, ReferrerArg(text))
    ensures subscribed ==> reply == if InsertFails(old(bot.users), userId, ReferrerArg(text)) then InsertRaised
                                    else Welcome(IdString(userId))
  {
    if !subscribed {
      return MustJoin;
    }
    reply := bot.Start(userId, text);
  }
}
