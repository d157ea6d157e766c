/** The gate of _notify (main.py): whether a message reaches the Telegram
    sendMessage call. A failure of the call itself is logged and swallowed,
    so it has no effect the model can observe. */
module Notifier {
  import opened Wrappers
  import opened Settings

  /** The arguments of one send_telegram_message call. */
  datatype Outgoing = Outgoing(botToken: string, chatId: string, text: string)

  /** Telegram is enabled and both the bot token and the chat id are set. */
  predicate ChannelOpen(cfg: Config) {
    cfg.telegramEnabled && cfg.telegramBotToken != "" && cfg.telegramChatId != ""
  }

  /** _notify: the message goes out, to the configured bot and chat, exactly
      when the channel is open. */
  function Notify(cfg: Config, message: string): (r: Option<Outgoing>)
    ensures r.Some? <==> ChannelOpen(cfg)
    ensures r.Some? ==> r.value == Outgoing(cfg.telegramBotToken, cfg.telegramChatId, message)
  {
    if !cfg.telegramEnabled then None
    else if cfg.telegramBotToken == "" || cfg.telegramChatId == "" then None
    else Some(Outgoing(cfg.telegramBotToken, cfg.telegramChatId, message))
  }

  /** The gate looks at the configuration only: any two messages are both
      sent or both dropped, and the token being paused plays no part. */
  lemma NotifyGateIgnoresMessage(cfg: Config, m1: string, m2: string, token: string)
    ensures Notify(cfg, m1).Some? <==> Notify(cfg.(accountToken := token), m2).Some?
  {
  }
}
