/** One poll of the Telegram bot for a new account token,
    _poll_telegram_for_token (main.py). The getUpdates reply is an input;
    the poll yields the new cursor (the getUpdates offset), the account
    token, the lines of the .env file and the notifications sent back. */
module TelegramPoll {
  import opened Wrappers
  import opened Text
  import opened Json
  import opened Settings
  import opened Notifier
  import opened EnvFile

  /** A message or edited message: the id of its chat (the empty string
      when the chat or its id is absent) and its text (the empty string
      when absent or null). */
  datatype Message = Message(chatId: Value, text: string)

  /** One update of the batch; a message that is absent, null or empty is
      None. */
  datatype Update = Update(updateId: Option<int>, message: Option<Message>, editedMessage: Option<Message>)

  /** The getUpdates call raised, or it answered with "ok" (as Python reads
      its truth) and the "result" list (empty when absent). */
  datatype Reply = Unreachable | Answered(ok: bool, result: seq<Update>)

  /** What persists between polls: the cursor, the configuration (whose
      account token a command replaces) and the .env file's lines. */
  datatype PollState = PollState(offset: Option<int>, cfg: Config, envLines: seq<string>)

  /** What a message asks for. */
  datatype Command = Ignored | Usage | SetToken(token: string)

  const CommandWord := "/token"
  const UsageNotice := "Usage: /token <new_token>"

  /** The notification sent once the token is replaced, stamp being the
      local time as "%Y-%m-%d %H:%M:%S". */
  function UpdatedNotice(stamp: string): string {
    "TOKEN updated at " + stamp + "."
  }

  /** How the loop body reads a stripped text: a text starting with /token
      is a command; text.split(maxsplit=1) finds its argument after the
      first run of whitespace, and with no argument the reply is the usage
      line. */
  function ParseCommand(text: string): (c: Command)
    ensures c.SetToken? ==> StartsWith(text, CommandWord) && c.token != "" && IsStripped(c.token)
    ensures !StartsWith(text, CommandWord) ==> c.Ignored?
  {
    if !StartsWith(text, CommandWord) then Ignored
    else
      match FirstSpace(text)
      case None => Usage
      case Some(i) =>
        var arg := Strip(text[i..]);
        StripFacts(text[i..]);
        if arg == "" then
          Usage
        else
          SetToken(arg)
  }

  /** The command an update carries for the configured chat: its message
      (or, failing that, its edited message) must come from that chat, as
      str() of the chat id reads, and its stripped text must be a command. */
  function CommandOf(chatId: string, u: Update): Command {
    var msg := if u.message.Some? then u.message else u.editedMessage;
    if msg.None? || ToStr(msg.value.chatId) != chatId then Ignored
    else ParseCommand(Strip(msg.value.text))
  }

  /** Only a message from the configured chat whose stripped text starts
      with /token carries a command, and a token it sets is non-empty. */
  lemma CommandOfChat(chatId: string, u: Update)
    ensures var c := CommandOf(chatId, u);
            var msg := if u.message.Some? then u.message else u.editedMessage;
            !c.Ignored? ==>
              && msg.Some? && ToStr(msg.value.chatId) == chatId
              && StartsWith(Strip(msg.value.text), CommandWord)
              && (c.SetToken? ==> c.token != "")
  {
  }

  /** What the loop reads from one update: its id and its command. */
  datatype Item = Item(updateId: Option<int>, command: Command)

  /** The items of a batch, in order. */
  function Items(chatId: string, us: seq<Update>): (items: seq<Item>)
    ensures |items| == |us|
  {
    seq(|us|, i requires 0 <= i < |us| => Item(us[i].updateId, CommandOf(chatId, us[i])))
  }

  /** The loop's running values: the largest update id so far, the token,
      the tokens written to the .env file, in order, and the notifications
      sent. */
  datatype Acc = Acc(maxId: Option<int>, token: string, written: seq<string>, notices: seq<string>)

  /** The largest update id seen so far, after the update with id id. */
  function MaxId(seen: Option<int>, id: Option<int>): Option<int> {
    match id
    case None => seen
    case Some(n) =>
      match seen
      case None => Some(n)
      case Some(m) => Some(if n > m then n else m)
  }

  /** One iteration of the loop over the batch. */
  function Absorb(acc: Acc, item: Item, stamp: string): Acc {
    var maxId := MaxId(acc.maxId, item.updateId);
    match item.command
    case Ignored => acc.(maxId := maxId)
    case Usage => acc.(maxId := maxId, notices := acc.notices + [UsageNotice])
    case SetToken(t) => Acc(maxId, t, acc.written + [t], acc.notices + [UpdatedNotice(stamp)])
  }

  /** The loop over the batch, stamps(i) being the time at the i-th update. */
  function Batch(acc: Acc, items: seq<Item>, stamps: nat -> string): Acc
    decreases |items|
  {
    if |items| == 0 then acc
    else Absorb(Batch(acc, items[..|items| - 1], stamps), items[|items| - 1], stamps(|items| - 1))
  }

  /** The .env lines after update_env_vars({"TOKEN": t}) for each token t
      written, in order. */
  function WriteTokens(lines: seq<string>, tokens: seq<string>): seq<string>
    decreases |tokens|
  {
    if |tokens| == 0 then lines
    else Rewrite(WriteTokens(lines, tokens[..|tokens| - 1]), [("TOKEN", tokens[|tokens| - 1])])
  }

  /** What one poll did: whether getUpdates was called, the state after it
      and the notifications sent. */
  datatype PollResult = PollResult(requested: bool, state: PollState, notices: seq<string>)

  /** _poll_telegram_for_token. */
  function Poll(st: PollState, reply: Reply, stamps: nat -> string): (r: PollResult)
    ensures r.requested <==> ChannelOpen(st.cfg)
    ensures r.state.cfg == st.cfg.(accountToken := r.state.cfg.accountToken)
  {
    if !ChannelOpen(st.cfg) then PollResult(false, st, [])
    else
      match reply
      case Unreachable => PollResult(true, st, [])
      case Answered(ok, us) =>
        if !ok || |us| == 0 then PollResult(true, st, [])
        else
          var acc := Batch(Acc(None, st.cfg.accountToken, [], []), Items(st.cfg.telegramChatId, us), stamps);
          var offset := if acc.maxId.Some? then Some(acc.maxId.value + 1) else st.offset;
          PollResult(true, PollState(offset, st.cfg.(accountToken := acc.token), WriteTokens(st.envLines, acc.written)), acc.notices)
  }

  /** On a stripped text the usage line answers exactly a command word
      with nothing after it: a text starting with /token that holds no
      whitespace. */
  lemma ParseCommandUsage(text: string)
    requires IsStripped(text)
    ensures ParseCommand(text).Usage? <==>
              StartsWith(text, CommandWord) && forall i :: 0 <= i < |text| ==> !IsSpace(text[i])
  {
    FirstSpaceFirst(text);
    if StartsWith(text, CommandWord) && FirstSpace(text).Some? {
      var i := FirstSpace(text).value;
      assert text[|text| - 1] == text[i..][|text[i..]| - 1];
      assert !AllSpace(text[i..]);
      StripFacts(text[i..]);
    }
  }

  /** The first whitespace of w + rest is the first of rest when w holds
      none. */
  lemma {:induction false} FirstSpaceAfter(w: string, rest: string)
    requires forall i :: 0 <= i < |w| ==> !IsSpace(w[i])
    requires |rest| > 0 && IsSpace(rest[0])
    ensures FirstSpace(w + rest) == Some(|w|)
  {
    if |w| > 0 {
      assert (w + rest)[0] == w[0];
      assert (w + rest)[1..] == w[1..] + rest;
      FirstSpaceAfter(w[1..], rest);
    } else {
      assert w + rest == rest;
    }
  }

  /** "/token", whitespace and a stripped token is a command setting that
      token. */
  lemma ParseTokenCommand(gap: string, token: string)
    requires AllSpace(gap) && |gap| > 0
    requires token != "" && IsStripped(token)
    ensures ParseCommand(CommandWord + gap + token) == SetToken(token)
  {
    var text := CommandWord + gap + token;
    assert text[..|CommandWord|] == CommandWord;
    assert text == CommandWord + (gap + token);
    FirstSpaceAfter(CommandWord, gap + token);
    assert text[|CommandWord|..] == gap + token + [];
    StripPadded(gap, token, []);
  }

  /** Typing "/token", whitespace and a token (with any whitespace around
      the whole) sets exactly that token. */
  lemma CommandRoundTrip(pre: string, gap: string, token: string, post: string)
    requires AllSpace(pre) && AllSpace(post) && AllSpace(gap) && |gap| > 0
    requires token != "" && IsStripped(token)
    ensures ParseCommand(Strip(pre + CommandWord + gap + token + post)) == SetToken(token)
  {
    var text := CommandWord + gap + token;
    CommandTextStripped(gap, token);
    StripPadded(pre, text, post);
    Regroup(pre, CommandWord, gap, token, post);
    ParseTokenCommand(gap, token);
  }

  lemma CommandTextStripped(gap: string, token: string)
    requires token != "" && IsStripped(token)
    ensures IsStripped(CommandWord + gap + token)
  {
    var text := CommandWord + gap + token;
    assert text[0] == '/';
    assert text[|text| - 1] == token[|token| - 1];
  }

  lemma Regroup(a: string, b: string, c: string, d: string, e: string)
    ensures a + b + c + d + e == a + (b + c + d) + e
  {
  }

  /** The cursor the batch leaves: some item carries an id exactly when
      the largest id is known, and it is the largest of them. */
  lemma {:induction false} BatchMaxId(acc: Acc, items: seq<Item>, stamps: nat -> string)
    requires acc.maxId.None?
    ensures var m := Batch(acc, items, stamps).maxId;
            && (m.Some? <==> exists i :: 0 <= i < |items| && items[i].updateId.Some?)
            && (m.Some? ==> forall i :: 0 <= i < |items| && items[i].updateId.Some? ==> items[i].updateId.value <= m.value)
            && (m.Some? ==> exists i :: 0 <= i < |items| && items[i].updateId == m)
    decreases |items|
  {
    if |items| > 0 {
      var n := |items| - 1;
      var front := items[..n];
      BatchMaxId(acc, front, stamps);
      assert forall i :: 0 <= i < n ==> items[i] == front[i];
      var m := Batch(acc, items, stamps).maxId;
      if m.Some? && Batch(acc, front, stamps).maxId == m {
        var i :| 0 <= i < n && front[i].updateId == m;
        assert items[i].updateId == m;
      }
    }
  }

  /** Some item of the batch sets the token. */
  predicate AnySet(items: seq<Item>) {
    exists i :: 0 <= i < |items| && items[i].command.SetToken?
  }

  /** The i-th item is the last one of the batch that sets the token. */
  predicate LastSet(items: seq<Item>, i: int) {
    && 0 <= i < |items|
    && items[i].command.SetToken?
    && forall j :: i < j < |items| ==> !items[j].command.SetToken?
  }

  /** One iteration changes the token and writes it exactly for a /token
      command. */
  lemma AbsorbToken(acc: Acc, item: Item, stamp: string)
    ensures var r := Absorb(acc, item, stamp);
            && (item.command.SetToken? ==> r.token == item.command.token && r.written == acc.written + [r.token])
            && (!item.command.SetToken? ==> r.token == acc.token && r.written == acc.written)
  {
  }

  /** A batch without /token commands leaves the token alone and writes
      nothing. */
  lemma {:induction false} BatchWithoutSet(acc: Acc, items: seq<Item>, stamps: nat -> string)
    requires !AnySet(items)
    ensures Batch(acc, items, stamps).token == acc.token
    ensures Batch(acc, items, stamps).written == acc.written
    decreases |items|
  {
    if |items| > 0 {
      var n := |items| - 1;
      var front := items[..n];
      assert !AnySet(front) by {
        assert forall k :: 0 <= k < n ==> front[k] == items[k];
      }
      BatchWithoutSet(acc, front, stamps);
      AbsorbToken(Batch(acc, front, stamps), items[n], stamps(n));
    }
  }

  /** After the batch the token is the one the last /token command set,
      and it is also the last token written. */
  lemma {:induction false} BatchLastSet(acc: Acc, items: seq<Item>, stamps: nat -> string, i: int)
    requires LastSet(items, i)
    ensures var r := Batch(acc, items, stamps);
            && r.token == items[i].command.token
            && |r.written| > |acc.written|
            && r.written[|r.written| - 1] == r.token
    decreases |items|
  {
    var n := |items| - 1;
    var front := items[..n];
    var prev := Batch(acc, front, stamps);
    AbsorbToken(prev, items[n], stamps(n));
    if i < n {
      assert LastSet(front, i) by {
        assert forall k :: 0 <= k < n ==> front[k] == items[k];
      }
      BatchLastSet(acc, front, stamps, i);
    } else {
      BatchLength(acc, front, stamps);
    }
  }

  lemma {:induction false} BatchLength(acc: Acc, items: seq<Item>, stamps: nat -> string)
    ensures |Batch(acc, items, stamps).written| >= |acc.written|
    decreases |items|
  {
    if |items| > 0 {
      BatchLength(acc, items[..|items| - 1], stamps);
    }
  }

  /** Last command wins: after the batch the token is the argument of the
      last /token command, or the old token when there was none; every
      command wrote its token to the .env file, the last one last. */
  lemma BatchToken(acc: Acc, items: seq<Item>, stamps: nat -> string)
    ensures var r := Batch(acc, items, stamps);
            && (!AnySet(items) ==> r.token == acc.token && r.written == acc.written)
            && (forall i :: LastSet(items, i) ==> r.token == items[i].command.token)
            && (AnySet(items) ==> |r.written| > |acc.written| && r.written[|r.written| - 1] == r.token)
  {
    if AnySet(items) {
      var i := LastSetExists(items);
      BatchLastSet(acc, items, stamps, i);
      forall j | LastSet(items, j)
        ensures j == i
      {
      }
    } else {
      BatchWithoutSet(acc, items, stamps);
    }
  }

  /** update_env_vars with the same single key, applied again and again,
      leaves what the last application alone leaves. */
  lemma {:induction false} WriteTokensLast(lines: seq<string>, tokens: seq<string>)
    requires |tokens| > 0
    ensures WriteTokens(lines, tokens) == Rewrite(lines, [("TOKEN", tokens[|tokens| - 1])])
    decreases |tokens|
  {
    var n := |tokens| - 1;
    if n > 0 {
      var front := tokens[..n];
      WriteTokensLast(lines, front);
      LastWins(lines, WriteTokens(lines, front), front[n - 1], tokens[n]);
      assert front[n - 1] == tokens[n - 1];
    }
  }

  lemma LastWins(lines: seq<string>, w: seq<string>, a: string, b: string)
    requires w == Rewrite(lines, [("TOKEN", a)])
    ensures Rewrite(w, [("TOKEN", b)]) == Rewrite(lines, [("TOKEN", b)])
  {
    TokenUpdateComposes(lines, a, b);
  }

  /** The one key the poll writes is a plain key. */
  lemma TokenKeyIsPlain()
    ensures IsPlainKey("TOKEN")
  {
    assert "TOKEN"[0] == 'T';
    assert "TOKEN"[..1] != "#";
  }

  /** Writing TOKEN=a and then TOKEN=b leaves what writing TOKEN=b alone
      leaves. */
  lemma TokenUpdateComposes(lines: seq<string>, a: string, b: string)
    ensures Rewrite(Rewrite(lines, [("TOKEN", a)]), [("TOKEN", b)]) == Rewrite(lines, [("TOKEN", b)])
  {
    TokenKeyIsPlain();
    RewriteComposes(lines, [("TOKEN", a)], [("TOKEN", b)]);
  }

  /** Items carrying no command (other chats, empty or ordinary text)
      change nothing but the cursor. */
  lemma {:induction false} BatchIgnoresOthers(acc: Acc, items: seq<Item>, stamps: nat -> string)
    requires forall i :: 0 <= i < |items| ==> items[i].command.Ignored?
    ensures Batch(acc, items, stamps) == acc.(maxId := Batch(acc, items, stamps).maxId)
    decreases |items|
  {
    if |items| > 0 {
      var n := |items| - 1;
      assert forall i :: 0 <= i < n ==> items[..n][i] == items[i];
      BatchIgnoresOthers(acc, items[..n], stamps);
    }
  }

  /** The notification a command calls for: the usage line for a bare
      /token, the "TOKEN updated" line with the time of its update for a
      token, and none otherwise. */
  function NoticeOf(c: Command, stamp: string): seq<string> {
    match c
    case Ignored => []
    case Usage => [UsageNotice]
    case SetToken(_) => [UpdatedNotice(stamp)]
  }

  /** The notifications a batch calls for: each item's, in order. */
  function NoticesOf(items: seq<Item>, stamps: nat -> string): seq<string>
    decreases |items|
  {
    if |items| == 0 then []
    else NoticesOf(items[..|items| - 1], stamps) + NoticeOf(items[|items| - 1].command, stamps(|items| - 1))
  }

  /** The loop sends exactly the notifications the batch calls for, in
      order, after those already sent. */
  lemma {:induction false} BatchNoticesExact(acc: Acc, items: seq<Item>, stamps: nat -> string)
    ensures Batch(acc, items, stamps).notices == acc.notices + NoticesOf(items, stamps)
    decreases |items|
  {
    if |items| > 0 {
      var n := |items| - 1;
      BatchNoticesExact(acc, items[..n], stamps);
      assert Batch(acc, items, stamps).notices
          == Batch(acc, items[..n], stamps).notices + NoticeOf(items[n].command, stamps(n));
    }
  }

  /** Each item adds at most one notification, and each notification is
      either the usage line or a "TOKEN updated" line. */
  lemma {:induction false} BatchNotices(acc: Acc, items: seq<Item>, stamps: nat -> string)
    ensures var r := Batch(acc, items, stamps);
            && |acc.notices| <= |r.notices| <= |acc.notices| + |items|
            && r.notices[..|acc.notices|] == acc.notices
            && forall k :: |acc.notices| <= k < |r.notices| ==>
                 r.notices[k] == UsageNotice || exists i :: 0 <= i < |items| && r.notices[k] == UpdatedNotice(stamps(i))
    decreases |items|
  {
    if |items| > 0 {
      var n := |items| - 1;
      var prev := Batch(acc, items[..n], stamps);
      var r := Batch(acc, items, stamps);
      BatchNotices(acc, items[..n], stamps);
      assert r.notices[..|prev.notices|] == prev.notices;
      forall k | |acc.notices| <= k < |r.notices|
        ensures r.notices[k] == UsageNotice || exists i :: 0 <= i < |items| && r.notices[k] == UpdatedNotice(stamps(i))
      {
        if k < |prev.notices| {
          assert r.notices[k] == prev.notices[k];
        } else if r.notices[k] != UsageNotice {
          assert r.notices[k] == UpdatedNotice(stamps(n));
        }
      }
    }
  }

  /** A batch with a /token command has a last one. */
  lemma {:induction false} LastSetExists(items: seq<Item>) returns (i: int)
    requires AnySet(items)
    ensures LastSet(items, i)
    decreases |items|
  {
    var n := |items| - 1;
    if items[n].command.SetToken? {
      i := n;
    } else {
      var front := items[..n];
      assert forall k :: 0 <= k < n ==> front[k] == items[k];
      assert AnySet(front);
      i := LastSetExists(front);
    }
  }

  /** The cursor after a poll: one past the largest update id of a batch
      answered with ok, counting every update that has an id; unchanged
      after a failed request, ok=false, an empty batch, a batch without
      ids, or when the channel is closed. */
  lemma PollCursor(st: PollState, reply: Reply, stamps: nat -> string)
    ensures var o := Poll(st, reply, stamps).state.offset;
            var advanced := && ChannelOpen(st.cfg) && reply.Answered? && reply.ok
                            && exists i :: 0 <= i < |reply.result| && reply.result[i].updateId.Some?;
            && (!advanced ==> o == st.offset)
            && (advanced ==>
                  && o.Some?
                  && (exists i :: 0 <= i < |reply.result| && reply.result[i].updateId == Some(o.value - 1))
                  && (forall i :: 0 <= i < |reply.result| && reply.result[i].updateId.Some? ==>
                        reply.result[i].updateId.value < o.value))
  {
    if ChannelOpen(st.cfg) && reply.Answered? && reply.ok && |reply.result| > 0 {
      var items := Items(st.cfg.telegramChatId, reply.result);
      BatchMaxId(Acc(None, st.cfg.accountToken, [], []), items, stamps);
      assert forall i :: 0 <= i < |items| ==> items[i].updateId == reply.result[i].updateId;
    }
  }

  /** The cursor moves forward whenever the batch holds an id at or past
      the offset the request was made with, as getUpdates guarantees. */
  lemma PollCursorAdvances(st: PollState, reply: Reply, stamps: nat -> string, i: nat)
    requires ChannelOpen(st.cfg) && reply.Answered? && reply.ok
    requires i < |reply.result| && reply.result[i].updateId.Some?
    requires st.offset.Some? ==> reply.result[i].updateId.value >= st.offset.value
    ensures var o := Poll(st, reply, stamps).state.offset;
            o.Some? && (st.offset.Some? ==> o.value > st.offset.value)
  {
    PollCursor(st, reply, stamps);
  }

  /** The token and .env lines after a poll: those of the last /token
      command of an accepted batch, written as one TOKEN= update; otherwise
      untouched, and nothing is sent back. */
  lemma PollToken(st: PollState, reply: Reply, stamps: nat -> string)
    ensures var r := Poll(st, reply, stamps);
            var accepted := ChannelOpen(st.cfg) && reply.Answered? && reply.ok;
            && (!accepted ==> r.state.cfg == st.cfg && r.state.envLines == st.envLines && r.notices == [])
            && (accepted && AnySet(Items(st.cfg.telegramChatId, reply.result)) ==>
                  && r.state.envLines == Rewrite(st.envLines, [("TOKEN", r.state.cfg.accountToken)])
                  && exists i :: LastSet(Items(st.cfg.telegramChatId, reply.result), i)
                                 && r.state.cfg.accountToken == Items(st.cfg.telegramChatId, reply.result)[i].command.token)
            && (accepted && !AnySet(Items(st.cfg.telegramChatId, reply.result)) ==>
                  r.state.cfg == st.cfg && r.state.envLines == st.envLines)
  {
    if ChannelOpen(st.cfg) && reply.Answered? && reply.ok && |reply.result| > 0 {
      var items := Items(st.cfg.telegramChatId, reply.result);
      var acc := Acc(None, st.cfg.accountToken, [], []);
      BatchToken(acc, items, stamps);
      var r := Batch(acc, items, stamps);
      if AnySet(items) {
        var i := LastSetExists(items);
        WriteTokensLast(st.envLines, r.written);
      }
    }
  }

  /** The notifications a poll sends: those its batch calls for when the
      channel is open and getUpdates answered with ok; none otherwise. */
  lemma PollNotices(st: PollState, reply: Reply, stamps: nat -> string)
    ensures var r := Poll(st, reply, stamps);
            var accepted := ChannelOpen(st.cfg) && reply.Answered? && reply.ok;
            && (accepted ==> r.notices == NoticesOf(Items(st.cfg.telegramChatId, reply.result), stamps))
            && (!accepted ==> r.notices == [])
  {
    if ChannelOpen(st.cfg) && reply.Answered? && reply.ok && |reply.result| > 0 {
      BatchNoticesExact(Acc(None, st.cfg.accountToken, [], []), Items(st.cfg.telegramChatId, reply.result), stamps);
    }
  }
}
