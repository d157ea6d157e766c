/** One run of the pause job, _run_once (main.py): the pause API call is an
    input outcome (it raised, or it answered with a code and a message), and
    the run yields the exit status and the notification it sends. */
module PauseCycle {
  import opened Wrappers
  import opened Json
  import opened Settings
  import opened Notifier

  /** What the pause call did, had it been made. */
  datatype PauseOutcome = Raised(error: string) | Responded(code: Value, msg: Value)

  /** The exit status, whether the pause API was called, the message handed
      to _notify (if any) and the message actually sent. */
  datatype CycleResult = CycleResult(status: int, called: bool, notice: Option<string>, sent: Option<Outgoing>)

  const ExpiredCode := 400006
  const SuccessCode := 0
  const AlreadyPausedCode := 400803

  const ExpiredNotice := "Token expired. Please update TOKEN."
  const SuccessNotice := "Pause successful."
  const FailurePrefix := "Pause failed: "

  /** The message _run_once hands to _notify for an outcome of the call. */
  function OutcomeNotice(outcome: PauseOutcome): Option<string> {
    match outcome
    case Raised(e) => Some(FailurePrefix + e)
    case Responded(code, msg) =>
      if EqualsInt(code, ExpiredCode) then Some(ExpiredNotice)
      else if EqualsInt(code, SuccessCode) then Some(SuccessNotice)
      else if EqualsInt(code, AlreadyPausedCode) then None
      else Some(FailurePrefix + ToStr(code) + " - " + ToStr(msg))
  }

  /** _run_once with the configured token. */
  function RunOnce(cfg: Config, outcome: PauseOutcome): (r: CycleResult)
    ensures r.status == 0 || r.status == 1
    ensures r.called <==> cfg.accountToken != ""
    ensures !r.called ==> r.status == 1 && r.notice.None?
    ensures r.status == 0 <==>
              && r.called
              && outcome.Responded?
              && (EqualsInt(outcome.code, SuccessCode) || EqualsInt(outcome.code, AlreadyPausedCode))
    ensures r.notice.None? <==> !r.called || (outcome.Responded? && EqualsInt(outcome.code, AlreadyPausedCode))
    ensures r.sent.Some? <==> r.notice.Some? && ChannelOpen(cfg)
    ensures r.sent.Some? ==> r.sent.value.text == r.notice.value
  {
    if cfg.accountToken == "" then
      CycleResult(1, false, None, None)
    else
      var notice := OutcomeNotice(outcome);
      var status :=
        match outcome
        case Raised(_) => 1
        case Responded(code, _) =>
          if EqualsInt(code, ExpiredCode) then 1
          else if EqualsInt(code, SuccessCode) then 0
          else if EqualsInt(code, AlreadyPausedCode) then 0
          else 1;
      CycleResult(status, true, notice, if notice.Some? then Notify(cfg, notice.value) else None)
  }

  /** The table of outcomes once the call is made: a raised call fails
      with its error in the notice; code 400006 fails as an expired token;
      code 0 succeeds with a notice; code 400803 succeeds silently; any
      other code fails with a notice naming the code and the message. */
  lemma OutcomeTable(cfg: Config, outcome: PauseOutcome)
    requires cfg.accountToken != ""
    ensures var r := RunOnce(cfg, outcome);
            match outcome
            case Raised(e) => r.status == 1 && r.notice == Some(FailurePrefix + e)
            case Responded(code, msg) =>
              if EqualsInt(code, ExpiredCode) then r.status == 1 && r.notice == Some(ExpiredNotice)
              else if EqualsInt(code, SuccessCode) then r.status == 0 && r.notice == Some(SuccessNotice)
              else if EqualsInt(code, AlreadyPausedCode) then r.status == 0 && r.notice.None?
              else r.status == 1 && r.notice == Some(FailurePrefix + ToStr(code) + " - " + ToStr(msg))
  {
  }

  /** Without a token the pause API is never called, so what it would have
      answered makes no difference. */
  lemma EmptyTokenIgnoresOutcome(cfg: Config, o1: PauseOutcome, o2: PauseOutcome)
    requires cfg.accountToken == ""
    ensures RunOnce(cfg, o1) == RunOnce(cfg, o2)
  {
  }

  /** The response code alone decides the status; the message only appears
      in the text of an unrecognised failure. */
  lemma CodeDecidesStatus(cfg: Config, code: Value, m1: Value, m2: Value)
    ensures RunOnce(cfg, Responded(code, m1)).status == RunOnce(cfg, Responded(code, m2)).status
    ensures RunOnce(cfg, Responded(code, m1)).notice.Some? == RunOnce(cfg, Responded(code, m2)).notice.Some?
  {
  }

  /** Every failure after the call is reported, and the only report of a
      success is the one for code 0. */
  lemma FailuresAreReported(cfg: Config, outcome: PauseOutcome)
    ensures var r := RunOnce(cfg, outcome);
            && (r.called && r.status == 1 ==> r.notice.Some? && r.notice != Some(SuccessNotice))
            && (r.status == 0 && r.notice.Some? ==> r.notice == Some(SuccessNotice))
  {
    var r := RunOnce(cfg, outcome);
    if r.called && r.status == 1 && outcome.Responded? && !EqualsInt(outcome.code, ExpiredCode) {
      var t := FailurePrefix + ToStr(outcome.code) + " - " + ToStr(outcome.msg);
      assert t[6] != SuccessNotice[6];
    } else if r.called && outcome.Raised? {
      assert r.notice.value[6] != SuccessNotice[6];
    }
  }

  /** An unrecognised integer code is written in decimal right after
      "Pause failed: ", followed by " - " and the message. */
  lemma FailureNoticeNamesCode(cfg: Config, code: int, msg: Value)
    requires cfg.accountToken != ""
    requires code != ExpiredCode && code != SuccessCode && code != AlreadyPausedCode
    ensures var n := RunOnce(cfg, Responded(Int(code), msg)).notice;
            && n.Some?
            && n.value == FailurePrefix + Text.IntToString(code) + " - " + ToStr(msg)
  {
  }
}
