/** The wait between two runs, _sleep_with_poll (main.py): a sleep of a
    given length cut into steps, with a poll of the Telegram bot after a
    step when polling is due. The clock is an integer count of seconds
    since some local midnight that advances by exactly the length of each
    sleep, and only then: a poll takes no time. Replies to getUpdates and
    the time stamps of each poll are inputs. */
module SleepPoll {
  import opened Wrappers
  import opened Settings
  import opened Clock
  import opened TelegramPoll

  /** How the wait polls, decided once on entry from the configuration. */
  datatype Plan = Disabled | Unscheduled | EverySeconds(seconds: int) | DailyAt(time: TimeOfDay)

  predicate ValidPlan(p: Plan) {
    && (p.EverySeconds? ==> p.seconds > 0)
    && (p.DailyAt? ==> Valid(p.time))
  }

  /** Telegram disabled: one plain sleep. Otherwise a positive
      TELEGRAM_POLL_SECONDS polls every that many seconds; failing that, a
      TELEGRAM_POLL_TIME that parses as "%H:%M" polls once a day at that
      time; failing both, the wait does not poll. */
  function PlanOf(cfg: Config): (p: Plan)
    ensures ValidPlan(p)
    ensures p.Disabled? <==> !cfg.telegramEnabled
    ensures p.EverySeconds? <==> cfg.telegramEnabled && cfg.telegramPollSeconds > 0
    ensures p.EverySeconds? ==> p.seconds == cfg.telegramPollSeconds
    ensures p.DailyAt? <==> cfg.telegramEnabled && cfg.telegramPollSeconds <= 0 && ParseClock(cfg.telegramPollTime).Some?
    ensures p.DailyAt? ==> ParseClock(cfg.telegramPollTime) == Some(p.time)
  {
    if !cfg.telegramEnabled then Disabled
    else if cfg.telegramPollSeconds > 0 then EverySeconds(cfg.telegramPollSeconds)
    else if cfg.telegramPollTime == "" then Unscheduled
    else
      match ParseTimeValue(cfg.telegramPollTime, "TELEGRAM_POLL_TIME")
      case Success(t) => DailyAt(t)
      case Failure(_) => Unscheduled
  }

  /** What the wait does, in order: a sleep of some seconds, or a poll at
      a clock time. */
  datatype Event = Sleep(seconds: int) | PollAt(clock: int)

  /** The seconds slept in total. */
  function Slept(events: seq<Event>): int {
    if |events| == 0 then 0
    else (if events[0].Sleep? then events[0].seconds else 0) + Slept(events[1..])
  }

  /** The clock times of the polls, in order. */
  function PollTimes(events: seq<Event>): seq<int> {
    if |events| == 0 then []
    else (if events[0].PollAt? then [events[0].clock] else []) + PollTimes(events[1..])
  }

  function Min(a: int, b: int): int {
    if a <= b then a else b
  }

  /** The length of the next step: the rest of the wait, cut at the poll
      interval or at the due time of the daily poll. */
  function StepOf(plan: Plan, now: int, rem: nat, next: int): int {
    match plan
    case EverySeconds(n) => Min(rem, n)
    case DailyAt(_) => Min(rem, next - now)
    case _ => rem
  }

  /** Whether a poll follows a step that ends at clock time after: always
      when polling every n seconds, once the due time is reached when
      polling daily. */
  predicate DueAt(plan: Plan, after: int, next: int) {
    plan.EverySeconds? || (plan.DailyAt? && after >= next)
  }

  /** The rest of the loop from clock time now, with rem seconds still to
      sleep and, for a daily plan, the next poll due at clock time next: a
      step, the poll if one is due (the next daily one a day later), and
      the rest. */
  function Rest(plan: Plan, now: int, rem: nat, next: int): seq<Event>
    requires ValidPlan(plan) && (plan.DailyAt? ==> now < next)
    decreases rem
  {
    if rem == 0 then []
    else
      var step := StepOf(plan, now, rem, next);
      var after := now + step;
      var due := DueAt(plan, after, next);
      [Sleep(step)] + (if due then [PollAt(after)] else [])
        + Rest(plan, after, rem - step, if plan.DailyAt? && due then next + Day else next)
  }

  /** The whole wait of total seconds from clock time start: one sleep
      when Telegram is disabled, otherwise the loop, a daily poll being
      first due at the next occurrence of its time, as _seconds_until
      computes it. */
  function Schedule(plan: Plan, start: int, total: nat): seq<Event>
    requires ValidPlan(plan)
  {
    match plan
    case Disabled => [Sleep(total)]
    case DailyAt(t) => Rest(plan, start, total, SecondsUntil(start, t).1)
    case _ => Rest(plan, start, total, 0)
  }

  /** The state the polls leave and the notifications they hand out. */
  datatype Polls = Polls(state: PollState, notices: seq<string>)

  /** count polls in a row, the k-th answered by replies(k) and stamping
      with stamps(k). */
  function RunPolls(st: PollState, replies: nat -> Reply, stamps: nat -> nat -> string, count: nat): Polls
    decreases count
  {
    if count == 0 then Polls(st, [])
    else
      var p := RunPolls(st, replies, stamps, count - 1);
      var r := Poll(p.state, replies(count - 1), stamps(count - 1));
      Polls(r.state, p.notices + r.notices)
  }

  lemma {:induction false} SleptAppend(a: seq<Event>, b: seq<Event>)
    ensures Slept(a + b) == Slept(a) + Slept(b)
  {
    if |a| > 0 {
      assert (a + b)[1..] == a[1..] + b;
      SleptAppend(a[1..], b);
    } else {
      assert a + b == b;
    }
  }

  lemma {:induction false} PollTimesAppend(a: seq<Event>, b: seq<Event>)
    ensures PollTimes(a + b) == PollTimes(a) + PollTimes(b)
  {
    if |a| > 0 {
      assert (a + b)[1..] == a[1..] + b;
      PollTimesAppend(a[1..], b);
    } else {
      assert a + b == b;
    }
  }

  /** One round of the loop: a step of one second at least and at most
      what is left, the poll if one is due, and the rest. */
  lemma RestUnfold(plan: Plan, now: int, rem: nat, next: int)
    requires ValidPlan(plan) && (plan.DailyAt? ==> now < next) && rem > 0
    ensures var step := StepOf(plan, now, rem, next);
            var due := DueAt(plan, now + step, next);
            var next' := if plan.DailyAt? && due then next + Day else next;
            && 0 < step <= rem
            && (plan.DailyAt? ==> now + step < next')
            && Rest(plan, now, rem, next) ==
                 [Sleep(step)] + (if due then [PollAt(now + step)] else []) + Rest(plan, now + step, rem - step, next')
  {
  }

  /** The loop sleeps exactly rem seconds in all. */
  lemma {:induction false} RestSlept(plan: Plan, now: int, rem: nat, next: int)
    requires ValidPlan(plan) && (plan.DailyAt? ==> now < next)
    ensures Slept(Rest(plan, now, rem, next)) == rem
    decreases rem
  {
    if rem > 0 {
      RestUnfold(plan, now, rem, next);
      var step := StepOf(plan, now, rem, next);
      var due := DueAt(plan, now + step, next);
      var next' := if plan.DailyAt? && due then next + Day else next;
      var head := [Sleep(step)] + (if due then [PollAt(now + step)] else []);
      RestSlept(plan, now + step, rem - step, next');
      SleptAppend(head, Rest(plan, now + step, rem - step, next'));
      assert Slept(head) == step;
    }
  }

  /** Every sleep of the loop lasts one second at least, and at most n
      seconds when polling every n seconds. */
  lemma {:induction false} RestStepBounds(plan: Plan, now: int, rem: nat, next: int)
    requires ValidPlan(plan) && (plan.DailyAt? ==> now < next)
    ensures forall e :: e in Rest(plan, now, rem, next) && e.Sleep? ==>
              0 < e.seconds && (plan.EverySeconds? ==> e.seconds <= plan.seconds)
    decreases rem
  {
    if rem > 0 {
      RestUnfold(plan, now, rem, next);
      var step := StepOf(plan, now, rem, next);
      var due := DueAt(plan, now + step, next);
      var next' := if plan.DailyAt? && due then next + Day else next;
      RestStepBounds(plan, now + step, rem - step, next');
    }
  }

  /** Without a poll plan the loop is one sleep of the whole wait, and no
      poll. */
  lemma UnscheduledRest(now: int, rem: nat, next: int)
    requires rem > 0
    ensures Rest(Unscheduled, now, rem, next) == [Sleep(rem)]
  {
    RestUnfold(Unscheduled, now, rem, next);
    assert Rest(Unscheduled, now + rem, 0, next) == [];
  }

  /** Polling every n seconds, each step ends with a poll. */
  lemma IntervalUnfold(n: int, now: int, rem: nat)
    requires n > 0 && rem > 0
    ensures var step := Min(rem, n);
            && 0 < step <= rem
            && PollTimes(Rest(EverySeconds(n), now, rem, 0)) == [now + step] + PollTimes(Rest(EverySeconds(n), now + step, rem - step, 0))
  {
    var step := Min(rem, n);
    RestUnfold(EverySeconds(n), now, rem, 0);
    PollTimesAppend([Sleep(step)] + [PollAt(now + step)], Rest(EverySeconds(n), now + step, rem - step, 0));
  }

  /** Polling every n seconds polls ceil(rem / n) times. */
  lemma {:induction false} IntervalPollCount(n: int, now: int, rem: nat)
    requires n > 0
    ensures var k := |PollTimes(Rest(EverySeconds(n), now, rem, 0))|;
            && (k == 0 <==> rem == 0)
            && (rem > 0 ==> (k - 1) * n < rem <= k * n)
    decreases rem
  {
    if rem > 0 {
      var step := Min(rem, n);
      IntervalUnfold(n, now, rem);
      IntervalPollCount(n, now + step, rem - step);
      CountStep(n, rem, |PollTimes(Rest(EverySeconds(n), now + step, rem - step, 0))|);
    }
  }

  /** One more step of n seconds, cut at what is left, adds one poll. */
  lemma CountStep(n: int, rem: int, k: int)
    requires n > 0 && rem > 0
    requires k == 0 <==> rem - Min(rem, n) == 0
    requires rem - Min(rem, n) > 0 ==> (k - 1) * n < rem - Min(rem, n) <= k * n
    ensures (k + 1 - 1) * n < rem <= (k + 1) * n
  {
    assert (k + 1) * n == k * n + n;
  }

  /** Polling every n seconds, the poll after the i-th step (all but the
      last) comes (i + 1) * n seconds after the start. */
  lemma {:induction false} IntervalPollAt(n: int, now: int, rem: nat, i: nat)
    requires n > 0 && i + 1 < |PollTimes(Rest(EverySeconds(n), now, rem, 0))|
    ensures PollTimes(Rest(EverySeconds(n), now, rem, 0))[i] == now + (i + 1) * n
    decreases rem
  {
    var step := Min(rem, n);
    if rem == 0 {
      assert false;
    }
    IntervalUnfold(n, now, rem);
    var q := PollTimes(Rest(EverySeconds(n), now + step, rem - step, 0));
    assert |q| > 0;
    assert step == n;
    if i > 0 {
      IntervalPollAt(n, now + step, rem - step, i - 1);
      assert q[i - 1] == now + n + i * n;
      assert n + i * n == (i + 1) * n;
    }
  }

  /** Polling every n seconds, the last poll comes when the wait ends. */
  lemma {:induction false} IntervalPollLast(n: int, now: int, rem: nat)
    requires n > 0 && rem > 0
    ensures var p := PollTimes(Rest(EverySeconds(n), now, rem, 0));
            |p| > 0 && p[|p| - 1] == now + rem
    decreases rem
  {
    var step := Min(rem, n);
    IntervalUnfold(n, now, rem);
    if rem - step > 0 {
      IntervalPollLast(n, now + step, rem - step);
    } else {
      assert Rest(EverySeconds(n), now + step, 0, 0) == [];
    }
  }

  /** Polling every n seconds polls n, 2n, 3n, ... seconds after the start
      and once more when the wait ends. */
  lemma IntervalPolls(n: int, now: int, rem: nat)
    requires n > 0
    ensures var p := PollTimes(Rest(EverySeconds(n), now, rem, 0));
            && (forall i :: 0 <= i < |p| - 1 ==> p[i] == now + (i + 1) * n)
            && (rem > 0 ==> |p| > 0 && p[|p| - 1] == now + rem)
  {
    var p := PollTimes(Rest(EverySeconds(n), now, rem, 0));
    forall i | 0 <= i < |p| - 1
      ensures p[i] == now + (i + 1) * n
    {
      IntervalPollAt(n, now, rem, i);
    }
    if rem > 0 {
      IntervalPollLast(n, now, rem);
    }
  }

  /** The clock time x is the time of day t. */
  predicate OnTime(x: int, t: TimeOfDay)
    requires Valid(t)
  {
    x % Day == SecondOfDay(t)
  }

  /** Within the day before a time on t, no other time is on t. */
  lemma NotOnTimeBefore(x: int, next: int, t: TimeOfDay)
    requires Valid(t) && OnTime(next, t) && next - Day < x < next
    ensures !OnTime(x, t)
  {
    assert x == (x / Day) * Day + x % Day;
    assert next == (next / Day) * Day + next % Day;
  }

  lemma NextDay(x: int, t: TimeOfDay)
    requires Valid(t) && OnTime(x, t)
    ensures OnTime(x + Day, t)
  {
    ModShift(SecondOfDay(t), x / Day + 1);
    assert x == (x / Day) * Day + SecondOfDay(t);
  }

  /** Polling daily, with the next poll due at the first time on t after
      now, polls exactly at the clock times on t within the wait, its end
      included. */
  lemma {:induction false} DailyPolls(t: TimeOfDay, now: int, rem: nat, next: int)
    requires Valid(t) && now < next <= now + Day && OnTime(next, t)
    ensures forall x :: x in PollTimes(Rest(DailyAt(t), now, rem, next)) <==> now < x <= now + rem && OnTime(x, t)
    decreases rem
  {
    forall x | now < x < next
      ensures !OnTime(x, t)
    {
      NotOnTimeBefore(x, next, t);
    }
    if rem > 0 {
      var plan := DailyAt(t);
      RestUnfold(plan, now, rem, next);
      var step := StepOf(plan, now, rem, next);
      if now + step >= next {
        assert now + step == next;
        PollTimesAppend([Sleep(step)] + [PollAt(next)], Rest(plan, next, rem - step, next + Day));
        NextDay(next, t);
        DailyPolls(t, next, rem - step, next + Day);
      } else {
        assert rem - step == 0;
        PollTimesAppend([Sleep(step)] + [], Rest(plan, now + step, 0, next));
      }
    }
  }

  /** The wait sleeps exactly its length, whatever the plan. */
  lemma ScheduleSlept(plan: Plan, start: int, total: nat)
    requires ValidPlan(plan)
    ensures Slept(Schedule(plan, start, total)) == total
  {
    match plan
    case Disabled =>
    case DailyAt(t) => RestSlept(plan, start, total, SecondsUntil(start, t).1);
    case _ => RestSlept(plan, start, total, 0);
  }

  /** Telegram disabled, the wait is one sleep; enabled without a poll
      plan, it is one sleep when there is anything to wait; neither polls. */
  lemma ScheduleWithoutPolls(plan: Plan, start: int, total: nat)
    requires plan.Disabled? || plan.Unscheduled?
    ensures PollTimes(Schedule(plan, start, total)) == []
    ensures total > 0 || plan.Disabled? ==> Schedule(plan, start, total) == [Sleep(total)]
  {
    if plan.Unscheduled? && total > 0 {
      UnscheduledRest(start, total, 0);
    }
  }

  /** A daily plan polls at exactly the clock times in (start, start +
      total] that fall on its time of day. */
  lemma ScheduleDaily(t: TimeOfDay, start: int, total: nat)
    requires Valid(t)
    ensures forall x :: x in PollTimes(Schedule(DailyAt(t), start, total)) <==> start < x <= start + total && OnTime(x, t)
  {
    DailyPolls(t, start, total, SecondsUntil(start, t).1);
  }

  /** Polls change the account token at most: the plan of the next wait is
      the plan of this one. */
  lemma {:induction false} RunPollsKeepSettings(st: PollState, replies: nat -> Reply, stamps: nat -> nat -> string, count: nat)
    ensures var cfg := RunPolls(st, replies, stamps, count).state.cfg;
            cfg == st.cfg.(accountToken := cfg.accountToken)
    ensures PlanOf(RunPolls(st, replies, stamps, count).state.cfg) == PlanOf(st.cfg)
    decreases count
  {
    if count > 0 {
      RunPollsKeepSettings(st, replies, stamps, count - 1);
    }
  }

  /** With the channel closed a poll does not even ask: any number of polls
      changes nothing and notifies nobody. */
  lemma {:induction false} RunPollsClosed(st: PollState, replies: nat -> Reply, stamps: nat -> nat -> string, count: nat)
    requires !Notifier.ChannelOpen(st.cfg)
    ensures RunPolls(st, replies, stamps, count) == Polls(st, [])
    decreases count
  {
    if count > 0 {
      RunPollsClosed(st, replies, stamps, count - 1);
    }
  }

  /** What one round of the loop adds to the events, and the number of
      polls so far. */
  lemma Bookkeeping(before: seq<Event>, events: seq<Event>, rest: seq<Event>, step: int, due: bool, at: int,
                    steps: seq<Event>, whole: seq<Event>)
    requires events == before + [Sleep(step)] + (if due then [PollAt(at)] else [])
    requires steps == [Sleep(step)] + (if due then [PollAt(at)] else []) + rest
    requires before + steps == whole
    ensures events + rest == whole
    ensures |PollTimes(events)| == |PollTimes(before)| + (if due then 1 else 0)
  {
    var chunk := [Sleep(step)] + (if due then [PollAt(at)] else []);
    assert events == before + chunk;
    assert events + rest == before + steps;
    PollTimesAppend(before, chunk);
    PollTimesAppend([Sleep(step)], if due then [PollAt(at)] else []);
    assert PollTimes([Sleep(step)]) == [] by {
      assert [Sleep(step)][1..] == [];
    }
    if due {
      assert PollTimes([PollAt(at)]) == [at] by {
        assert [PollAt(at)][1..] == [];
      }
    }
  }

  /** One round of the loop, as the loop sees it: what the events so far
      and the rest of the loop add up to, and the polls so far. */
  lemma Round(plan: Plan, now: int, rem: nat, next: int, step: int, due: bool, next': int,
              before: seq<Event>, events: seq<Event>, whole: seq<Event>)
    requires ValidPlan(plan) && (plan.DailyAt? ==> now < next) && rem > 0
    requires step == StepOf(plan, now, rem, next) && due == DueAt(plan, now + step, next)
    requires next' == if plan.DailyAt? && due then next + Day else next
    requires events == before + [Sleep(step)] + (if due then [PollAt(now + step)] else [])
    requires before + Rest(plan, now, rem, next) == whole
    ensures 0 < step <= rem && (plan.DailyAt? ==> now + step < next')
    ensures events + Rest(plan, now + step, rem - step, next') == whole
    ensures |PollTimes(events)| == |PollTimes(before)| + (if due then 1 else 0)
  {
    RestUnfold(plan, now, rem, next);
    Bookkeeping(before, events, Rest(plan, now + step, rem - step, next'), step, due, now + step,
                Rest(plan, now, rem, next), whole);
  }

  /** One poll, continuing the run of polls so far. */
  method PollOnce(st: PollState, replies: nat -> Reply, stamps: nat -> nat -> string, polls: nat,
                  after: PollState, notices: seq<string>)
    returns (after': PollState, notices': seq<string>)
    requires Polls(after, notices) == RunPolls(st, replies, stamps, polls)
    ensures Polls(after', notices') == RunPolls(st, replies, stamps, polls + 1)
  {
    var r := Poll(after, replies(polls), stamps(polls));
    after' := r.state;
    notices' := notices + r.notices;
  }

  /** _sleep_with_poll: the sleeps and polls of a wait of total seconds
      from clock time start, the poll state it leaves and the
      notifications the polls hand out. */
  method SleepWithPoll(st: PollState, start: int, total: nat, replies: nat -> Reply, stamps: nat -> nat -> string)
    returns (events: seq<Event>, after: PollState, notices: seq<string>)
    ensures events == Schedule(PlanOf(st.cfg), start, total)
    ensures Slept(events) == total
    ensures Polls(after, notices) == RunPolls(st, replies, stamps, |PollTimes(events)|)
  {
    ghost var plan := PlanOf(st.cfg);
    ScheduleSlept(plan, start, total);
    after := st;
    notices := [];
    if !st.cfg.telegramEnabled {
      assert plan.Disabled?;
      events := [Sleep(total)];
      return;
    }
    var pollSeconds := st.cfg.telegramPollSeconds;
    var pollTime: Option<TimeOfDay> := None;
    if st.cfg.telegramPollTime != "" && pollSeconds <= 0 {
      match ParseTimeValue(st.cfg.telegramPollTime, "TELEGRAM_POLL_TIME")
      case Success(t) => pollTime := Some(t);
      case Failure(_) =>
    }
    var next := 0;
    if pollTime.Some? {
      next := SecondsUntil(start, pollTime.value).1;
    }
    events, after, notices := Wait(st, start, total, pollSeconds, pollTime, next, replies, stamps, plan);
  }

  /** The loop of _sleep_with_poll, with the poll settings read on entry. */
  method Wait(st: PollState, start: int, total: nat, pollSeconds: int, pollTime: Option<TimeOfDay>, next0: int,
              replies: nat -> Reply, stamps: nat -> nat -> string, ghost plan: Plan)
    returns (events: seq<Event>, after: PollState, notices: seq<string>)
    requires ValidPlan(plan) && !plan.Disabled?
    requires plan.DailyAt? <==> pollTime.Some?
    requires pollTime.Some? ==> plan.time == pollTime.value && start < next0
    requires plan.EverySeconds? <==> pollTime.None? && pollSeconds > 0
    requires plan.EverySeconds? ==> plan.seconds == pollSeconds
    ensures events == Rest(plan, start, total, next0)
    ensures Polls(after, notices) == RunPolls(st, replies, stamps, |PollTimes(events)|)
  {
    after := st;
    notices := [];
    events := [];
    var next := next0;
    var now := start;
    var remaining: nat := total;
    var polls := 0;
    while remaining > 0
      invariant pollTime.Some? ==> now < next
      invariant events + Rest(plan, now, remaining, next) == Rest(plan, start, total, next0)
      invariant polls == |PollTimes(events)|
      invariant Polls(after, notices) == RunPolls(st, replies, stamps, polls)
      decreases remaining
    {
      ghost var now0, rem0, next1, before := now, remaining, next, events;
      var step, due, next' := NextStep(pollSeconds, pollTime, now, remaining, next, plan);
      events := events + [Sleep(step)];
      now := now + step;
      remaining := remaining - step;
      next := next';
      if due {
        after, notices := PollOnce(st, replies, stamps, polls, after, notices);
        events := events + [PollAt(now)];
        polls := polls + 1;
      }
      Round(plan, now0, rem0, next1, step, due, next, before, events, Rest(plan, start, total, next0));
    }
  }

  /** One step of the loop of _sleep_with_poll: how long to sleep, whether
      a poll follows, and when the next daily poll is due. */
  method NextStep(pollSeconds: int, pollTime: Option<TimeOfDay>, now: int, remaining: nat, next: int, ghost plan: Plan)
    returns (step: int, due: bool, next': int)
    requires ValidPlan(plan) && !plan.Disabled?
    requires plan.DailyAt? <==> pollTime.Some?
    requires plan.EverySeconds? <==> pollTime.None? && pollSeconds > 0
    requires plan.EverySeconds? ==> plan.seconds == pollSeconds
    requires remaining > 0 && (plan.DailyAt? ==> now < next)
    ensures 0 < step <= remaining
    ensures step == StepOf(plan, now, remaining, next)
    ensures due == DueAt(plan, now + step, next)
    ensures next' == if plan.DailyAt? && due then next + Day else next
  {
    step := remaining;
    if pollTime.Some? {
      step := Min(step, next - now);
    } else if pollSeconds > 0 {
      step := Min(step, pollSeconds);
    }
    due := false;
    next' := next;
    if pollTime.Some? {
      if now + step >= next {
        due := true;
        next' := next + Day;
      }
    } else if pollSeconds > 0 {
      due := true;
    }
  }
}
