/**
 * The race between an action and its wallclock cap: the watchdog task, the backstop, cancels from elsewhere and
 * the action's own resolution, interleaved in any order.
 */
module Wallclock {
  import opened Errors
  import opened Wrappers

  /** What an action hands back. */
  datatype ActionResult = ActionResult(output: string)

  type Ending = Result<ActionResult, KernelError>

  /** How long the backstop waits past the deadline, in milliseconds. */
  const WALLCLOCK_DROP_GRACE := 100

  datatype Cap = Cap(deadline: nat, timeoutMs: nat)

  /** `Claiming` has seen the token unfired; `Firing` has set the flag. An aborted sleeper never runs. */
  datatype Watchdog = Sleeping | Checking | Claiming | Firing | Retired

  datatype Outcome = Pending | Resolved(ending: Ending) | Elapsed

  /** Where the wrapper is. */
  datatype Wrapper =
    | Waiting
    | Aborting
    | ReadingExpired
    | ReadingToken
    | ReadingClock
    | Reporting
    | Finished(result: Ending, abandoned: bool)

  datatype State = State(
    now: nat,
    token: bool,           // the invocation's cancellation token has fired
    expired: bool,         // the watchdog's flag
    watchdog: Watchdog,
    outcome: Outcome,
    endedAt: nat,          // when the action resolved or was dropped
    wrapper: Wrapper,
    sawExpired: bool,      // what the wrapper read of the flag
    sawToken: bool,        // what it read of the token, if it looked
    reached: bool,         // what it concluded about the deadline
    foreign: bool,         // somebody else fired the token, at any time
    foreignFirst: bool)    // and did so before the watchdog checked it and before the wrapper read it

  datatype Event =
    | Tick(ms: nat)
    | Wake
    | Check
    | Claim
    | Fire
    | ForeignCancel
    | Resolve(ending: Ending)
    | DropFuture
    | Abort
    | ReadExpired
    | ReadToken
    | ReadClock
    | Report

  function Start(now: nat): State
  {
    State(now, false, false, Sleeping, Pending, now, Waiting, false, false, false, false, false)
  }

  /** The token's owner is still open. */
  predicate Unclaimed(s: State)
  {
    && (s.watchdog.Sleeping? || s.watchdog.Checking? || s.watchdog.Retired?) && !s.expired
    && (s.wrapper.Waiting? || s.wrapper.Aborting? || s.wrapper.ReadingExpired? || s.wrapper.ReadingToken?)
  }

  predicate Enabled(cap: Cap, s: State, e: Event)
  {
    match e
    case Tick(_) => true
    case Wake => s.watchdog.Sleeping? && s.now >= cap.deadline
    case Check => s.watchdog.Checking?
    case Claim => s.watchdog.Claiming?
    case Fire => s.watchdog.Firing?
    case ForeignCancel => true
    case Resolve(_) => s.wrapper.Waiting?
    case DropFuture => s.wrapper.Waiting? && s.now >= cap.deadline + WALLCLOCK_DROP_GRACE
    case Abort => s.wrapper.Aborting?
    case ReadExpired => s.wrapper.ReadingExpired?
    case ReadToken => s.wrapper.ReadingToken?
    case ReadClock => s.wrapper.ReadingClock?
    case Report => s.wrapper.Reporting?
  }

  /** What the wrapper reports, from the action's outcome and what it read. */
  function Verdict(cap: Cap, outcome: Outcome, expired: bool, reached: bool): Ending
  {
    var timeout := Err(ExecutionTimeout(cap.timeoutMs));
    match outcome
    case Resolved(Ok(v)) => if expired then timeout else Ok(v)
    case Resolved(Err(e)) => if reached && StoppedByCancellation(e) then timeout else Err(e)
    case _ => timeout
  }

  function After(cap: Cap, s: State, e: Event): State
    requires Enabled(cap, s, e)
  {
    match e
    case Tick(ms) => s.(now := s.now + ms)
    case Wake => s.(watchdog := Checking)
    case Check => s.(watchdog := if s.token then Retired else Claiming)
    case Claim => s.(expired := true, watchdog := Firing)
    case Fire => s.(token := true, watchdog := Retired)
    case ForeignCancel => s.(token := true, foreign := true, foreignFirst := s.foreignFirst || Unclaimed(s))
    case Resolve(ending) => s.(outcome := Resolved(ending), endedAt := s.now, wrapper := Aborting)
    case DropFuture => s.(outcome := Elapsed, endedAt := s.now, wrapper := Aborting)
    case Abort => s.(watchdog := if s.watchdog.Sleeping? then Retired else s.watchdog, wrapper := ReadingExpired)
    case ReadExpired =>
      s.(sawExpired := s.expired, reached := s.expired, wrapper := if s.expired then Reporting else ReadingToken)
    case ReadToken => s.(sawToken := s.token, wrapper := if s.token then Reporting else ReadingClock)
    case ReadClock => s.(reached := s.now >= cap.deadline, wrapper := Reporting)
    case Report =>
      s.(token := s.token || s.outcome.Elapsed?,
         wrapper := Finished(Verdict(cap, s.outcome, s.sawExpired, s.reached), s.outcome.Elapsed?))
  }

  function Run(cap: Cap, now: nat, events: seq<Event>): Option<State>
  {
    if events == [] then Some(Start(now))
    else
      var before, last := Run(cap, now, events[..|events| - 1]), events[|events| - 1];
      if before.Some? && Enabled(cap, before.value, last) then Some(After(cap, before.value, last)) else None
  }

  // ------------------------------------------------------------ what every interleaving keeps

  predicate Timely(cap: Cap, s: State)
  {
    && (!s.watchdog.Sleeping? && !s.watchdog.Retired? ==> s.now >= cap.deadline)
    && (s.expired || s.sawExpired || s.reached ==> s.now >= cap.deadline)
    && (s.sawExpired ==> s.reached && s.expired)
    && (s.outcome.Elapsed? ==> s.now >= cap.deadline + WALLCLOCK_DROP_GRACE)
    && (s.wrapper.Waiting? <==> s.outcome.Pending?)
    && s.endedAt <= s.now
    && ((s.wrapper.Reporting? || s.wrapper.Finished?) && s.endedAt >= cap.deadline ==> (s.reached <==> !s.sawToken))
    && (s.wrapper.ReadingToken? || s.wrapper.ReadingClock? ==> !s.sawToken)
    && (s.wrapper.Waiting? || s.wrapper.Aborting? || s.wrapper.ReadingExpired? ==> !s.sawToken)
    && (s.sawExpired ==> !s.sawToken)
    && (s.sawToken ==> s.token)
    && (s.sawToken && !s.foreign ==> s.expired)
  }

  predicate Owned(s: State)
  {
    && (s.foreignFirst ==> s.token && !s.expired && !s.watchdog.Claiming? && !s.watchdog.Firing?)
    && (s.foreignFirst ==> !s.sawExpired && !s.reached && !s.wrapper.ReadingClock?)
    && (s.watchdog.Sleeping? || s.watchdog.Checking? || s.watchdog.Claiming? ==> !s.expired)
    && (s.watchdog.Firing? ==> s.expired)
    && (!s.foreign && s.token ==> s.expired || s.wrapper.Finished?)
    && (s.wrapper.Waiting? || s.wrapper.Aborting? || s.wrapper.ReadingExpired? ==> !s.sawExpired && !s.reached)
    && (s.wrapper.ReadingToken? || s.wrapper.ReadingClock? ==> !s.sawExpired && !s.reached)
  }

  predicate Judged(cap: Cap, s: State)
  {
    s.wrapper.Finished? ==>
      && s.wrapper.result == Verdict(cap, s.outcome, s.sawExpired, s.reached)
      && s.wrapper.abandoned == s.outcome.Elapsed?
      && (s.outcome.Elapsed? ==> s.token)
  }

  predicate Inv(cap: Cap, s: State)
  {
    Timely(cap, s) && Owned(s) && Judged(cap, s)
  }

  lemma {:induction false} StepKeeps(cap: Cap, s: State, e: Event)
    requires Inv(cap, s) && Enabled(cap, s, e)
    ensures Inv(cap, After(cap, s, e))
  {
    hide Verdict;
  }

  lemma {:induction false} EveryRunKeeps(cap: Cap, now: nat, events: seq<Event>)
    requires Run(cap, now, events).Some?
    ensures Inv(cap, Run(cap, now, events).value)
  {
    hide Enabled, After;
    if events != [] {
      var before := events[..|events| - 1];
      EveryRunKeeps(cap, now, before);
      StepKeeps(cap, Run(cap, now, before).value, events[|events| - 1]);
    }
  }

  lemma {:induction false} OneMoreStep(cap: Cap, now: nat, events: seq<Event>, e: Event)
    requires Run(cap, now, events).Some?
    ensures Run(cap, now, events + [e]).Some? <==> Enabled(cap, Run(cap, now, events).value, e)
    ensures Run(cap, now, events + [e]).Some? ==>
      Run(cap, now, events + [e]).value == After(cap, Run(cap, now, events).value, e)
  {
    assert (events + [e])[..|events|] == events;
  }

  // ------------------------------------------------------------ the state told from the events

  /** The time that has passed. */
  function Elapse(events: seq<Event>): nat
  {
    if events == [] then 0
    else
      var last := events[|events| - 1];
      Elapse(events[..|events| - 1]) + if last.Tick? then last.ms else 0
  }

  /** The action has resolved or was dropped. */
  predicate IsOver(events: seq<Event>)
  {
    DropFuture in events || exists e :: e in events && e.Resolve?
  }

  /** Somebody else cancelled before the watchdog checked the token and before the wrapper read it. */
  ghost predicate CancelledFirst(events: seq<Event>)
  {
    exists i :: ForeignFirstAt(events, i)
  }

  predicate ForeignFirstAt(events: seq<Event>, i: int)
  {
    0 <= i < |events| && events[i] == ForeignCancel && Check !in events[..i] && ReadToken !in events[..i]
  }

  /** The wrapper has not looked at the token yet. */
  predicate Early(s: State)
  {
    s.wrapper.Waiting? || s.wrapper.Aborting? || s.wrapper.ReadingExpired? || s.wrapper.ReadingToken?
  }

  predicate Told(cap: Cap, now: nat, s: State, events: seq<Event>)
  {
    && s.now == now + Elapse(events)
    && (s.wrapper.Waiting? <==> !IsOver(events))
    && (s.watchdog.Sleeping? <==> Wake !in events && Abort !in events)
    && (s.watchdog.Checking? <==> Wake in events && Check !in events)
    && (Check in events ==> Wake in events)
  }

  ghost predicate ToldFirst(s: State, events: seq<Event>)
  {
    && (Check !in events ==> (s.watchdog.Sleeping? || s.watchdog.Checking? || s.watchdog.Retired?) && !s.expired)
    && (Check in events ==> s.watchdog.Claiming? || s.watchdog.Firing? || s.expired || s.foreignFirst || !Early(s))
    && (s.foreign && !s.foreignFirst ==> Check in events || !Early(s))
    && (ReadToken in events ==> !Early(s))
    && (!Early(s) ==> ReadToken in events || s.sawExpired)
    && (s.foreignFirst <==> CancelledFirst(events))
  }

  lemma {:induction false} FirstSnoc(events: seq<Event>, e: Event)
    ensures CancelledFirst(events + [e]) <==>
      CancelledFirst(events) || (e == ForeignCancel && Check !in events && ReadToken !in events)
  {
    var more := events + [e];
    if i :| ForeignFirstAt(events, i) {
      assert more[..i] == events[..i];
      assert ForeignFirstAt(more, i);
    }
    assert more[..|events|] == events;
    if e == ForeignCancel && Check !in events && ReadToken !in events {
      assert ForeignFirstAt(more, |events|);
    }
    if i :| ForeignFirstAt(more, i) {
      if i < |events| {
        assert more[..i] == events[..i];
        assert ForeignFirstAt(events, i);
      }
    }
  }

  lemma {:induction false} OverSnoc(events: seq<Event>, e: Event)
    ensures IsOver(events + [e]) <==> IsOver(events) || e == DropFuture || e.Resolve?
    ensures Elapse(events + [e]) == Elapse(events) + if e.Tick? then e.ms else 0
  {
    var more := events + [e];
    assert more[..|events|] == events;
    if x :| x in events && x.Resolve? {
      assert x in more;
    }
    if e.Resolve? {
      assert e in more;
    }
  }

  lemma {:induction false} ToldStep(cap: Cap, now: nat, s: State, events: seq<Event>, e: Event)
    requires Told(cap, now, s, events) && Inv(cap, s) && Enabled(cap, s, e)
    ensures Told(cap, now, After(cap, s, e), events + [e])
  {
    hide Verdict, IsOver, Elapse;
    OverSnoc(events, e);
  }

  lemma {:induction false} ToldFirstStep(cap: Cap, s: State, events: seq<Event>, e: Event)
    requires ToldFirst(s, events) && Inv(cap, s) && Enabled(cap, s, e)
    requires s.watchdog.Checking? ==> Check !in events
    ensures ToldFirst(After(cap, s, e), events + [e])
  {
    hide Verdict, CancelledFirst;
    FirstSnoc(events, e);
  }

  lemma {:induction false} EveryRunIsTold(cap: Cap, now: nat, events: seq<Event>)
    requires Run(cap, now, events).Some?
    ensures Told(cap, now, Run(cap, now, events).value, events) && ToldFirst(Run(cap, now, events).value, events)
  {
    if events == [] {
      assert !CancelledFirst(events);
    } else {
      hide Enabled, After, Inv, ToldFirst, CancelledFirst, IsOver, Elapse;
      var n := |events| - 1;
      EveryRunIsTold(cap, now, events[..n]);
      EveryRunKeeps(cap, now, events[..n]);
      ToldStep(cap, now, Run(cap, now, events[..n]).value, events[..n], events[n]);
      ToldFirstStep(cap, Run(cap, now, events[..n]).value, events[..n], events[n]);
      assert events[..n] + [events[n]] == events;
    }
  }

  /**
   * What can happen next. Time passes and others cancel whenever they like; the action resolves until it is over and is
   * dropped from 100 ms past its deadline on; the watchdog wakes once, at the deadline, unless it was aborted asleep.
   */
  lemma {:induction false} PossibleByHistory(cap: Cap, now: nat, events: seq<Event>, ms: nat, ending: Ending)
    requires Run(cap, now, events).Some?
    ensures var t := now + Elapse(events);
      && Run(cap, now, events + [Tick(ms)]).Some?
      && Run(cap, now, events + [ForeignCancel]).Some?
      && (Run(cap, now, events + [Resolve(ending)]).Some? <==> !IsOver(events))
      && (Run(cap, now, events + [DropFuture]).Some? <==> !IsOver(events) && t >= cap.deadline + 100)
      && (Run(cap, now, events + [Wake]).Some? <==> Wake !in events && Abort !in events && t >= cap.deadline)
      && (Run(cap, now, events + [Check]).Some? <==> Wake in events && Check !in events)
  {
    hide Run, After, ToldFirst, IsOver, Elapse;
    EveryRunIsTold(cap, now, events);
    OneMoreStep(cap, now, events, Tick(ms));
    OneMoreStep(cap, now, events, ForeignCancel);
    OneMoreStep(cap, now, events, Resolve(ending));
    OneMoreStep(cap, now, events, DropFuture);
    OneMoreStep(cap, now, events, Wake);
    OneMoreStep(cap, now, events, Check);
  }

  // ------------------------------------------------------------ what callers can rely on

  /** The run has ended with this report on this outcome. */
  predicate Ends(cap: Cap, now: nat, events: seq<Event>)
  {
    Run(cap, now, events).Some? && Run(cap, now, events).value.wrapper.Finished?
  }

  /** A cancel that came first stays the caller's: only a dropped action is reported as a timeout. */
  lemma {:induction false} ForeignCancelIsTheirs(cap: Cap, now: nat, events: seq<Event>)
    requires Ends(cap, now, events) && CancelledFirst(events)
    ensures var s := Run(cap, now, events).value;
      if s.outcome.Resolved? then s.wrapper == Finished(s.outcome.ending, false)
      else s.wrapper == Finished(Err(ExecutionTimeout(cap.timeoutMs)), true)
  {
    EveryRunKeeps(cap, now, events);
    EveryRunIsTold(cap, now, events);
  }

  /** An error that is at bottom neither a cancel nor a deadline is reported as it is, at any nesting of callees. */
  lemma {:induction false} FailuresAreNeverRewritten(cap: Cap, now: nat, events: seq<Event>, failure: KernelError)
    requires Ends(cap, now, events) && Run(cap, now, events).value.outcome == Resolved(Err(failure))
    requires Root(failure).Other?
    ensures Run(cap, now, events).value.wrapper == Finished(Err(failure), false)
  {
    EveryRunKeeps(cap, now, events);
    StoppedByItsRoot(failure);
  }

  /** A result other than the action's own is the timeout, and the deadline has passed by then. */
  lemma {:induction false} OnlyTheDeadlineRewrites(cap: Cap, now: nat, events: seq<Event>)
    requires Ends(cap, now, events)
    ensures var s := Run(cap, now, events).value;
      s.outcome != Resolved(s.wrapper.result) ==>
        && s.wrapper.result == Err(ExecutionTimeout(cap.timeoutMs)) && s.now >= cap.deadline
        && (CancelledFirst(events) ==> s.wrapper.abandoned)
  {
    EveryRunKeeps(cap, now, events);
    EveryRunIsTold(cap, now, events);
  }

  /** Abandoned is dropped: a grace past the deadline, reported as the timeout, and the token is fired. */
  lemma {:induction false} AbandonedIsDropped(cap: Cap, now: nat, events: seq<Event>)
    requires Ends(cap, now, events)
    ensures var s := Run(cap, now, events).value;
      && (s.wrapper.abandoned <==> s.outcome.Elapsed?)
      && (s.wrapper.abandoned ==> s.token && s.now >= cap.deadline + 100
                                  && s.wrapper.result == Err(ExecutionTimeout(cap.timeoutMs)))
  {
    EveryRunKeeps(cap, now, events);
  }

  /** An action that succeeded is reported so unless the watchdog claimed the deadline first. */
  lemma {:induction false} SuccessStands(cap: Cap, now: nat, events: seq<Event>, v: ActionResult)
    requires Ends(cap, now, events) && Run(cap, now, events).value.outcome == Resolved(Ok(v))
    ensures var s := Run(cap, now, events).value;
      s.wrapper == Finished(if s.sawExpired then Err(ExecutionTimeout(cap.timeoutMs)) else Ok(v), false)
      && (s.sawExpired ==> s.expired && !CancelledFirst(events))
  {
    EveryRunKeeps(cap, now, events);
    EveryRunIsTold(cap, now, events);
  }

  /**
   * An action stopped at or past the deadline, with nobody else cancelling it, is reported as the timeout exactly
   * when the wrapper did not find the token fired after finding the flag clear.
   */
  lemma {:induction false} DeadlineIsReported(cap: Cap, now: nat, events: seq<Event>, e: KernelError)
    requires Ends(cap, now, events) && Run(cap, now, events).value.outcome == Resolved(Err(e))
    requires StoppedByCancellation(e) && Run(cap, now, events).value.endedAt >= cap.deadline
    ensures var s := Run(cap, now, events).value;
      && s.wrapper == Finished(Err(if s.sawToken then e else ExecutionTimeout(cap.timeoutMs)), false)
      && (s.sawToken && !s.foreign ==> !s.sawExpired && s.expired)
  {
    EveryRunKeeps(cap, now, events);
  }

  /** What the wrapper does next once its action is over. */
  function NextOfWrapper(s: State): Event
  {
    match s.wrapper
    case Waiting => DropFuture
    case Aborting => Abort
    case ReadingExpired => ReadExpired
    case ReadingToken => ReadToken
    case ReadingClock => ReadClock
    case _ => Report
  }

  function WrapperStepsLeft(s: State): nat
  {
    match s.wrapper
    case Waiting => 6
    case Aborting => 5
    case ReadingExpired => 4
    case ReadingToken => 3
    case ReadingClock => 2
    case Reporting => 1
    case Finished(_, _) => 0
  }

  /** From here the wrapper finishes, whatever the action does, and reports what it has resolved to if it has. */
  ghost predicate Finishes(cap: Cap, now: nat, events: seq<Event>, more: seq<Event>)
  {
    && Run(cap, now, events).Some? && Ends(cap, now, events + more)
    && var s, t := Run(cap, now, events).value, Run(cap, now, events + more).value;
    t.now == s.now && t.outcome == if s.outcome.Pending? then Elapsed else s.outcome
  }

  lemma {:induction false} WrapperGoesOn(cap: Cap, s: State)
    requires Inv(cap, s) && !s.wrapper.Finished?
    requires s.wrapper.Waiting? ==> s.now >= cap.deadline + 100
    ensures Enabled(cap, s, NextOfWrapper(s))
    ensures var t := After(cap, s, NextOfWrapper(s));
      && WrapperStepsLeft(t) < WrapperStepsLeft(s) && t.now == s.now && !t.wrapper.Waiting? && !t.outcome.Pending?
      && t.outcome == if s.outcome.Pending? then Elapsed else s.outcome
  {
    hide Verdict;
  }

  /** No run is stuck: an action may be dropped from 100 ms past its deadline on, and what is over gets reported. */
  lemma {:induction false} EveryRunCanFinish(cap: Cap, now: nat, events: seq<Event>)
    requires Run(cap, now, events).Some?
    requires Run(cap, now, events).value.wrapper.Waiting? ==> Run(cap, now, events).value.now >= cap.deadline + 100
    ensures exists more :: Finishes(cap, now, events, more)
    decreases WrapperStepsLeft(Run(cap, now, events).value)
  {
    hide Inv, Run, After, Enabled, NextOfWrapper, WrapperStepsLeft;
    var s := Run(cap, now, events).value;
    EveryRunKeeps(cap, now, events);
    PendingWhileWaiting(cap, s);
    if s.wrapper.Finished? {
      assert events + [] == events;
      assert Finishes(cap, now, events, []);
    } else {
      var e := NextOfWrapper(s);
      WrapperGoesOn(cap, s);
      OneMoreStep(cap, now, events, e);
      EveryRunCanFinish(cap, now, events + [e]);
      var rest :| Finishes(cap, now, events + [e], rest);
      assert events + ([e] + rest) == events + [e] + rest;
      assert Finishes(cap, now, events, [e] + rest);
    }
  }

  lemma {:induction false} PendingWhileWaiting(cap: Cap, s: State)
    requires Inv(cap, s)
    ensures s.wrapper.Waiting? <==> s.outcome.Pending?
  {
  }

  /** The events of `pattern` happened in this order, whatever else did in between. */
  predicate InOrder(pattern: seq<Event>, events: seq<Event>)
  {
    if pattern == [] then true
    else if events == [] then false
    else
      var n, last := |events| - 1, |pattern| - 1;
      InOrder(pattern, events[..n]) || (events[n] == pattern[last] && InOrder(pattern[..last], events[..n]))
  }

  /** The watchdog ran out between the wrapper's two reads. */
  function Between(): seq<Event>
  {
    [ReadExpired, Claim, Fire, ReadToken]
  }

  lemma {:induction false} InOrderSnoc(pattern: seq<Event>, p: Event, events: seq<Event>, e: Event)
    ensures InOrder(pattern + [p], events + [e]) <==>
      InOrder(pattern + [p], events) || (e == p && InOrder(pattern, events))
  {
    assert (pattern + [p])[..|pattern|] == pattern && (events + [e])[..|events|] == events;
  }

  /** What the state tells of the past, as long as nobody else cancels. */
  ghost predicate Remembered(s: State, events: seq<Event>)
  {
    && (InOrder([ReadExpired, Claim, Fire], events) ==> s.token)
    && (InOrder(Between(), events) ==> s.sawToken)
    && (!s.foreign ==>
          && (s.wrapper.ReadingToken? ==> InOrder([ReadExpired], events))
          && (s.wrapper.ReadingToken? && s.expired ==> InOrder([ReadExpired, Claim], events))
          && (s.wrapper.ReadingToken? && s.token ==> InOrder([ReadExpired, Claim, Fire], events))
          && (s.sawToken ==> InOrder(Between(), events)))
  }

  lemma {:induction false} StepRemembers(cap: Cap, s: State, events: seq<Event>, e: Event)
    requires Inv(cap, s) && Enabled(cap, s, e) && Remembered(s, events)
    ensures Remembered(After(cap, s, e), events + [e])
  {
    hide InOrder, Verdict;
    InOrderSnoc([], ReadExpired, events, e);
    InOrderSnoc([ReadExpired], Claim, events, e);
    InOrderSnoc([ReadExpired, Claim], Fire, events, e);
    InOrderSnoc([ReadExpired, Claim, Fire], ReadToken, events, e);
    assert [] + [ReadExpired] == [ReadExpired] && [ReadExpired] + [Claim] == [ReadExpired, Claim];
    assert [ReadExpired, Claim] + [Fire] == [ReadExpired, Claim, Fire];
    assert [ReadExpired, Claim, Fire] + [ReadToken] == Between();
    NothingInOrder(events);
  }

  lemma {:induction false} NothingInOrder(events: seq<Event>)
    ensures InOrder([], events)
  {
  }

  lemma {:induction false} EveryRunRemembers(cap: Cap, now: nat, events: seq<Event>)
    requires Run(cap, now, events).Some?
    ensures Remembered(Run(cap, now, events).value, events)
  {
    hide Enabled, After, Inv;
    if events != [] {
      var n := |events| - 1;
      EveryRunRemembers(cap, now, events[..n]);
      EveryRunKeeps(cap, now, events[..n]);
      StepRemembers(cap, Run(cap, now, events[..n]).value, events[..n], events[n]);
      assert events[..n] + [events[n]] == events;
    }
  }

  /**
   * With nobody else cancelling, a stop at or past the deadline is hidden exactly when the watchdog both claimed the
   * deadline and fired the token after the wrapper had read the flag and before it read the token.
   */
  lemma {:induction false} HiddenExactlyBetweenTheReads(cap: Cap, now: nat, events: seq<Event>, e: KernelError)
    requires Ends(cap, now, events) && Run(cap, now, events).value.outcome == Resolved(Err(e))
    requires StoppedByCancellation(e) && Run(cap, now, events).value.endedAt >= cap.deadline
    requires !Run(cap, now, events).value.foreign
    ensures Run(cap, now, events).value.wrapper ==
      Finished(Err(if InOrder(Between(), events) then e else ExecutionTimeout(cap.timeoutMs)), false)
  {
    hide InOrder;
    EveryRunRemembers(cap, now, events);
    DeadlineIsReported(cap, now, events, e);
  }

  /** A callee that ran into its own deadline on the same tick. */
  function CalleeTimeout(cap: Cap): KernelError
  {
    CalleeFailed("p", "a", ExecutionTimeout(cap.timeoutMs))
  }

  predicate HidesDeadline(cap: Cap, events: seq<Event>)
  {
    && Ends(cap, cap.deadline, events)
    && !Run(cap, cap.deadline, events).value.foreign
    && Run(cap, cap.deadline, events).value.wrapper == Finished(Err(CalleeTimeout(cap)), false)
  }

  /**
   * The flag and the token are read in two steps, so a watchdog that sets both in between hides the deadline:
   * the callee's failure is reported although nobody else cancelled.
   */
  lemma {:induction false} WatchdogBetweenTheReads(cap: Cap)
    ensures exists events :: HidesDeadline(cap, events)
  {
    hide Run;
    assert Run(cap, cap.deadline, []) == Some(Start(cap.deadline)) by {
      NothingHappened(cap);
    }
    var e0 := [Wake];
    var e1 := e0 + [Check];
    var e2 := e1 + [Resolve(Err(CalleeTimeout(cap)))];
    var e3 := e2 + [Abort];
    var e4 := e3 + [ReadExpired];
    var e5 := e4 + [Claim];
    var e6 := e5 + [Fire];
    var e7 := e6 + [ReadToken];
    var e8 := e7 + [Report];
    OneMoreStep(cap, cap.deadline, [], Wake);
    assert [] + [Wake] == e0;
    OneMoreStep(cap, cap.deadline, e0, Check);
    OneMoreStep(cap, cap.deadline, e1, Resolve(Err(CalleeTimeout(cap))));
    OneMoreStep(cap, cap.deadline, e2, Abort);
    OneMoreStep(cap, cap.deadline, e3, ReadExpired);
    OneMoreStep(cap, cap.deadline, e4, Claim);
    OneMoreStep(cap, cap.deadline, e5, Fire);
    OneMoreStep(cap, cap.deadline, e6, ReadToken);
    OneMoreStep(cap, cap.deadline, e7, Report);
    assert HidesDeadline(cap, e8);
  }

  lemma {:induction false} NothingHappened(cap: Cap)
    ensures Run(cap, cap.deadline, []) == Some(Start(cap.deadline))
  {
  }
}
