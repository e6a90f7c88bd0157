/** The wallclock bound of every invocation in a tree of invocations. Times are milliseconds. */
module Deadlines {
  import opened Wrappers

  datatype Action = Action(wallclockTimeoutMs: Option<nat>, dataflow: bool)

  /** The deployment default, and the operator's ceiling if there is one. */
  datatype Limits = Limits(defaultTimeout: nat, ceiling: Option<nat>)

  datatype WallclockCap = WallclockCap(deadline: nat, timeoutMs: nat)

  datatype CalleeWallclock = Own(cap: WallclockCap) | Inherited(cap: WallclockCap) | Uncapped

  /** One invocation: what runs and when it started. */
  datatype Call = Call(action: Action, start: nat)

  function Min(a: nat, b: nat): nat
  {
    if a <= b then a else b
  }

  function EffectiveWallclockTimeout(limits: Limits, action: Action): Option<nat>
  {
    var requested :=
      if action.wallclockTimeoutMs.Some? then action.wallclockTimeoutMs
      else if action.dataflow then None
      else Some(limits.defaultTimeout);
    match (requested, limits.ceiling)
    case (_, None) => requested
    case (None, Some(ceiling)) => Some(ceiling)
    case (Some(asked), Some(ceiling)) => Some(Min(asked, ceiling))
  }

  function After(now: nat, timeout: nat): WallclockCap
  {
    WallclockCap(now + timeout, timeout)
  }

  /** A caller's deadline as a callee's cap: what is left of it, zero once it has passed. */
  function EndingAt(now: nat, deadline: nat): WallclockCap
  {
    WallclockCap(deadline, if now <= deadline then deadline - now else 0)
  }

  function WallclockCapOf(limits: Limits, action: Action, now: nat): Option<WallclockCap>
  {
    match EffectiveWallclockTimeout(limits, action)
    case None => None
    case Some(timeout) => Some(After(now, timeout))
  }

  function WallclockOfCallee(limits: Limits, action: Action, now: nat, callerDeadline: Option<nat>): CalleeWallclock
  {
    match callerDeadline
    case None =>
      (match WallclockCapOf(limits, action, now)
       case Some(cap) => Own(cap)
       case None => Uncapped)
    case Some(deadline) =>
      match action.wallclockTimeoutMs
      case Some(ms) => if now + ms <= deadline then Own(After(now, ms)) else Inherited(EndingAt(now, deadline))
      case None => Inherited(EndingAt(now, deadline))
  }

  function DeadlineOf(w: CalleeWallclock): Option<nat>
  {
    if w.Uncapped? then None else Some(w.cap.deadline)
  }

  // ------------------------------------------------------------ invocation trees

  /** From a top-level invocation down to one of its descendants, each started no earlier than its caller. */
  predicate IsPath(path: seq<Call>)
  {
    path != [] && forall i, j | 0 <= i < j < |path| :: path[i].start <= path[j].start
  }

  /** How the last invocation on a path is bounded. A top-level one is bounded like a callee of an uncapped caller. */
  function Wallclock(limits: Limits, path: seq<Call>): CalleeWallclock
    requires path != []
  {
    var last := path[|path| - 1];
    var caller := if |path| == 1 then None else DeadlineOf(Wallclock(limits, path[..|path| - 1]));
    WallclockOfCallee(limits, last.action, last.start, caller)
  }

  /** The deadline of the invocation at depth `i`. */
  function DeadlineAt(limits: Limits, path: seq<Call>, i: nat): Option<nat>
    requires i < |path|
  {
    DeadlineOf(Wallclock(limits, path[..i + 1]))
  }

  lemma {:induction false} DeadlineStep(limits: Limits, path: seq<Call>, i: nat)
    requires i < |path|
    ensures DeadlineAt(limits, path, i) ==
      DeadlineOf(WallclockOfCallee(limits, path[i].action, path[i].start,
                                   if i == 0 then None else DeadlineAt(limits, path, i - 1)))
  {
    var upTo := path[..i + 1];
    assert upTo[..i] == path[..i];
  }

  /** The exact deadline of a top-level invocation: the one it declares, none for dataflow, else the default. */
  lemma {:induction false} TopLevelDeadline(limits: Limits, call: Call)
    ensures var deadline, start, declared := DeadlineAt(limits, [call], 0), call.start, call.action.wallclockTimeoutMs;
      && (limits.ceiling.None? && declared.Some? ==> deadline == Some(start + declared.value))
      && (limits.ceiling.None? && declared.None? && call.action.dataflow ==> deadline == None)
      && (limits.ceiling.None? && declared.None? && !call.action.dataflow ==>
            deadline == Some(start + limits.defaultTimeout))
      && (limits.ceiling.Some? && declared.Some? ==>
        Earlier(deadline, start + declared.value, start + limits.ceiling.value))
      && (limits.ceiling.Some? && declared.None? && call.action.dataflow ==>
        deadline == Some(start + limits.ceiling.value))
      && (limits.ceiling.Some? && declared.None? && !call.action.dataflow ==>
            Earlier(deadline, start + limits.defaultTimeout, start + limits.ceiling.value))
  {
    assert [call][..1] == [call];
  }

  predicate Earlier(deadline: Option<nat>, a: nat, b: nat)
  {
    deadline.Some? && deadline.value in [a, b] && deadline.value <= a && deadline.value <= b
  }

  /** The time a cap allows is what lies between the start and the deadline: none at all once that has passed. */
  lemma {:induction false} AllowedTimeIsWhatIsLeft(limits: Limits, path: seq<Call>)
    requires path != [] && !Wallclock(limits, path).Uncapped?
    ensures var cap, start := Wallclock(limits, path).cap, path[|path| - 1].start;
      if start <= cap.deadline then start + cap.timeoutMs == cap.deadline else cap.timeoutMs == 0
  {
    hide EffectiveWallclockTimeout;
  }

  predicate DeclaresToEndBy(call: Call, deadline: nat)
  {
    call.action.wallclockTimeoutMs.Some? && call.start + call.action.wallclockTimeoutMs.value <= deadline
  }

  /** A callee keeps a cap of its own exactly when what it declares ends no later than its caller's deadline. */
  lemma {:induction false} OwnExactlyWhen(limits: Limits, path: seq<Call>)
    requires |path| > 1
    ensures var last, caller := path[|path| - 1], DeadlineAt(limits, path, |path| - 2);
      && (caller.Some? ==> (Wallclock(limits, path).Own? <==> DeclaresToEndBy(last, caller.value)))
      && (caller.None? ==> Wallclock(limits, path) == Wallclock(limits, [last]) && !Wallclock(limits, path).Inherited?)
  {
    var n := |path| - 1;
    assert path[..n - 1 + 1] == path[..n];
  }

  /** The earliest of a deadline and every cap declared at depths `from` to `upTo`. */
  function Earliest(path: seq<Call>, deadline: nat, from: nat, upTo: nat): nat
    requires from <= upTo <= |path|
  {
    if from == upTo then deadline
    else
      var rest, call := Earliest(path, deadline, from, upTo - 1), path[upTo - 1];
      if call.action.wallclockTimeoutMs.Some? then Min(rest, call.start + call.action.wallclockTimeoutMs.value)
      else rest
  }

  /**
   * Below a capped invocation, a deadline is the earliest of its own and the caps declared in between; nothing else
   * counts.
   */
  lemma {:induction false} DeadlineIsEarliest(limits: Limits, path: seq<Call>, i: nat, j: nat)
    requires i <= j < |path| && DeadlineAt(limits, path, i).Some?
    ensures DeadlineAt(limits, path, j) == Some(Earliest(path, DeadlineAt(limits, path, i).value, i + 1, j + 1))
    decreases j - i
  {
    hide DeadlineAt;
    if i < j {
      DeadlineIsEarliest(limits, path, i, j - 1);
      DeadlineStep(limits, path, j);
    }
  }

  lemma {:induction false} EarliestIsLowest(path: seq<Call>, deadline: nat, from: nat, upTo: nat)
    requires from <= upTo <= |path|
    ensures Earliest(path, deadline, from, upTo) <= deadline
  {
    if from < upTo {
      EarliestIsLowest(path, deadline, from, upTo - 1);
    }
  }

  /** No descendant of a capped invocation outlives it. */
  lemma {:induction false} NoCalleeOutlivesItsCaller(limits: Limits, path: seq<Call>, i: nat, j: nat)
    requires i <= j < |path| && DeadlineAt(limits, path, i).Some?
    ensures DeadlineAt(limits, path, j).Some? && DeadlineAt(limits, path, j).value <= DeadlineAt(limits, path, i).value
  {
    DeadlineIsEarliest(limits, path, i, j);
    EarliestIsLowest(path, DeadlineAt(limits, path, i).value, i + 1, j + 1);
  }

  /** No invocation runs past the cap it declared itself. */
  lemma {:induction false} OwnDeclarationHolds(limits: Limits, path: seq<Call>, i: nat)
    requires i < |path| && path[i].action.wallclockTimeoutMs.Some?
    ensures DeadlineAt(limits, path, i).Some?
    ensures DeadlineAt(limits, path, i).value <= path[i].start + path[i].action.wallclockTimeoutMs.value
  {
    DeadlineStep(limits, path, i);
  }

  /** Under an operator ceiling every invocation, at any depth, ends within it of its own start. */
  lemma {:induction false} CeilingHolds(limits: Limits, path: seq<Call>, i: nat)
    requires IsPath(path) && i < |path| && limits.ceiling.Some?
    ensures DeadlineAt(limits, path, i).Some? &&
      DeadlineAt(limits, path, i).value <= path[i].start + limits.ceiling.value
  {
    hide DeadlineAt;
    DeadlineStep(limits, path, i);
    if i > 0 {
      CeilingHolds(limits, path, i - 1);
    }
  }

  /** Nothing bounds this action of its own accord. */
  predicate Unbounded(limits: Limits, action: Action)
  {
    limits.ceiling.None? && action.dataflow && action.wallclockTimeoutMs.None?
  }

  /** Uncapped exactly when neither it nor any of its callers is bounded by anything. */
  lemma {:induction false} UncappedExactlyWhen(limits: Limits, path: seq<Call>, i: nat)
    requires i < |path|
    ensures DeadlineAt(limits, path, i).None? <==> forall k: nat | k <= i :: Unbounded(limits, path[k].action)
  {
    hide DeadlineAt;
    DeadlineStep(limits, path, i);
    if i > 0 {
      UncappedExactlyWhen(limits, path, i - 1);
    }
  }
}
