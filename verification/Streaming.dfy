/**
 * The pipe of a spawned streaming callee: its producer, the supervisor that joins the callee, and the
 * caller's reader, interleaved in any order.
 */
module Streaming {
  import opened Errors
  import opened Wrappers

  type Byte = bv8
  type Chunk = seq<Byte>

  /** How many chunks the channel holds. */
  const STREAM_FANOUT_CAPACITY := 16

  /** How the callee's task ended: its own result, or a join that failed (a panic). */
  datatype Joined = Finished(result: Result<(), KernelError>) | JoinFailed(text: string)

  datatype Callee = Running | Ended(joined: Joined)

  datatype Supervisor = Awaiting | Recording(failure: KernelError) | Releasing | Done

  /** The readable's end: `Gone` when a waiting read was dropped and took the receiver with it. */
  datatype Source = Live | Exhausted | Gone | Closed

  /** The read under way holds the source itself: `Waiting` while it is suspended, `Busy` while it is not. */
  datatype Read = Idle | Busy | Waiting

  /** What a read answered. */
  datatype Seen = Bytes(data: seq<Byte>) | Error(failure: KernelError) | End | Released

  datatype State = State(
    accepted: seq<Chunk>,          // every chunk a write committed, in order
    queue: seq<Chunk>,             // the channel
    handleOpen: bool,              // the callee's writable handle
    writing: seq<Chunk>,           // writes under way, each holding a sender
    held: bool,                    // the kernel's own sender
    callee: Callee,
    supervisor: Supervisor,
    slot: Option<KernelError>,     // the failure recorded beside the channel
    source: Source,
    read: Read,                    // reads of one handle take turns
    leftover: seq<Byte>,           // what reads have not yet taken of the last chunk
    abandoned: bool,               // a waiting read was dropped and left the handle without its receiver
    lost: seq<Byte>,               // what went with the receiver, undelivered
    seen: seq<Seen>)               // every answer the reader got

  datatype Event =
    | BeginWrite(chunk: Chunk)     // the handle's sender is cloned
    | Commit(i: nat)               // the channel has room
    | GiveUpWrite(i: nat)          // released by the token, refused by a departed receiver, or dropped
    | CloseHandle
    | CalleeEnds(joined: Joined)
    | Join
    | Record
    | ReleaseSender
    | StartRead                    // a read takes the source out
    | Pull                         // the next chunk; an empty one is skipped after a suspension
    | Give(room: nat)              // the read returns what fits its buffer
    | ReadEnd                      // a read that finds the channel closed, or no source left
    | ReleaseRead                  // a waiting read under a fired token
    | AbandonRead                  // a waiting read's future dropped
    | CloseReadable

  function Start(): State
  {
    State([], [], true, [], true, Running, Awaiting, None, Live, Idle, [], false, [], [])
  }

  /** What the stream should carry after its last chunk. A cancel is not a failure. */
  function CalleeFailure(joined: Joined): Option<KernelError>
  {
    match joined
    case Finished(Ok(_)) => None
    case Finished(Err(e)) => if e.Cancelled? then None else Some(e)
    case JoinFailed(text) => Some(Other(text))
  }

  function Failure(callee: Callee): Option<KernelError>
  {
    match callee case Running => None case Ended(joined) => CalleeFailure(joined)
  }

  /** Every sender is gone. */
  predicate ChannelClosed(s: State)
  {
    !s.held && !s.handleOpen && s.writing == []
  }

  /** Somebody holds the receiver: the handle, or a read that was under way when the handle was closed. */
  predicate Receiving(s: State)
  {
    s.source.Live? || (s.source.Closed? && !s.read.Idle?)
  }

  /** A poll of the source has nothing to answer. */
  predicate Pending(s: State)
  {
    s.leftover == [] && s.queue == [] && !ChannelClosed(s)
  }

  predicate Enabled(s: State, e: Event)
  {
    match e
    case BeginWrite(_) => s.handleOpen
    case Commit(i) => i < |s.writing| && |s.queue| < STREAM_FANOUT_CAPACITY && Receiving(s)
    case GiveUpWrite(i) => i < |s.writing|
    case CloseHandle => s.handleOpen
    case CalleeEnds(_) => s.callee.Running?
    case Join => s.supervisor.Awaiting? && s.callee.Ended?
    case Record => s.supervisor.Recording?
    case ReleaseSender => s.supervisor.Releasing?
    case StartRead => s.source.Live? && s.read.Idle?
    case Pull => !s.read.Idle? && s.leftover == [] && s.queue != []
    case Give(_) => !s.read.Idle? && s.leftover != []
    case ReadEnd =>
      if s.read.Idle? then s.source.Exhausted? || s.source.Gone?
      else s.leftover == [] && s.queue == [] && ChannelClosed(s)
    case ReleaseRead => !s.read.Idle? && Pending(s)
    case AbandonRead => s.read.Waiting?
    case CloseReadable => !s.source.Closed?
  }

  function Without(writing: seq<Chunk>, i: nat): seq<Chunk>
    requires i < |writing|
  {
    writing[..i] + writing[i + 1..]
  }

  function After(s: State, e: Event): State
    requires Enabled(s, e)
  {
    match e
    case BeginWrite(chunk) => s.(writing := s.writing + [chunk])
    case Commit(i) =>
      var chunk := s.writing[i];
      s.(writing := Without(s.writing, i), queue := s.queue + [chunk], accepted := s.accepted + [chunk])
    case GiveUpWrite(i) => s.(writing := Without(s.writing, i))
    case CloseHandle => s.(handleOpen := false)
    case CalleeEnds(joined) => s.(callee := Ended(joined))
    case Join =>
      (match Failure(s.callee)
       case None => s.(supervisor := Releasing)
       case Some(failure) => s.(supervisor := Recording(failure)))
    case Record => s.(slot := Some(s.supervisor.failure), supervisor := Releasing)
    case ReleaseSender => s.(held := false, supervisor := Done)
    case StartRead => s.(read := if Pending(s) then Waiting else Busy)
    case Pull => s.(leftover := s.queue[0], queue := s.queue[1..], read := if s.queue[0] == [] then Waiting else Busy)
    case Give(room) =>
      var n := if room < |s.leftover| then room else |s.leftover|;
      PutBack(s.(seen := s.seen + [Bytes(s.leftover[..n])], leftover := s.leftover[n..]))
    case ReadEnd =>
      if s.read.Idle? then s.(seen := s.seen + [End])
      else if s.slot.Some? then PutBack(s.(seen := s.seen + [Error(s.slot.value)], slot := None))
      else s.(seen := s.seen + [End], read := Idle, source := if s.source.Live? then Exhausted else s.source)
    case ReleaseRead => PutBack(s.(seen := s.seen + [Released]))
    case AbandonRead => Dropped(s.(read := Idle, source := if s.source.Live? then Gone else s.source,
                                   abandoned := s.abandoned || s.source.Live?))
    case CloseReadable => if s.read.Idle? then Dropped(s.(source := Closed)) else s.(source := Closed)
  }

  /** The receiver goes, and with it whatever it still had to give. */
  function Dropped(s: State): State
  {
    s.(lost := s.lost + s.leftover + Flatten(s.queue), leftover := [], queue := [])
  }

  /** The end of a read: the source goes back to its handle, or nowhere when that was closed meanwhile. */
  function PutBack(s: State): State
  {
    if s.source.Closed? then Dropped(s.(read := Idle)) else s.(read := Idle)
  }

  /** The state after these events from the start, if they can happen in this order. */
  function Run(events: seq<Event>): Option<State>
  {
    if events == [] then Some(Start())
    else
      var before, last := Run(events[..|events| - 1]), events[|events| - 1];
      if before.Some? && Enabled(before.value, last) then Some(After(before.value, last)) else None
  }

  // ------------------------------------------------------------ what was seen

  function Flatten(chunks: seq<Chunk>): seq<Byte>
  {
    if chunks == [] then [] else chunks[0] + Flatten(chunks[1..])
  }

  /** All bytes the reader got. */
  function Data(seen: seq<Seen>): seq<Byte>
  {
    if seen == [] then []
    else
      var last := seen[|seen| - 1];
      Data(seen[..|seen| - 1]) + if last.Bytes? then last.data else []
  }

  /** The error items and the ends of file, in order. */
  function Endings(seen: seq<Seen>): seq<Seen>
  {
    if seen == [] then []
    else
      var last := seen[|seen| - 1];
      Endings(seen[..|seen| - 1]) + if last.Error? || last.End? then [last] else []
  }

  /** No data follows an error item or an end of file. */
  predicate DataFirst(seen: seq<Seen>)
  {
    forall i, j | 0 <= i < j < |seen| && (seen[i].Error? || seen[i].End?) :: !seen[j].Bytes?
  }

  lemma {:induction false} SeeOne(seen: seq<Seen>, x: Seen)
    ensures Data(seen + [x]) == Data(seen) + if x.Bytes? then x.data else []
    ensures Endings(seen + [x]) == Endings(seen) + if x.Error? || x.End? then [x] else []
  {
    assert (seen + [x])[..|seen|] == seen;
  }

  lemma {:induction false} FlattenSnoc(chunks: seq<Chunk>, c: Chunk)
    ensures Flatten(chunks + [c]) == Flatten(chunks) + c
  {
    if chunks == [] {
      assert chunks + [c] == [c];
    } else {
      FlattenSnoc(chunks[1..], c);
      assert (chunks + [c])[1..] == chunks[1..] + [c];
    }
  }

  lemma {:induction false} NoEndingsNoEnd(seen: seq<Seen>, i: nat)
    requires i < |seen| && Endings(seen) == []
    ensures !seen[i].Error? && !seen[i].End?
  {
    if i < |seen| - 1 {
      NoEndingsNoEnd(seen[..|seen| - 1], i);
    }
  }

  lemma {:induction false} EndingsHold(seen: seq<Seen>, x: Seen)
    requires x in seen && (x.Error? || x.End?)
    ensures x in Endings(seen)
  {
    var last := |seen| - 1;
    if x in seen[..last] {
      EndingsHold(seen[..last], x);
    }
  }

  // ------------------------------------------------------------ what every interleaving keeps

  /** Nothing is left to read and nothing more can be written. */
  predicate Drained(s: State)
  {
    ChannelClosed(s) && s.queue == [] && s.leftover == []
  }

  /** What was delivered, what waits and what was lost is what was accepted, byte for byte. */
  predicate Conserved(s: State)
  {
    Data(s.seen) + s.leftover + Flatten(s.queue) + s.lost == Flatten(s.accepted) && |s.queue| <= STREAM_FANOUT_CAPACITY
  }

  /** Nothing is lost while somebody holds the receiver, and nothing waits when nobody does. */
  predicate Held(s: State)
  {
    && (Receiving(s) ==> s.lost == [])
    && (!Receiving(s) ==> s.leftover == [] && s.queue == [])
    && (s.source.Exhausted? || s.source.Gone? ==> s.read.Idle?)
    && (s.read.Waiting? ==> s.leftover == [])
  }

  /** The reader has taken the failure out of the slot. */
  predicate Taken(s: State)
  {
    s.supervisor.Done? && Failure(s.callee).Some? && s.slot.None?
  }

  predicate Supervised(s: State)
  {
    match s.supervisor
    case Awaiting => s.held && s.slot.None?
    case Recording(failure) => s.held && s.callee.Ended? && Failure(s.callee) == Some(failure) && s.slot.None?
    case Releasing => s.held && s.callee.Ended? && s.slot == Failure(s.callee)
    case Done => !s.held && s.callee.Ended? && (s.slot == Failure(s.callee) || s.slot.None?)
  }

  function ReportOf(s: State): seq<Seen>
  {
    if Taken(s) then [Error(Failure(s.callee).value)] else []
  }

  /** The report, then nothing but ends of file. */
  predicate ReportThenEnds(endings: seq<Seen>, report: seq<Seen>)
  {
    report <= endings && forall k | |report| <= k < |endings| :: endings[k].End?
  }

  predicate Reported(s: State)
  {
    && ReportThenEnds(Endings(s.seen), ReportOf(s))
    && DataFirst(s.seen)
    && (Taken(s) ==> Drained(s) && s.lost == [])
    && (End in Endings(s.seen) ==>
          !Receiving(s) && (s.abandoned || (Drained(s) && s.supervisor.Done? && s.slot.None? && s.lost == [])))
    && (Receiving(s) ==> !s.abandoned)
    && (s.source.Gone? ==> s.abandoned)
    && (s.abandoned ==> s.source.Gone? || s.source.Closed?)
    && (s.source.Exhausted? ==> Drained(s) && s.supervisor.Done? && s.slot.None? && s.lost == [])
  }

  predicate Inv(s: State)
  {
    Conserved(s) && Held(s) && Supervised(s) && Reported(s)
  }

  lemma {:induction false} StartKeeps()
    ensures Inv(Start())
  {
  }

  predicate IsWrite(e: Event)
  {
    e.BeginWrite? || e.Commit? || e.GiveUpWrite? || e.CloseHandle?
  }

  predicate IsRead(e: Event)
  {
    e.StartRead? || e.Pull? || e.Give? || e.ReadEnd? || e.ReleaseRead? || e.AbandonRead? || e.CloseReadable?
  }

  lemma {:induction false} WritesKeep(s: State, e: Event)
    requires Inv(s) && Enabled(s, e) && IsWrite(e)
    ensures Inv(After(s, e))
  {
    hide Endings, Data, Flatten, DataFirst, ReportThenEnds;
    if e.Commit? {
      FlattenSnoc(s.accepted, s.writing[e.i]);
      FlattenSnoc(s.queue, s.writing[e.i]);
      assert s.lost == [];
    }
  }

  lemma {:induction false} SupervisionKeeps(s: State, e: Event)
    requires Inv(s) && Enabled(s, e) && !IsWrite(e) && !IsRead(e)
    ensures Inv(After(s, e))
  {
    hide Endings, Data, Flatten, DataFirst, ReportThenEnds;
  }

  lemma {:induction false} PullsKeep(s: State, e: Event)
    requires Inv(s) && Enabled(s, e) && (e.StartRead? || e.Pull?)
    ensures Inv(After(s, e))
  {
    hide Endings, Data, DataFirst, ReportThenEnds;
  }

  lemma {:induction false} DropConserves(s: State)
    requires Conserved(s) && (s.lost == [] || (s.leftover == [] && s.queue == []))
    ensures Conserved(Dropped(s))
    ensures s.leftover == [] && s.queue == [] ==> Dropped(s) == s
  {
    hide Data;
    assert Flatten([]) == [];
    assert s.lost + [] + [] == s.lost;
    var waiting := s.leftover + Flatten(s.queue);
    assert s.lost == [] ==> Data(s.seen) + s.leftover + Flatten(s.queue) + [] == Data(s.seen) + [] + [] + waiting;
    assert s.lost == [] ==> s.lost + s.leftover + Flatten(s.queue) == waiting;
  }

  lemma {:induction false} DropsKeep(s: State, e: Event)
    requires Inv(s) && Enabled(s, e) && (e.AbandonRead? || e.CloseReadable?)
    ensures Inv(After(s, e))
  {
    hide Endings, Data, Flatten, DataFirst, ReportThenEnds, Conserved;
    if e.AbandonRead? {
      var source := if s.source.Live? then Gone else s.source;
      var t := s.(read := Idle, source := source, abandoned := s.abandoned || s.source.Live?);
      SameConserved(s, t);
      DropConserves(t);
    } else {
      var t := s.(source := Closed);
      SameConserved(s, t);
      DropConserves(t);
    }
  }

  lemma {:induction false} SameConserved(s: State, t: State)
    requires t.seen == s.seen && t.leftover == s.leftover && t.queue == s.queue && t.lost == s.lost &&
      t.accepted == s.accepted
    ensures Conserved(s) ==> Conserved(t)
  {
  }

  lemma {:induction false} PutBackKeeps(s: State)
    requires Inv(s) && !s.read.Idle?
    ensures Inv(PutBack(s))
  {
    hide Endings, Data, Flatten, DataFirst, ReportThenEnds, Conserved;
    var t := s.(read := Idle);
    SameConserved(s, t);
    DropConserves(t);
  }

  /** The read has its data, or its release, and still holds the source. */
  lemma {:induction false} AnswerKeeps(s: State, x: Seen, leftover: seq<Byte>)
    requires Inv(s) && !s.read.Idle? && (x.Bytes? || x.Released?) && (x.Bytes? ==> s.leftover != [])
    requires s.leftover == (if x.Bytes? then x.data else []) + leftover
    ensures Inv(s.(seen := s.seen + [x], leftover := leftover))
  {
    hide Endings, Data, Flatten, DataFirst, ReportThenEnds, Conserved;
    var t := s.(seen := s.seen + [x], leftover := leftover);
    assert x.Released? ==> leftover == s.leftover;
    SeeOne(s.seen, x);
    NothingYet(s);
    NothingYetDataFirst(s.seen, x);
    AnswersConserve(s, t, x);
    assert Endings(t.seen) == Endings(s.seen);
  }

  lemma {:induction false} GivesKeep(s: State, e: Event)
    requires Inv(s) && Enabled(s, e) && (e.Give? || e.ReleaseRead?)
    ensures Inv(After(s, e))
  {
    hide Inv, PutBack, Pending;
    var n := if e.Give? then if e.room < |s.leftover| then e.room else |s.leftover| else 0;
    var x := if e.Give? then Bytes(s.leftover[..n]) else Released;
    AnswerKeeps(s, x, s.leftover[n..]);
    PutBackKeeps(s.(seen := s.seen + [x], leftover := s.leftover[n..]));
  }

  lemma {:induction false} AnswersConserve(s: State, t: State, x: Seen)
    requires Conserved(s) && t.seen == s.seen + [x] && t.queue == s.queue && t.accepted == s.accepted &&
      t.lost == s.lost
    requires s.leftover == (if x.Bytes? then x.data else []) + t.leftover
    ensures Conserved(t)
  {
    hide Data, Flatten;
    SeeOne(s.seen, x);
    var given := if x.Bytes? then x.data else [];
    assert Data(s.seen) + (given + t.leftover) == Data(s.seen) + given + t.leftover;
  }

  lemma {:induction false} ErrorKeeps(s: State)
    requires Inv(s) && !s.read.Idle? && s.leftover == [] && s.queue == [] && ChannelClosed(s) && s.slot.Some?
    ensures Inv(s.(seen := s.seen + [Error(s.slot.value)], slot := None))
  {
    hide Endings, Data, Flatten, DataFirst, Conserved;
    var x := Error(s.slot.value);
    var t := s.(seen := s.seen + [x], slot := None);
    SeeOne(s.seen, x);
    NothingYet(s);
    NothingYetDataFirst(s.seen, x);
    AnswersConserve(s, t, x);
    assert Endings(t.seen) == [x];
    assert Taken(t) && ReportOf(t) == [x];
  }

  lemma {:induction false} EndKeeps(s: State, source: Source)
    requires Inv(s) && Enabled(s, ReadEnd) && (s.read.Idle? || s.slot.None?)
    requires source == if s.source.Live? then Exhausted else s.source
    ensures Inv(s.(seen := s.seen + [End], read := Idle, source := source))
  {
    hide Endings, Data, Flatten, DataFirst, Conserved;
    var t := s.(seen := s.seen + [End], read := Idle, source := source);
    SeeOne(s.seen, End);
    NothingYetDataFirst(s.seen, End);
    AnswersConserve(s, t, End);
    assert ReportOf(t) == ReportOf(s);
    assert ReportThenEnds(Endings(t.seen), ReportOf(t));
  }

  lemma {:induction false} EndsKeep(s: State, e: Event)
    requires Inv(s) && Enabled(s, e) && e.ReadEnd?
    ensures Inv(After(s, e))
  {
    hide Inv, PutBack, ChannelClosed;
    if !s.read.Idle? && s.slot.Some? {
      ErrorKeeps(s);
      PutBackKeeps(s.(seen := s.seen + [Error(s.slot.value)], slot := None));
    } else {
      EndKeeps(s, if s.source.Live? then Exhausted else s.source);
    }
  }

  lemma {:induction false} NothingYetDataFirst(seen: seq<Seen>, x: Seen)
    requires DataFirst(seen)
    ensures !x.Bytes? || Endings(seen) == [] ==> DataFirst(seen + [x])
  {
    hide Endings;
    forall i | 0 <= i < |seen|
      ensures Endings(seen) == [] ==> !seen[i].Error? && !seen[i].End?
    {
      if Endings(seen) == [] {
        NoEndingsNoEnd(seen, i);
      }
    }
  }

  /** A receiver still held that has not reported a failure has shown no ending at all. */
  lemma {:induction false} NothingYet(s: State)
    requires Reported(s)
    ensures Receiving(s) && !Taken(s) ==> Endings(s.seen) == []
  {
    hide Endings, DataFirst, ReportThenEnds;
    if ReportThenEnds(Endings(s.seen), []) {
      OnlyEnds(Endings(s.seen));
    }
  }

  lemma {:induction false} OnlyEnds(endings: seq<Seen>)
    requires ReportThenEnds(endings, [])
    ensures endings == [] || End in endings
  {
    if endings != [] {
      assert endings[0] == End;
    }
  }

  lemma {:induction false} EveryRunKeeps(events: seq<Event>)
    requires Run(events).Some?
    ensures Inv(Run(events).value)
  {
    hide Inv, Enabled, After;
    if events == [] {
      StartKeeps();
    } else {
      var s, e := Run(events[..|events| - 1]).value, events[|events| - 1];
      EveryRunKeeps(events[..|events| - 1]);
      StepKeeps(s, e);
    }
  }

  lemma {:induction false} StepKeeps(s: State, e: Event)
    requires Inv(s) && Enabled(s, e)
    ensures Inv(After(s, e))
  {
    hide Inv, Enabled, After;
    if IsWrite(e) {
      WritesKeep(s, e);
    } else if !IsRead(e) {
      SupervisionKeeps(s, e);
    } else if e.StartRead? || e.Pull? {
      PullsKeep(s, e);
    } else if e.AbandonRead? || e.CloseReadable? {
      DropsKeep(s, e);
    } else if e.Give? || e.ReleaseRead? {
      GivesKeep(s, e);
    } else {
      EndsKeep(s, e);
    }
  }

  // ------------------------------------------------------------ what the reader can conclude

  /** No read was dropped while it waited: what the reader's own handle then shows can be trusted. */
  predicate Intact(s: State)
  {
    !s.abandoned
  }

  /**
   * At any moment, delivered, half-read, queued and lost bytes are the accepted ones in order, and bytes are lost only
   * with the receiver, by a reader that dropped a waiting read or closed its handle.
   */
  lemma {:induction false} NothingLostNothingAdded(events: seq<Event>)
    requires Run(events).Some?
    ensures var s := Run(events).value;
      && Data(s.seen) + s.leftover + Flatten(s.queue) + s.lost == Flatten(s.accepted)
      && |s.queue| <= 16
      && (s.lost != [] ==> s.source.Gone? || s.source.Closed?)
  {
    hide Data, Flatten, Endings, DataFirst;
    EveryRunKeeps(events);
  }

  /** The undelivered bytes that go when the receiver does: in these three steps, if there are any. */
  function GivenUp(s: State, e: Event): seq<Byte>
  {
    match e
    case AbandonRead => Flatten(s.queue)
    case CloseReadable => if s.read.Idle? then s.leftover + Flatten(s.queue) else []
    case Give(room) =>
      if !s.source.Closed? then []
      else (if room < |s.leftover| then s.leftover[room..] else []) + Flatten(s.queue)
    case _ => []
  }

  lemma {:induction false} LosesWhatIsGivenUp(s: State, e: Event)
    requires Inv(s) && Enabled(s, e)
    ensures After(s, e).lost == s.lost + GivenUp(s, e)
  {
    hide Data, Endings, DataFirst, Conserved, Reported, Supervised, Flatten;
    NoBytes();
    if e.AbandonRead? || e.CloseReadable? {
      assert s.lost + s.leftover + Flatten(s.queue) == s.lost + (s.leftover + Flatten(s.queue));
    } else if e.Give? {
      var rest := if e.room < |s.leftover| then s.leftover[e.room..] else [];
      assert s.lost + rest + Flatten(s.queue) == s.lost + (rest + Flatten(s.queue));
    }
  }

  lemma {:induction false} NoBytes()
    ensures Flatten([]) == []
  {
  }

  /** The reader gives up undelivered bytes in this step of the run. */
  predicate GivesUpAt(events: seq<Event>, i: nat)
    requires i < |events|
  {
    Run(events[..i]).Some? && GivenUp(Run(events[..i]).value, events[i]) != []
  }

  /**
   * Bytes have been lost exactly when the reader gave some up: it dropped a waiting read after a chunk had come, closed
   * its handle on bytes not yet read, or closed it under a read that could not take all of them.
   */
  lemma {:induction false} LostExactlyWhen(events: seq<Event>)
    requires Run(events).Some?
    ensures Run(events).value.lost != [] <==> exists i: nat :: i < |events| && GivesUpAt(events, i)
  {
    hide Inv, Enabled, After, GivenUp;
    if events != [] {
      var n := |events| - 1;
      var fewer := events[..n];
      LostExactlyWhen(fewer);
      EveryRunKeeps(fewer);
      LosesWhatIsGivenUp(Run(fewer).value, events[n]);
      forall i: nat | i < n
        ensures GivesUpAt(events, i) <==> GivesUpAt(fewer, i)
      {
        assert fewer[..i] == events[..i];
      }
      assert GivesUpAt(events, n) <==> GivenUp(Run(fewer).value, events[n]) != [];
    }
  }

  /** No error was answered. */
  predicate EndedQuietly(seen: seq<Seen>)
  {
    forall x | x in seen :: !x.Error?
  }

  /** This error was, no other one, once, and before any end. */
  ghost predicate ReportedFirst(seen: seq<Seen>, e: KernelError)
  {
    exists i | 0 <= i < |seen| ::
      && seen[i] == Error(e)
      && (forall j | 0 <= j < |seen| && j != i :: !seen[j].Error?)
      && forall j | 0 <= j < i :: !seen[j].End?
  }

  lemma {:induction false} QuietEndings(seen: seq<Seen>)
    requires forall k | 0 <= k < |Endings(seen)| :: Endings(seen)[k].End?
    ensures EndedQuietly(seen)
  {
    forall x | x in seen
      ensures !x.Error?
    {
      if x.Error? {
        EndingsHold(seen, x);
      }
    }
  }

  lemma {:induction false} FirstEnding(seen: seq<Seen>, e: KernelError)
    requires Endings(seen) != [] && Endings(seen)[0] == Error(e)
    requires forall k | 1 <= k < |Endings(seen)| :: Endings(seen)[k].End?
    ensures ReportedFirst(seen, e)
  {
    var n := |seen| - 1;
    var fewer, last := seen[..n], seen[n];
    var before := Endings(fewer);
    assert Endings(seen) == before + if last.Error? || last.End? then [last] else [];
    if before == [] {
      forall j: nat | j < n
        ensures !seen[j].Error? && !seen[j].End?
      {
        NoEndingsNoEnd(fewer, j);
      }
      assert seen[n] == Error(e);
    } else {
      hide Endings;
      assert forall k | 0 <= k < |before| :: Endings(seen)[k] == before[k];
      FirstEnding(fewer, e);
      assert last.Error? || last.End? ==> last == Endings(seen)[|before|];
      StillFirst(fewer, last, e);
      assert seen == fewer + [last];
    }
  }

  lemma {:induction false} StillFirst(fewer: seq<Seen>, last: Seen, e: KernelError)
    requires ReportedFirst(fewer, e) && !last.Error?
    ensures ReportedFirst(fewer + [last], e)
  {
    var seen := fewer + [last];
    var i :| 0 <= i < |fewer| && fewer[i] == Error(e) && (forall j | 0 <= j < |fewer| && j != i :: !fewer[j].Error?)
      && forall j | 0 <= j < i :: !fewer[j].End?;
    assert seen[i] == Error(e) && forall j | 0 <= j < |fewer| :: seen[j] == fewer[j];
  }

  /**
   * The end of file. If no read was dropped while it waited: the callee has ended, every accepted byte was delivered,
   * and its failure was reported first. If one was, the reader has lost its receiver.
   */
  lemma {:induction false} EndMeansEnded(events: seq<Event>)
    requires Run(events).Some? && End in Run(events).value.seen
    ensures var s := Run(events).value;
      && DataFirst(s.seen)
      && if Intact(s) then
           && s.callee.Ended?
           && Data(s.seen) == Flatten(s.accepted)
           && ChannelClosed(s)
           && (match s.callee.joined
               case Finished(Ok(_)) => EndedQuietly(s.seen)
               case Finished(Err(Cancelled)) => EndedQuietly(s.seen)
               case Finished(Err(e)) => ReportedFirst(s.seen, e)
               case JoinFailed(text) => ReportedFirst(s.seen, Other(text)))
         else s.source.Gone? || s.source.Closed?
  {
    hide Endings, Data, Flatten, DataFirst, ReportedFirst, EndedQuietly;
    var s := Run(events).value;
    EveryRunKeeps(events);
    EndingsHold(s.seen, End);
    if Intact(s) {
      DrainedDelivers(s);
      var failure := CalleeFailure(s.callee.joined);
      if failure.Some? {
        FirstEnding(s.seen, failure.value);
      } else {
        QuietEndings(s.seen);
      }
    }
  }

  /**
   * While the callee runs, a read answers the end of file exactly when an earlier one was dropped and took the
   * receiver.
   */
  lemma {:induction false} EndWhileRunning(events: seq<Event>)
    requires Run(events).Some? && Run(events).value.callee.Running?
    ensures var s := Run(events).value;
      && (Enabled(s, ReadEnd) <==> s.source.Gone?)
      && (Enabled(s, ReadEnd) ==> After(s, ReadEnd).seen == s.seen + [End])
  {
    hide Endings, Data, Flatten, DataFirst, Conserved, ReportThenEnds;
    EveryRunKeeps(events);
  }

  lemma {:induction false} DrainedDelivers(s: State)
    requires Conserved(s) && s.queue == [] && s.leftover == [] && s.lost == []
    ensures Data(s.seen) == Flatten(s.accepted)
  {
    assert Flatten(s.queue) == [];
    assert Data(s.seen) + [] + [] + [] == Data(s.seen);
  }

  /** An error item: the callee failed so, all it wrote was delivered before, and nothing else was reported. */
  lemma {:induction false} ErrorMeansFailed(events: seq<Event>, failure: KernelError)
    requires Run(events).Some? && Error(failure) in Run(events).value.seen
    ensures var s := Run(events).value;
      && s.callee.Ended?
      && ((s.callee.joined == Finished(Err(failure)) && failure != Cancelled)
          || (failure.Other? && s.callee.joined == JoinFailed(failure.text)))
      && Data(s.seen) == Flatten(s.accepted)
      && DataFirst(s.seen)
      && ReportedFirst(s.seen, failure)
  {
    hide Endings, Data, Flatten, DataFirst, ReportedFirst;
    var s := Run(events).value;
    EveryRunKeeps(events);
    EndingsHold(s.seen, Error(failure));
    ErrorIsReported(Endings(s.seen), ReportOf(s), failure);
    DrainedDelivers(s);
    FirstEnding(s.seen, failure);
  }

  lemma {:induction false} ErrorIsReported(endings: seq<Seen>, report: seq<Seen>, failure: KernelError)
    requires ReportThenEnds(endings, report) && Error(failure) in endings
    ensures Error(failure) in report
  {
    var k :| 0 <= k < |endings| && endings[k] == Error(failure);
    assert k < |report| ==> report[k] == endings[k];
  }

  /** Nothing is left to give and no writer is left to add to it. */
  predicate Over(s: State)
  {
    Drained(s) && s.callee.Ended? && s.supervisor.Done? && s.lost == []
  }

  /** Nobody holds the receiver: no byte moves any more. */
  predicate Unreceived(s: State)
  {
    !Receiving(s) && s.read.Idle? && s.leftover == [] && s.queue == []
  }

  lemma {:induction false} UnreceivedStays(s: State, e: Event)
    requires Unreceived(s) && Enabled(s, e)
    ensures var t := After(s, e);
      && Unreceived(t) && t.accepted == s.accepted && Data(t.seen) == Data(s.seen) && t.lost == s.lost
      && (Over(s) ==> Over(t) && t.callee == s.callee)
  {
    hide Data;
    assert Flatten([]) == [];
    if e.ReadEnd? {
      SeeOne(s.seen, End);
    }
  }

  /** Once the receiver is gone, no later step accepts, delivers or loses another byte. */
  lemma {:induction false} LostForGood(events: seq<Event>, more: seq<Event>)
    requires Run(events).Some? && !Receiving(Run(events).value) && Run(events + more).Some?
    ensures var s, t := Run(events).value, Run(events + more).value;
      && Unreceived(t) && t.accepted == s.accepted && Data(t.seen) == Data(s.seen) && t.lost == s.lost
      && (Over(s) ==> Over(t) && t.callee == s.callee)
  {
    hide Endings, Data, Flatten, DataFirst, After, Enabled, Over, Conserved, Supervised, Reported;
    if more == [] {
      assert events + more == events;
      EveryRunKeeps(events);
    } else {
      var fewer, e := more[..|more| - 1], more[|more| - 1];
      assert (events + more)[..|events + more| - 1] == events + fewer;
      LostForGood(events, fewer);
      UnreceivedStays(Run(events + fewer).value, e);
    }
  }

  /**
   * Once the reader saw the end, no later step accepts or delivers another byte; if no read was dropped, all is over.
   */
  lemma {:induction false} EndIsFinal(events: seq<Event>, more: seq<Event>)
    requires Run(events).Some? && End in Run(events).value.seen && Run(events + more).Some?
    ensures var s, t := Run(events).value, Run(events + more).value;
      && t.accepted == s.accepted && Data(t.seen) == Data(s.seen) && t.lost == s.lost
      && !Receiving(t) && (Intact(s) ==> Over(t) && t.callee == s.callee)
  {
    hide Endings, Data, Flatten, DataFirst, After, Enabled;
    EveryRunKeeps(events);
    EndingsHold(Run(events).value.seen, End);
    LostForGood(events, more);
  }

  /** After `events`, the reads in `more` reach the end of file with no other step between them. */
  ghost predicate ReadsToTheEnd(events: seq<Event>, more: seq<Event>)
  {
    && (forall i | 0 <= i < |more| :: more[i].StartRead? || more[i].Pull? || more[i].Give? || more[i].ReadEnd?)
    && Run(events).Some? && Run(events + more).Some?
    && var s, t := Run(events).value, Run(events + more).value;
    End in t.seen && t.accepted == s.accepted && Intact(t) && t.lost == []
  }

  /**
   * Whenever the callee has ended, its outcome is recorded and its senders are gone, the reader can read on to
   * the end of file, whatever the channel still holds; and it gets all of it.
   */
  lemma {:induction false} TheEndIsReachable(events: seq<Event>)
    requires Run(events).Some?
    requires var s := Run(events).value; s.source.Live? && s.supervisor.Done? && ChannelClosed(s)
    ensures exists more :: ReadsToTheEnd(events, more)
    decreases |Run(events).value.queue|, |Run(events).value.leftover|, Run(events).value.slot.Some?,
      Run(events).value.read.Idle?
  {
    hide Inv, After, Enabled, ChannelClosed, NextRead;
    var s := Run(events).value;
    EveryRunKeeps(events);
    var e := NextRead(s);
    NextReadGoesOn(s);
    assert (events + [e])[..|events|] == events;
    if End in After(s, e).seen {
      assert ReadsToTheEnd(events, [e]);
    } else {
      TheEndIsReachable(events + [e]);
      var rest :| ReadsToTheEnd(events + [e], rest);
      assert events + ([e] + rest) == events + [e] + rest;
      assert ReadsToTheEnd(events, [e] + rest);
    }
  }

  function NextRead(s: State): Event
  {
    if s.read.Idle? then StartRead
    else if s.leftover != [] then Give(|s.leftover|)
    else if s.queue != [] then Pull else ReadEnd
  }

  lemma {:induction false} NextReadGoesOn(s: State)
    requires Inv(s) && s.source.Live? && s.supervisor.Done? && ChannelClosed(s)
    ensures var e := NextRead(s);
      && (e.StartRead? || e.Pull? || e.Give? || e.ReadEnd?) && Enabled(s, e)
      && var t := After(s, e);
      t.accepted == s.accepted && Intact(t) && t.lost == []
      && (End in t.seen
          || (t.source.Live? && t.supervisor.Done? && ChannelClosed(t)
              && (|t.queue| < |s.queue| || (t.queue == s.queue
                  && (|t.leftover| < |s.leftover| || (t.leftover == s.leftover
                      && ((s.slot.Some? && t.slot.None?) || (t.slot == s.slot && s.read.Idle? && !t.read.Idle?))))))))
  {
    hide Endings, Data, Flatten, DataFirst, Conserved;
    var t := After(s, NextRead(s));
    if !t.source.Live? {
      assert t.seen[|s.seen|] == End;
    }
  }

  lemma {:induction false} OneMore(events: seq<Event>, e: Event)
    requires Run(events).Some? && Enabled(Run(events).value, e)
    ensures Run(events + [e]) == Some(After(Run(events).value, e))
  {
    assert (events + [e])[..|events|] == events;
  }

  /** Whether a read is under way after this step, when it was or was not before. */
  predicate LeavesReading(reading: bool, e: Event)
  {
    e.StartRead? || (reading && !(e.Give? || e.ReadEnd? || e.ReleaseRead? || e.AbandonRead?))
  }

  /** A read was started and has not been answered or dropped since. */
  predicate UnderWay(events: seq<Event>)
  {
    events != [] && LeavesReading(UnderWay(events[..|events| - 1]), events[|events| - 1])
  }

  lemma {:induction false} ReaderSteps(s: State, e: Event)
    requires Enabled(s, e)
    ensures !After(s, e).read.Idle? <==> LeavesReading(!s.read.Idle?, e)
    ensures After(s, e).source.Closed? <==> s.source.Closed? || e.CloseReadable?
  {
    hide Flatten;
  }

  /** The reader's side, told from its own steps: reads take turns, and it closes its handle once. */
  lemma {:induction false} ReaderKnows(events: seq<Event>)
    requires Run(events).Some?
    ensures var s := Run(events).value;
      && (s.read.Idle? <==> !UnderWay(events))
      && (s.source.Closed? <==> CloseReadable in events)
  {
    hide After, Enabled, LeavesReading;
    if events != [] {
      var n := |events| - 1;
      ReaderKnows(events[..n]);
      ReaderSteps(Run(events[..n]).value, events[n]);
      assert events == events[..n] + [events[n]];
    }
  }

  /** Only one read at a time, and only a read takes, gives or is given up; the handle can be closed until it is. */
  lemma {:induction false} ReadsTakeTurns(events: seq<Event>, e: Event)
    requires Run(events).Some?
    ensures Run(events + [StartRead]).Some? ==> !UnderWay(events) && CloseReadable !in events
    ensures e in [Pull, ReleaseRead, AbandonRead] || e.Give? ==> Run(events + [e]).Some? ==> UnderWay(events)
    ensures Run(events + [CloseReadable]).Some? <==> CloseReadable !in events
  {
    hide After;
    ReaderKnows(events);
    assert (events + [StartRead])[..|events|] == events && (events + [e])[..|events|] == events;
    assert (events + [CloseReadable])[..|events|] == events;
  }

  /** After the end, reading on answers the end again until the handle is closed. */
  lemma {:induction false} EndIsRepeated(events: seq<Event>)
    requires Run(events).Some? && End in Run(events).value.seen && CloseReadable !in events
    ensures Run(events + [ReadEnd]).Some?
    ensures Run(events + [ReadEnd]).value.seen == Run(events).value.seen + [End]
  {
    hide Data, Endings, Flatten, DataFirst, Conserved, Supervised, UnderWay, ReportThenEnds;
    EveryRunKeeps(events);
    ReaderKnows(events);
    EndingsHold(Run(events).value.seen, End);
    OneMore(events, ReadEnd);
  }

  /** Somebody may still add to the channel: the kernel, the callee's handle, or a write under way. */
  predicate HasSender(s: State)
  {
    s.held || s.handleOpen || s.writing != []
  }

  /** A read waits, so that it can be released or dropped, only while nothing has come and something still may. */
  lemma {:induction false} WaitingNeedsASender(events: seq<Event>)
    requires Run(events).Some?
    ensures var s := Run(events).value;
      && (Run(events + [ReleaseRead]).Some? <==>
            !s.read.Idle? && s.leftover == [] && s.queue == [] && HasSender(s))
      && (Run(events + [StartRead] + [AbandonRead]).Some? <==>
            s.source.Live? && s.read.Idle? && s.leftover == [] && s.queue == [] && HasSender(s))
  {
    assert (events + [ReleaseRead])[..|events|] == events;
    assert (events + [StartRead])[..|events|] == events;
    assert (events + [StartRead] + [AbandonRead])[..|events| + 1] == events + [StartRead];
  }

  lemma {:induction false} PullThenDrop(s: State)
    requires Enabled(s, Pull)
    ensures Enabled(After(s, Pull), AbandonRead) <==> s.queue[..1] == [[]]
  {
  }

  /** After taking a chunk a read waits again, so that it can be dropped, exactly when the chunk was empty. */
  lemma {:induction false} EmptyChunksSuspend(events: seq<Event>)
    requires Run(events + [Pull]).Some?
    ensures Run(events + [Pull] + [AbandonRead]).Some? <==> Run(events).Some? && Run(events).value.queue[..1] == [[]]
  {
    hide After, Enabled;
    assert (events + [Pull])[..|events|] == events;
    assert (events + [Pull] + [AbandonRead])[..|events| + 1] == events + [Pull];
    PullThenDrop(Run(events).value);
  }

  // ------------------------------------------------------------ every write is accounted for

  /** The chunks whose writes were begun. */
  function Begun(events: seq<Event>): seq<Chunk>
  {
    if events == [] then []
    else
      var last := events[|events| - 1];
      Begun(events[..|events| - 1]) + if last.BeginWrite? then [last.chunk] else []
  }

  /** The chunks whose writes were given up. */
  function Refused(events: seq<Event>): seq<Chunk>
    requires Run(events).Some?
  {
    if events == [] then []
    else
      var n := |events| - 1;
      Refused(events[..n]) + if events[n].GiveUpWrite? then [Run(events[..n]).value.writing[events[n].i]] else []
  }

  lemma {:induction false} WithoutOne(writing: seq<Chunk>, i: nat)
    requires i < |writing|
    ensures multiset(writing) == multiset(Without(writing, i)) + multiset{writing[i]}
  {
    assert writing == writing[..i] + [writing[i]] + writing[i + 1..];
  }

  lemma {:induction false} WriteMoves(s: State, e: Event)
    requires Enabled(s, e)
    ensures var t := After(s, e);
      && (e.BeginWrite? ==> t.writing == s.writing + [e.chunk] && t.accepted == s.accepted)
      && (e.Commit? ==> e.i < |s.writing| && t.writing == Without(s.writing, e.i)
                        && t.accepted == s.accepted + [s.writing[e.i]])
      && (e.GiveUpWrite? ==> e.i < |s.writing| && t.writing == Without(s.writing, e.i) && t.accepted == s.accepted)
      && (!e.BeginWrite? && !e.Commit? && !e.GiveUpWrite? ==> t.writing == s.writing && t.accepted == s.accepted)
  {
    hide Flatten, Without;
  }

  /** One step moves at most one chunk. */
  lemma {:induction false} WriteStep(s: State, e: Event)
    requires Enabled(s, e)
    ensures e.GiveUpWrite? ==> e.i < |s.writing|
    ensures var t := After(s, e);
      multiset(t.writing) + multiset(t.accepted) + (if e.GiveUpWrite? then multiset{s.writing[e.i]} else multiset{})
      == multiset(s.writing) + multiset(s.accepted) + (if e.BeginWrite? then multiset{e.chunk} else multiset{})
  {
    hide After, Enabled, Without;
    WriteMoves(s, e);
    if e.Commit? || e.GiveUpWrite? {
      WithoutOne(s.writing, e.i);
    }
  }

  lemma {:induction false} Balance(begun: multiset<Chunk>, rest: multiset<Chunk>, refused: multiset<Chunk>,
                                   rest': multiset<Chunk>, b: multiset<Chunk>, r: multiset<Chunk>)
    requires begun == rest + refused && rest' + r == rest + b
    ensures begun + b == rest' + (refused + r)
  {
    assert rest' + (refused + r) == rest' + r + refused;
    assert begun + b == rest + b + refused;
  }

  lemma {:induction false} Ledgers(events: seq<Event>)
    requires events != [] && Run(events).Some?
    ensures var n := |events| - 1;
      var e := events[n];
      && Run(events[..n]).Some? && (e.GiveUpWrite? ==> e.i < |Run(events[..n]).value.writing|)
      && multiset(Begun(events)) ==
        multiset(Begun(events[..n])) + (if e.BeginWrite? then multiset{e.chunk} else multiset{})
      && multiset(Refused(events)) == multiset(Refused(events[..n])) +
           (if e.GiveUpWrite? then multiset{Run(events[..n]).value.writing[e.i]} else multiset{})
  {
    hide After;
  }

  /** Every write that was begun is under way, was accepted or was given up, once. */
  lemma {:induction false} WritesAreAccountedFor(events: seq<Event>)
    requires Run(events).Some?
    ensures var s := Run(events).value;
      multiset(Begun(events)) == multiset(s.writing) + multiset(s.accepted) + multiset(Refused(events))
  {
    if events != [] {
      hide After, Enabled, Begun, Refused;
      var n := |events| - 1;
      var e, s, t := events[n], Run(events[..n]).value, Run(events).value;
      WritesAreAccountedFor(events[..n]);
      WriteStep(s, e);
      Ledgers(events);
      Balance(multiset(Begun(events[..n])), multiset(s.writing) + multiset(s.accepted), multiset(Refused(events[..n])),
              multiset(t.writing) + multiset(t.accepted), if e.BeginWrite? then multiset{e.chunk} else multiset{},
              if e.GiveUpWrite? then multiset{s.writing[e.i]} else multiset{});
    }
  }

  /** The next step towards the end of the callee and of everything that could still be written. */
  function NextClosing(s: State): Event
  {
    if s.callee.Running? then CalleeEnds(Finished(Ok(())))
    else if s.supervisor.Awaiting? then Join
    else if s.supervisor.Recording? then Record
    else if s.supervisor.Releasing? then ReleaseSender
    else if s.handleOpen then CloseHandle
    else GiveUpWrite(0)
  }

  function StepsLeft(s: State): nat
  {
    (if s.callee.Running? then 1 else 0) + (if s.handleOpen then 1 else 0) + |s.writing|
      + match s.supervisor case Awaiting => 3 case Recording(_) => 2 case Releasing => 1 case Done => 0
  }

  lemma {:induction false} ClosingGoesOn(s: State)
    requires Inv(s) && s.source.Live? && !(s.supervisor.Done? && ChannelClosed(s))
    ensures Enabled(s, NextClosing(s))
    ensures var t := After(s, NextClosing(s));
      t.source.Live? && t.accepted == s.accepted && StepsLeft(t) < StepsLeft(s)
  {
    hide Reported, Conserved, Held;
  }

  /** After `more` the end is seen, nothing is lost and nothing but what had been accepted was delivered. */
  ghost predicate EndsWell(events: seq<Event>, more: seq<Event>)
  {
    && Run(events).Some? && Run(events + more).Some?
    && var s, t := Run(events).value, Run(events + more).value;
    End in t.seen && t.accepted == s.accepted && Intact(t) && t.lost == []
  }

  /** No state is stuck: as long as the handle has its receiver, the callee, its senders and the reader can all end. */
  lemma {:induction false} TheEndStaysPossible(events: seq<Event>)
    requires Run(events).Some? && Run(events).value.source.Live?
    ensures exists more :: EndsWell(events, more)
    decreases StepsLeft(Run(events).value)
  {
    hide Inv, After, Enabled, ChannelClosed, StepsLeft, NextClosing;
    var s := Run(events).value;
    if s.supervisor.Done? && ChannelClosed(s) {
      TheEndIsReachable(events);
      var more :| ReadsToTheEnd(events, more);
      assert EndsWell(events, more);
    } else {
      EveryRunKeeps(events);
      ClosingGoesOn(s);
      var e := NextClosing(s);
      OneMore(events, e);
      TheEndStaysPossible(events + [e]);
      var rest :| EndsWell(events + [e], rest);
      assert events + ([e] + rest) == events + [e] + rest;
      assert EndsWell(events, [e] + rest);
    }
  }

  /**
   * A write the running callee begins is taken as long as somebody holds the receiver and fewer than 16 chunks wait.
   */
  lemma {:induction false} RoomTakesAWrite(events: seq<Event>, chunk: Chunk)
    requires Run(events).Some?
    requires var s := Run(events).value; s.handleOpen && |s.queue| < 16 && Receiving(s)
    ensures exists i ::
      var t := Run(events + [BeginWrite(chunk), Commit(i)]);
      t.Some? && t.value.accepted == Run(events).value.accepted + [chunk]
  {
    hide Run;
    var s := Run(events).value;
    var i := |s.writing|;
    OneMore(events, BeginWrite(chunk));
    OneMore(events + [BeginWrite(chunk)], Commit(i));
    assert events + [BeginWrite(chunk)] + [Commit(i)] == events + [BeginWrite(chunk), Commit(i)];
  }

  /** Only such a commit takes a chunk, into a channel that has room; every other step leaves what was accepted. */
  lemma {:induction false} OnlyCommitsTake(s: State, e: Event)
    requires Enabled(s, e)
    ensures After(s, e).accepted != s.accepted ==> e.Commit? && |s.queue| < 16 && Receiving(s)
    ensures e.Commit? ==> After(s, e).accepted == s.accepted + [s.writing[e.i]]
  {
    hide Flatten;
  }

  /** The one exception: a read dropped while it waits takes the receiver along, and the next read answers the end. */
  lemma {:induction false} AbandonedReadEndsEarly()
    ensures exists events :: Run(events).Some? && End in Run(events).value.seen && Run(events).value.callee.Running?
  {
    hide Run;
    RunNothing();
    OneMore([], StartRead);
    OneMore([] + [StartRead], AbandonRead);
    OneMore([] + [StartRead] + [AbandonRead], ReadEnd);
    assert Run([] + [StartRead] + [AbandonRead] + [ReadEnd]).value.seen[0] == End;
  }

  lemma {:induction false} RunNothing()
    ensures Run([]) == Some(Start())
  {
  }

  /** It takes what had come meanwhile along, too: one byte the callee wrote, gone while the callee runs. */
  lemma {:induction false} AbandonedReadLosesBytes()
    ensures exists events :: Run(events).Some? && Run(events).value.lost == [1] && Run(events).value.callee.Running?
  {
    hide Run;
    RunNothing();
    OneMore([], StartRead);
    OneMore([] + [StartRead], BeginWrite([1]));
    OneMore([] + [StartRead] + [BeginWrite([1])], Commit(0));
    var three := [] + [StartRead] + [BeginWrite([1])] + [Commit(0)];
    OneMore(three, AbandonRead);
    assert Flatten([[1]]) == [1] + Flatten([[1]][1..]);
    assert Run(three + [AbandonRead]).value.lost == [1];
  }
}
