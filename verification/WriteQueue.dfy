/** The outgoing queue of a session, with one asynchronous write at a time
    (src/session.cpp:63-80, 142-174). The session's strand makes every handler
    below one step. */
module WriteQueue {
  import opened Octets

  /** `outstanding` are the packets handed to `async_write` and not completed;
      `accepted` and `written` record what was taken in and what went out. */
  datatype State = State(connected: bool, queue: seq<Bytes>, writing: bool,
                         outstanding: seq<Bytes>, accepted: seq<Bytes>, written: seq<Bytes>)

  const INITIAL := State(false, [], false, [], [], [])

  datatype Event =
    | Connect
    | Deliver(packet: Bytes)
    | WriteDone
    | WriteFailed
    | Close

  /** `do_write`. */
  function StartWrite(st: State): State {
    if !st.connected || st.queue == [] then st.(writing := false)
    else st.(writing := true, outstanding := st.outstanding + [st.queue[0]])
  }

  function Push(st: State, packet: Bytes): State {
    st.(queue := st.queue + [packet], accepted := st.accepted + [packet])
  }

  function Next(st: State, e: Event, max: int): State {
    match e
    case Connect => st.(connected := true)
    case Deliver(p) =>
      if !st.connected then st
      else if |st.queue| >= max then st.(connected := false)
      else if st.queue == [] then StartWrite(Push(st, p))
      else Push(st, p)
    case WriteDone =>
      if st.outstanding == [] then st
      else
        StartWrite(st.(queue := if st.queue == [] then [] else st.queue[1..],
                       outstanding := st.outstanding[1..], written := st.written + [st.outstanding[0]]))
    case WriteFailed =>
      if st.outstanding == [] then st else st.(connected := false, outstanding := st.outstanding[1..])
    case Close => st.(connected := false)
  }

  /** Nothing is lost, repeated or reordered; at most one write is outstanding,
      of the front packet; the queue is bounded. */
  ghost predicate Faithful(st: State, max: int) {
    && st.written + st.queue == st.accepted
    && |st.outstanding| <= 1
    && (st.outstanding != [] ==> st.queue != [] && st.queue[0] == st.outstanding[0] && st.writing)
    && (|st.queue| == 0 || |st.queue| <= max)
  }

  /** A connected queue that has packets is writing one. */
  predicate Moving(st: State) {
    st.connected && st.queue != [] ==> st.outstanding != []
  }

  lemma {:induction false} StepKeeps(st: State, e: Event, max: int)
    requires Faithful(st, max)
    ensures Faithful(Next(st, e, max), max)
    ensures st.accepted <= Next(st, e, max).accepted && st.written <= Next(st, e, max).written
  {
    match e {
      case Deliver(p) =>
        assert st.written + (st.queue + [p]) == (st.written + st.queue) + [p];
      case WriteDone =>
        if st.outstanding != [] {
          assert st.queue == [st.queue[0]] + st.queue[1..];
          assert st.written + ([st.queue[0]] + st.queue[1..]) == (st.written + [st.queue[0]]) + st.queue[1..];
        }
      case _ =>
    }
  }

  ghost function Exec(st: State, events: seq<Event>, max: int): State {
    if events == [] then st else Next(Exec(st, events[..|events| - 1], max), events[|events| - 1], max)
  }

  ghost function Run(events: seq<Event>, max: int): State {
    Exec(INITIAL, events, max)
  }

  lemma {:induction false} ExecMore(events: seq<Event>, e: Event, max: int)
    ensures Run(events + [e], max) == Next(Run(events, max), e, max)
  {
    assert (events + [e])[..|events|] == events;
  }

  /** Over every interleaving of connects, deliveries, completions and closes. */
  lemma {:induction false} QueueIsFaithful(events: seq<Event>, max: int)
    ensures Faithful(Run(events, max), max)
    decreases |events|
  {
    if events != [] {
      QueueIsFaithful(events[..|events| - 1], max);
      StepKeeps(Run(events[..|events| - 1], max), events[|events| - 1], max);
    }
  }

  /** A packet delivered now is taken in. */
  predicate HasRoom(st: State, max: int) {
    st.connected && |st.queue| < max
  }

  /** What each event does to the queue, after any run. Only a delivery that meets
      a connected session with room takes its packet in, last, and a full queue
      closes the session; only the completion of a write takes one out, the front,
      and goes on with the next. */
  lemma {:induction false} EventMeans(events: seq<Event>, e: Event, max: int)
    ensures var st, end := Run(events, max), Run(events + [e], max);
            && (e.Deliver? && st.connected && |st.queue| < max ==>
                  && end.accepted == st.accepted + [e.packet] && end.queue == st.queue + [e.packet]
                  && end.connected && end.written == st.written)
            && (!(e.Deliver? && st.connected && |st.queue| < max) ==> end.accepted == st.accepted)
            && (e.Deliver? && st.connected && |st.queue| >= max ==> !end.connected && end.queue == st.queue)
            && (e.WriteDone? && st.outstanding != [] ==>
                  && st.queue != [] && end.queue == st.queue[1..] && end.written == st.written + [st.queue[0]]
                  && end.connected == st.connected
                  && (end.connected && end.queue != [] ==> end.outstanding == [end.queue[0]]))
            && (!(e.WriteDone? && st.outstanding != []) ==> end.written == st.written)
            && (e.Connect? ==> end.connected)
            && (e.Close? || (e.WriteFailed? && st.outstanding != []) ==> !end.connected)
  {
    QueueIsFaithful(events, max);
    ExecMore(events, e, max);
  }

  /** The packets delivered in a run, and those among them that met a connected
      session with room. */
  function Delivered(events: seq<Event>): seq<Bytes> {
    if events == [] then []
    else Delivered(events[..|events| - 1]) + PacketOf(events[|events| - 1])
  }

  function PacketOf(e: Event): seq<Bytes> {
    if e.Deliver? then [e.packet] else []
  }

  ghost function TakenIn(events: seq<Event>, max: int): seq<Bytes> {
    if events == [] then []
    else
      var init := events[..|events| - 1];
      TakenIn(init, max) + if HasRoom(Run(init, max), max) then PacketOf(events[|events| - 1]) else []
  }

  /** In every run, what went out followed by what is queued are exactly the
      packets that met a connected session with room, in the order of delivery. */
  lemma {:induction false} NothingElseIsLost(events: seq<Event>, max: int)
    ensures var st := Run(events, max); st.written + st.queue == TakenIn(events, max)
    decreases |events|
  {
    QueueIsFaithful(events, max);
    if events != [] {
      var init, e := events[..|events| - 1], events[|events| - 1];
      NothingElseIsLost(init, max);
      QueueIsFaithful(init, max);
      assert events == init + [e];
      EventMeans(init, e, max);
    }
  }

  /** Every delivery of the run meets a connected session with room. */
  ghost predicate AlwaysRoom(events: seq<Event>, max: int) {
    forall k :: 0 <= k < |events| && events[k].Deliver? ==> HasRoom(Run(events[..k], max), max)
  }

  /** Then all delivered packets are there. */
  lemma {:induction false} AllAreKept(events: seq<Event>, max: int)
    requires AlwaysRoom(events, max)
    ensures var st := Run(events, max); st.written + st.queue == Delivered(events)
    decreases |events|
  {
    NothingElseIsLost(events, max);
    if events != [] {
      var init, n := events[..|events| - 1], |events| - 1;
      assert forall k :: 0 <= k < n ==> init[k] == events[k] && init[..k] == events[..k];
      NothingElseIsLost(init, max);
      AllAreKept(init, max);
      assert events[n].Deliver? ==> HasRoom(Run(events[..n], max), max);
    }
  }

  /** The two branches that leave packets behind with no write outstanding: a
      failed write, and a completion that finds the session closed and more
      packets queued. */
  predicate Breaks(st: State, e: Event) {
    && st.outstanding != []
    && (e.WriteFailed? || (e.WriteDone? && !st.connected && |st.queue| >= 2))
  }

  ghost predicate Broken(events: seq<Event>, max: int) {
    events != []
    && (|| Broken(events[..|events| - 1], max)
        || Breaks(Run(events[..|events| - 1], max), events[|events| - 1]))
  }

  /** A run is broken exactly when packets are left behind. */
  lemma {:induction false} BrokenIff(events: seq<Event>, max: int)
    ensures var st := Run(events, max);
            Broken(events, max) <==> st.queue != [] && st.outstanding == []
    decreases |events|
  {
    if events != [] {
      var init := events[..|events| - 1];
      BrokenIff(init, max);
      QueueIsFaithful(init, max);
    }
  }

  /** Exactly when a queue stands still: a break came before, and the session has
      connected again. */
  lemma MovingIff(events: seq<Event>, max: int)
    ensures Moving(Run(events, max)) <==> !(Broken(events, max) && Run(events, max).connected)
  {
    BrokenIff(events, max);
  }

  ghost predicate ConnectsOnce(events: seq<Event>) {
    forall i, j :: 0 <= i < j < |events| ==> !(events[i].Connect? && events[j].Connect?)
  }

  /** A session that connects at most once never stands still, whatever is
      delivered or closed before. */
  lemma {:induction false} OnceConnectedMoves(events: seq<Event>, max: int)
    requires ConnectsOnce(events)
    ensures Moving(Run(events, max))
    ensures Broken(events, max) ==> !Run(events, max).connected
    ensures Run(events, max) != INITIAL ==> exists i :: 0 <= i < |events| && events[i].Connect?
    decreases |events|
  {
    if events != [] {
      var init := events[..|events| - 1];
      assert forall i :: 0 <= i < |init| ==> init[i] == events[i];
      OnceConnectedMoves(init, max);
      if exists i :: 0 <= i < |init| && init[i].Connect? {
        var i :| 0 <= i < |init| && init[i].Connect?;
        assert events[i].Connect?;
      } else if events[|events| - 1].Connect? {
        assert !Broken(init, max) by { BrokenIff(init, max); }
      }
      MovingIff(events, max);
    }
  }

  /** Once packets are left behind nothing is ever written again: deliveries only
      start a write on an empty queue. */
  lemma {:induction false} StuckForever(st: State, events: seq<Event>, max: int)
    requires st.queue != [] && st.outstanding == []
    ensures var end := Exec(st, events, max);
            end.outstanding == [] && end.written == st.written && st.queue <= end.queue
    decreases |events|
  {
    if events != [] {
      StuckForever(st, events[..|events| - 1], max);
    }
  }

  /** It happens: the write of the only packet fails and the client connects
      again on the same session. */
  lemma {:induction false} StuckWitness(p: Bytes, max: int)
    requires max >= 1
    ensures var events := [Connect, Deliver(p), WriteFailed, Connect];
            !Moving(Run(events, max)) && Run(events, max).queue == [p]
  {
    var e2 := Deliver(p);
    ExecMore([], Connect, max);
    assert [] + [Connect] == [Connect];
    assert Run([Connect], max) == INITIAL.(connected := true);
    ExecMore([Connect], e2, max);
    assert [Connect] + [e2] == [Connect, e2];
    assert Run([Connect, e2], max).outstanding == [p];
    ExecMore([Connect, e2], WriteFailed, max);
    assert [Connect, e2] + [WriteFailed] == [Connect, e2, WriteFailed];
    ExecMore([Connect, e2, WriteFailed], Connect, max);
    assert [Connect, e2, WriteFailed] + [Connect] == [Connect, e2, WriteFailed, Connect];
  }

  class WriteQueue {
    const maxQueue: int
    var connected: bool
    var queue: seq<Bytes>
    var writing: bool
    /** What `async_write` has been given and has not completed. */
    var outstanding: seq<Bytes>
    ghost var accepted: seq<Bytes>
    ghost var written: seq<Bytes>

    ghost function Now(): State
      reads this
    {
      State(connected, queue, writing, outstanding, accepted, written)
    }

    ghost predicate Valid()
      reads this
    {
      Faithful(Now(), maxQueue)
    }

    constructor (maxQueue: int)
      ensures Valid() && Now() == INITIAL && this.maxQueue == maxQueue
    {
      this.maxQueue := maxQueue;
      connected, queue, writing := false, [], false;
      outstanding, accepted, written := [], [], [];
    }

    /** The accepting end of `handle_connect`. */
    method SetConnected()
      requires Valid()
      modifies this
      ensures Valid() && Now() == Next(old(Now()), Connect, maxQueue)
    {
      connected := true;
    }

    method DoWrite()
      modifies this
      ensures Now() == StartWrite(old(Now()))
    {
      if !connected || queue == [] {
        writing := false;
        return;
      }
      writing := true;
      outstanding := outstanding + [queue[0]];
    }

    method Deliver(packet: Bytes)
      requires Valid()
      modifies this
      ensures Valid() && Now() == Next(old(Now()), Event.Deliver(packet), maxQueue)
    {
      StepKeeps(Now(), Event.Deliver(packet), maxQueue);
      if !connected { return; }
      if |queue| >= maxQueue {
        connected := false;
        return;
      }
      var wasEmpty := queue == [];
      queue, accepted := queue + [packet], accepted + [packet];
      if wasEmpty {
        DoWrite();
      }
    }

    /** The completion handler of `async_write`. */
    method OnWritten(failed: bool)
      requires Valid() && outstanding != []
      modifies this
      ensures Valid() && Now() == Next(old(Now()), if failed then WriteFailed else WriteDone, maxQueue)
    {
      StepKeeps(Now(), if failed then WriteFailed else WriteDone, maxQueue);
      written := if failed then written else written + [outstanding[0]];
      outstanding := outstanding[1..];
      if failed {
        connected := false;
        return;
      }
      queue := queue[1..];
      DoWrite();
    }
  }
}
