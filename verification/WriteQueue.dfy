// The write side of one WebSocket session: handlers posted to its strand, the
// write queue they fill, the one asynchronous write in flight, and the
// graceful close that a kick asks for. One event is one handler.

module WriteQueue {
  import opened Prelude
  import opened Runs
  import opened JsBits
  import opened Frames

  type Message = seq<Byte>

  const CMD_LOGOUT_RESP := 0x1006

  /** "Kicked by new login" */
  const KICK_BODY: seq<Byte> :=
    [75, 105, 99, 107, 101, 100, 32, 98, 121, 32, 110, 101, 119, 32, 108, 111, 103, 105, 110]

  function KickPacket(): Message {
    Frame(Packet(CMD_LOGOUT_RESP, KICK_BODY))
  }

  /** Magic, version 1, command 0x1006, length 19, and the reason. */
  lemma KickPacketBytes()
    ensures KickPacket() == [0x49, 0x4D, 1, 0x10, 0x06, 0, 0, 0, 19]
      + [75, 105, 99, 107, 101, 100, 32, 98, 121, 32, 110, 101, 119, 32, 108, 111, 103, 105, 110]
  {
  }

  datatype Handler = SendHandler(msg: Message) | KickHandler

  function MessageOf(h: Handler): Message {
    if h.SendHandler? then h.msg else KickPacket()
  }

  function MessagesOf(hs: seq<Handler>): seq<Message> {
    if hs == [] then [] else MessagesOf(hs[..|hs| - 1]) + [MessageOf(hs[|hs| - 1])]
  }

  /** The fields of a session, and the history its claims are about: everything posted, everything
      pushed on the queue, everything whose write completed (with or without an error), whether some
      write failed, where the first kick packet was pushed and where the first Close was issued. */
  datatype State = State(
    strand: seq<Handler>,
    queue: seq<Message>,
    isWriting: bool,
    closeAfterWrite: bool,
    inFlight: Option<Message>,
    posted: seq<Message>,
    pushed: seq<Message>,
    completed: seq<Message>,
    failed: bool,
    stalled: bool,
    kickAt: Option<nat>,
    closedAt: Option<nat>,
    closes: nat)

  const START := State([], [], false, false, None, [], [], [], false, false, None, None, 0)

  datatype Event = Post(h: Handler) | Run | Complete(ok: bool)

  function AfterDoWrite(s: State): State {
    if s.isWriting || s.queue == [] then s
    else s.(isWriting := true, inFlight := Some(s.queue[0]), stalled := false)
  }

  function AfterPost(s: State, h: Handler): State {
    s.(strand := s.strand + [h], posted := s.posted + [MessageOf(h)])
  }

  function AfterRun(s: State): State
    requires s.strand != []
  {
    var m := MessageOf(s.strand[0]);
    var kick := s.strand[0].KickHandler?;
    AfterDoWrite(s.(strand := s.strand[1..], queue := s.queue + [m], pushed := s.pushed + [m],
               closeAfterWrite := s.closeAfterWrite || kick,
               kickAt := if kick && s.kickAt.None? then Some(|s.pushed|) else s.kickAt))
  }

  function AfterComplete(s: State, ok: bool): State
    requires s.inFlight.Some?
  {
    var rest := if s.queue != [] then s.queue[1..] else [];
    var t := s.(queue := rest, isWriting := false, inFlight := None,
                completed := s.completed + [s.inFlight.value], failed := s.failed || !ok);
    if rest != [] then (if ok then AfterDoWrite(t) else t.(stalled := true))
    else if t.closeAfterWrite then
      t.(closes := t.closes + 1, closedAt := if t.closedAt.None? then Some(|t.completed|) else t.closedAt)
    else t
  }

  predicate Enabled(s: State, e: Event) {
    match e
    case Post(_) => true
    case Run => s.strand != []
    case Complete(_) => s.inFlight.Some?
  }

  function Apply(s: State, e: Event): State
    requires Enabled(s, e)
  {
    match e
    case Post(h) => AfterPost(s, h)
    case Run => AfterRun(s)
    case Complete(ok) => AfterComplete(s, ok)
  }

  function Next(s: State, e: Event): Option<State> {
    if Enabled(s, e) then Some(Apply(s, e)) else None
  }

  ghost predicate Reachable(s: State) {
    Reaches(Next, START, s)
  }

  // ----- what every run keeps -----

  /** The one write in flight is the front of the queue. */
  ghost predicate WriteOk(s: State) {
    (s.isWriting <==> s.inFlight.Some?)
    && (s.inFlight.Some? ==> s.queue != [] && s.inFlight.value == s.queue[0])
    && (s.queue != [] ==> s.isWriting || s.stalled)
    && (s.stalled ==> s.failed)
  }

  /** Nothing is lost, duplicated or reordered between the posting and the wire. */
  ghost predicate OrderOk(s: State) {
    s.posted == s.pushed + MessagesOf(s.strand) && s.pushed == s.completed + s.queue
  }

  ghost predicate KickOk(s: State) {
    (s.closeAfterWrite <==> s.kickAt.Some?)
    && (s.kickAt.Some? ==> s.kickAt.value < |s.pushed| && s.pushed[s.kickAt.value] == KickPacket())
    && (s.closedAt.Some? <==> s.closes > 0)
    && (s.closedAt.Some? ==> s.kickAt.Some? && s.kickAt.value < s.closedAt.value <= |s.completed|)
  }

  ghost predicate Inv(s: State) {
    WriteOk(s) && OrderOk(s) && KickOk(s)
  }

  lemma {:induction false} MessagesCons(hs: seq<Handler>)
    requires hs != []
    ensures MessagesOf(hs) == [MessageOf(hs[0])] + MessagesOf(hs[1..])
    decreases |hs|
  {
    hide MessageOf;
    var n := |hs| - 1;
    if n == 0 {
      assert MessagesOf(hs[..0]) == [] == MessagesOf(hs[1..]);
    } else {
      MessagesCons(hs[..n]);
      assert hs[..n][1..] == hs[1..][..n - 1];
      assert hs[1..][n - 1] == hs[n];
    }
  }

  lemma RunKept(s: State)
    requires Inv(s) && s.strand != []
    ensures Inv(AfterRun(s))
  {
    hide KickPacket;
    MessagesCons(s.strand);
    var m := MessageOf(s.strand[0]);
    assert s.pushed + ([m] + MessagesOf(s.strand[1..])) == (s.pushed + [m]) + MessagesOf(s.strand[1..]);
    assert s.completed + (s.queue + [m]) == (s.completed + s.queue) + [m];
  }

  lemma CompleteKept(s: State, ok: bool)
    requires Inv(s) && s.inFlight.Some?
    ensures Inv(AfterComplete(s, ok))
  {
    hide KickPacket, MessagesOf;
    assert s.queue == [s.queue[0]] + s.queue[1..];
    assert s.completed + ([s.queue[0]] + s.queue[1..]) == (s.completed + [s.queue[0]]) + s.queue[1..];
  }

  lemma InvKept(s: State, e: Event)
    requires Inv(s) && Enabled(s, e)
    ensures Inv(Apply(s, e))
  {
    hide AfterRun, AfterComplete, KickPacket, MessageOf;
    match e {
      case Post(h) =>
        assert (s.strand + [h])[..|s.strand|] == s.strand;
        assert s.pushed + (MessagesOf(s.strand) + [MessageOf(h)]) == (s.pushed + MessagesOf(s.strand)) + [MessageOf(h)];
      case Run => RunKept(s);
      case Complete(ok) => CompleteKept(s, ok);
    }
  }

  lemma InvKeeps()
    ensures Keeps(Next, Inv)
  {
    forall s: State, e | Inv(s) && Next(s, e).Some? ensures Inv(Next(s, e).value) {
      InvKept(s, e);
      hide Inv, Enabled, Apply;
    }
  }

  lemma ReachableInv(s: State)
    requires Reachable(s)
    ensures Inv(s)
  {
    InvKeeps();
    hide Next;
    ReachesKeeps(Next, Inv, START, s);
  }

  // ----- the theorems, over every run -----

  /** Messages leave in the order they were posted, one write at a time; without write errors a
      non-empty queue always has its front in flight. */
  lemma QueueRefinement(s: State)
    requires Reachable(s)
    ensures s.posted == s.completed + s.queue + MessagesOf(s.strand)
    ensures s.inFlight.Some? ==> s.queue != [] && s.inFlight.value == s.queue[0]
    ensures !s.failed ==> (s.queue != [] <==> s.inFlight.Some?)
  {
    ReachableInv(s);
  }

  /** A queue stands still only after a failed write, until the next handler runs. */
  lemma NoStall(s: State)
    requires Reachable(s)
    ensures s.queue != [] && s.inFlight.None? ==> s.stalled && s.failed
    ensures s.strand != [] ==> AfterRun(s).inFlight.Some?
  {
    ReachableInv(s);
  }

  /** When Close has been issued, the first kick packet and everything pushed before it had completed. */
  lemma KickBeforeClose(s: State)
    requires Reachable(s) && s.closes > 0
    ensures s.kickAt.Some? && s.closedAt.Some? && s.kickAt.value < s.closedAt.value <= |s.completed|
    ensures s.completed <= s.pushed && s.completed[s.kickAt.value] == KickPacket()
  {
    ReachableInv(s);
  }

  /** The first kick was, or will be, pushed as message number p of the session. */
  ghost predicate FirstKickIs(s: State, p: nat) {
    match s.kickAt
    case Some(k) => k == p
    case None => |s.pushed| <= p < |s.pushed| + |s.strand| && FirstKickHandler(s.strand, p - |s.pushed|)
  }

  ghost predicate FirstKickHandler(hs: seq<Handler>, n: nat)
    requires n < |hs|
  {
    hs[n].KickHandler? && forall i | 0 <= i < n :: hs[i].SendHandler?
  }

  lemma FirstKickKept(s: State, e: Event, p: nat)
    requires Enabled(s, e) && FirstKickIs(s, p)
    ensures FirstKickIs(Apply(s, e), p) && s.posted <= Apply(s, e).posted
  {
    hide MessageOf;
  }

  /** Holds on from the first kick: where its packet stands, and what had been posted by then. */
  ghost predicate Kicking(s: State, p: nat, posted: seq<Message>) {
    Inv(s) && FirstKickIs(s, p) && posted <= s.posted
  }

  lemma KickingKeeps(p: nat, posted: seq<Message>)
    ensures Keeps(Next, s => Kicking(s, p, posted))
  {
    forall s: State, e | Kicking(s, p, posted) && Next(s, e).Some? ensures Kicking(Next(s, e).value, p, posted) {
      InvKept(s, e);
      FirstKickKept(s, e, p);
      hide Inv, FirstKickIs, Enabled, Apply;
    }
  }

  ghost predicate NotKicked(s: State) {
    s.kickAt.None? && forall h <- s.strand :: h.SendHandler?
  }

  /** However the session goes on from `now`: by the time Close is issued, everything posted before
      `before` and then the kick packet have completed, in order. */
  ghost predicate ClosesGracefully(before: State, now: State) {
    forall es, t :: Exec(Next, now, es) == Some(t) && t.closes > 0 ==> before.posted + [KickPacket()] <= t.completed
  }

  /** A graceful kick, end to end. */
  lemma GracefulKick(s: State)
    requires Reachable(s) && NotKicked(s)
    ensures ClosesGracefully(s, AfterPost(s, KickHandler))
  {
    ReachableInv(s);
    var kicked, p := AfterPost(s, KickHandler), |s.posted|;
    MessagesLength(s.strand);
    InvKept(s, Post(KickHandler));
    assert Kicking(kicked, p, kicked.posted);
    KickingKeeps(p, kicked.posted);
    hide Exec, KickPacket, Next, NotKicked;
    forall es, t | Exec(Next, kicked, es) == Some(t) && t.closes > 0 ensures s.posted + [KickPacket()] <= t.completed {
      Always(Next, s => Kicking(s, p, kicked.posted), kicked, es);
      KickedAndClosed(s, t);
    }
  }

  lemma KickedAndClosed(s: State, t: State)
    requires Kicking(t, |s.posted|, s.posted + [KickPacket()]) && t.closes > 0
    ensures s.posted + [KickPacket()] <= t.completed
  {
    hide KickPacket, MessagesOf;
    assert t.completed <= t.posted && |s.posted| < |t.completed|;
  }

  lemma {:induction false} MessagesLength(hs: seq<Handler>)
    ensures |MessagesOf(hs)| == |hs|
  {
    if hs != [] {
      MessagesLength(hs[..|hs| - 1]);
    }
  }

  function Completions(n: nat): seq<Event> {
    if n == 0 then [] else [Complete(true)] + Completions(n - 1)
  }

  /** A kicked session to which nothing more is sent: Close comes with the last of exactly as many
      completions as the queue was long, and not before. */
  lemma {:induction false} CloseAfterDrain(s: State, n: nat)
    requires Inv(s) && s.closeAfterWrite && s.inFlight.Some? && s.strand == [] && n <= |s.queue|
    ensures Exec(Next, s, Completions(n)).Some?
    ensures var t := Exec(Next, s, Completions(n)).value;
      t.queue == s.queue[n..] && t.completed == s.completed + s.queue[..n]
      && t.closes == s.closes + if n == |s.queue| then 1 else 0
    decreases n
  {
    if n > 0 {
      OneCompletion(s);
      DrainSplit(s.queue, n);
      hide Inv, AfterComplete;
      var t := AfterComplete(s, true);
      assert Completions(n)[1..] == Completions(n - 1);
      assert Exec(Next, s, Completions(n)) == Exec(Next, t, Completions(n - 1));
      if t.queue != [] {
        CloseAfterDrain(t, n - 1);
        Splice(s.completed, s.queue, n);
      }
    }
  }

  lemma OneCompletion(s: State)
    requires Inv(s) && s.closeAfterWrite && s.inFlight.Some? && s.strand == []
    ensures var t := AfterComplete(s, true);
      Inv(t) && t.closeAfterWrite && t.strand == [] && t.queue == s.queue[1..]
      && t.completed == s.completed + [s.queue[0]]
      && (t.queue != [] ==> t.inFlight.Some?)
      && t.closes == s.closes + if t.queue == [] then 1 else 0
  {
    CompleteKept(s, true);
    hide OrderOk, KickOk;
  }

  lemma Splice(done: seq<Message>, q: seq<Message>, n: nat)
    requires 0 < n <= |q|
    ensures (done + [q[0]]) + q[1..][..n - 1] == done + q[..n]
  {
    DrainSplit(q, n);
  }

  lemma DrainSplit(q: seq<Message>, n: nat)
    requires 0 < n <= |q|
    ensures q[1..][n - 1..] == q[n..] && [q[0]] + q[1..][..n - 1] == q[..n]
  {
  }

  lemma Onward(s: State, e: Event)
    requires Reachable(s) && Enabled(s, e)
    ensures Reachable(Apply(s, e))
  {
    hide Enabled, Apply;
    ReachesStep(Next, START, s, e);
  }

  // ----- the session -----

  class WebsocketSession {
    const device: string
    var strand: seq<Handler>
    var writeQueue: seq<Message>
    var isWriting: bool
    var closeAfterWrite: bool
    ghost var history: State

    constructor (device: string)
      ensures this.device == device && Valid() && history == START
    {
      this.device := device;
      strand, writeQueue, isWriting, closeAfterWrite := [], [], false, false;
      history := START;
      new;
      ReachesItself(Next, START);
    }

    /** The fields are those of the run so far. */
    ghost predicate Mirrors()
      reads this
    {
      history.strand == strand && history.queue == writeQueue && history.isWriting == isWriting
      && history.closeAfterWrite == closeAfterWrite
    }

    ghost predicate Valid()
      reads this
    {
      Mirrors() && Reachable(history)
    }

    method DoWrite()
      requires Mirrors()
      modifies this`isWriting, this`history
      ensures Mirrors() && history == AfterDoWrite(old(history))
      ensures isWriting <==> old(isWriting) || writeQueue != []
      ensures history.inFlight == if !old(isWriting) && writeQueue != [] then Some(writeQueue[0]) else old(history.inFlight)
    {
      if isWriting || writeQueue == [] {
        return;
      }
      isWriting := true;
      history := history.(isWriting := true, inFlight := Some(writeQueue[0]), stalled := false);
    }

    /** Send and Kick only post. */
    method Post(h: Handler)
      requires Valid()
      modifies this`strand, this`history
      ensures Valid() && history == AfterPost(old(history), h)
      ensures strand == old(strand) + [h]
    {
      Onward(history, Event.Post(h));
      hide Reachable;
      strand := strand + [h];
      history := AfterPost(history, h);
    }

    method Send(msg: Message)
      requires Valid()
      modifies this`strand, this`history
      ensures Valid() && history == AfterPost(old(history), SendHandler(msg))
      ensures strand == old(strand) + [SendHandler(msg)]
    {
      Post(SendHandler(msg));
    }

    method SendPacket(cmd: nat, body: seq<Byte>)
      requires Valid()
      modifies this`strand, this`history
      ensures Valid() && history == AfterPost(old(history), SendHandler(Frame(Packet(cmd, body))))
      ensures strand == old(strand) + [SendHandler(Frame(Packet(cmd, body)))]
    {
      var packet := Frames.SendPacket(cmd, body);
      Send(packet[..]);
    }

    method Kick()
      requires Valid()
      modifies this`strand, this`history
      ensures Valid() && history == AfterPost(old(history), KickHandler)
      ensures strand == old(strand) + [KickHandler]
    {
      Post(KickHandler);
    }

    /** The strand runs its oldest handler. */
    method RunHandler()
      requires Valid() && strand != []
      modifies this
      ensures Valid() && history == AfterRun(old(history))
      ensures strand == old(strand)[1..]
      ensures old(strand)[0].SendHandler? ==>
        writeQueue == old(writeQueue) + [old(strand)[0].msg] && closeAfterWrite == old(closeAfterWrite)
      ensures old(strand)[0].KickHandler? ==>
        writeQueue == old(writeQueue) + [Frame(Packet(0x1006, KICK_BODY))] && closeAfterWrite
      ensures isWriting && history.inFlight == if old(isWriting) then old(history.inFlight) else Some(writeQueue[0])
    {
      Onward(history, Run);
      ghost var h0 := history;
      hide Reachable;
      var h := strand[0];
      strand := strand[1..];
      if h.SendHandler? {
        writeQueue := writeQueue + [h.msg];
      } else {
        var packet := Frames.SendPacket(CMD_LOGOUT_RESP, KICK_BODY);
        writeQueue := writeQueue + [packet[..]];
        closeAfterWrite := true;
      }
      history := h0.(strand := strand, queue := writeQueue, pushed := h0.pushed + [MessageOf(h)],
        closeAfterWrite := closeAfterWrite,
        kickAt := if h.KickHandler? && h0.kickAt.None? then Some(|h0.pushed|) else h0.kickAt);
      DoWrite();
    }

    /** The completion of the write in flight; `closed` says whether it issued Close. */
    method OnWrite(ok: bool) returns (closed: bool)
      requires Valid() && history.inFlight.Some?
      modifies this
      ensures Valid() && history == AfterComplete(old(history), ok)
      ensures old(writeQueue) != [] && writeQueue == old(writeQueue)[1..]
      ensures strand == old(strand) && closeAfterWrite == old(closeAfterWrite)
      ensures history.completed == old(history.completed) + [old(writeQueue)[0]]
      ensures isWriting <==> ok && writeQueue != []
      ensures history.inFlight == if ok && writeQueue != [] then Some(writeQueue[0]) else None
      ensures closed <==> history.closes == old(history.closes) + 1
      ensures closed <==> writeQueue == [] && closeAfterWrite
    {
      Onward(history, Complete(ok));
      ReachableInv(history);
      ghost var after := AfterComplete(history, ok);
      ghost var h0 := history;
      hide Reachable, OrderOk, KickOk;
      if writeQueue != [] {
        writeQueue := writeQueue[1..];
      }
      isWriting := false;
      closed := false;
      history := h0.(queue := writeQueue, isWriting := false, inFlight := None,
        completed := h0.completed + [h0.inFlight.value], failed := h0.failed || !ok);
      if writeQueue != [] && ok {
        DoWrite();
      } else if writeQueue == [] && closeAfterWrite {
        closed := true;
        history := after;
      } else {
        history := after;
      }
    }
  }
}
