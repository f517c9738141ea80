// The packet framing shared by the gateway and the web client: a packed 9-byte
// header (magic, version, big-endian command, big-endian body length), the
// gateway's consuming read loop, and both sides' frame builders.

module Frames {
  import opened Arith
  import opened JsBits
  import opened Varint

  datatype Packet = Packet(cmd: nat, body: seq<Byte>)

  const HEADER_LEN := 9
  const TWO_16 := 0x1_0000

  // ----- big-endian integers -----

  /** The low 16 (32) bits of v, most significant byte first. */
  function Be16(v: nat): seq<Byte> {
    [v / 0x100 % 0x100, v % 0x100]
  }

  function Be32(v: nat): seq<Byte> {
    [v / 0x100_0000 % 0x100, v / 0x1_0000 % 0x100, v / 0x100 % 0x100, v % 0x100]
  }

  function FromBe16(s: seq<Byte>): nat
    requires |s| == 2
  {
    var hi: int := s[0];
    hi * 0x100 + s[1]
  }

  function FromBe32(s: seq<Byte>): nat
    requires |s| == 4
  {
    0x1_0000 * FromBe16(s[..2]) + FromBe16(s[2..])
  }

  lemma Be16Truncates(v: nat)
    ensures FromBe16(Be16(v)) == v % TWO_16
  {
  }

  lemma Be32Truncates(v: nat)
    ensures FromBe32(Be32(v)) == v % TWO_32
  {
    var a, b, c := v / 0x100, v / 0x1_0000, v / 0x100_0000;
    assert b == a / 0x100 && c == b / 0x100;
    assert c % 0x100 * 0x100_0000 == (c - c / 0x100 * 0x100) * 0x100_0000;
    assert v == c / 0x100 * TWO_32 + FromBe32(Be32(v));
    DivModUnique(v, TWO_32, c / 0x100, FromBe32(Be32(v)));
  }

  // ----- frames -----

  function HeaderBytes(cmd: nat, bodyLen: nat): (r: seq<Byte>)
    ensures |r| == HEADER_LEN
  {
    [0x49, 0x4D, 1] + Be16(cmd) + Be32(bodyLen)
  }

  function Frame(p: Packet): (r: seq<Byte>)
    ensures |r| == HEADER_LEN + |p.body|
  {
    HeaderBytes(p.cmd, |p.body|) + p.body
  }

  function FrameAll(ps: seq<Packet>): seq<Byte> {
    if ps == [] then [] else Frame(ps[0]) + FrameAll(ps[1..])
  }

  function MagicOk(s: seq<Byte>): bool
    requires |s| >= HEADER_LEN
  {
    s[0] == 0x49 && s[1] == 0x4D
  }

  function CmdOf(s: seq<Byte>): nat
    requires |s| >= HEADER_LEN
  {
    FromBe16(s[3..5])
  }

  function BodyLenOf(s: seq<Byte>): nat
    requires |s| >= HEADER_LEN
  {
    FromBe32(s[5..9])
  }

  /** A frame's header says its command and length, as far as the fields can. */
  lemma HeaderOfFrame(p: Packet, s: seq<Byte>)
    requires |s| >= HEADER_LEN && s[..HEADER_LEN] == HeaderBytes(p.cmd, |p.body|)
    ensures MagicOk(s) && s[2] == 1 && CmdOf(s) == p.cmd % TWO_16 && BodyLenOf(s) == |p.body| % TWO_32
  {
    var h := HeaderBytes(p.cmd, |p.body|);
    assert forall i | 0 <= i < HEADER_LEN :: s[i] == h[i];
    assert s[3..5] == Be16(p.cmd);
    assert s[5..9] == Be32(|p.body|);
    Be16Truncates(p.cmd);
    Be32Truncates(|p.body|);
  }

  /** A frame byte by byte: the two magic bytes, version 1, the command and the body's length with the
      most significant byte first, and the body. */
  lemma FrameBytes(p: Packet)
    requires p.cmd < TWO_16 && |p.body| < TWO_32
    ensures var s := Frame(p);
      |s| == 9 + |p.body| && s[0] == 0x49 && s[1] == 0x4D && s[2] == 1 && s[9..] == p.body
    ensures var s := Frame(p); 0x100 * s[3] as int + s[4] as int == p.cmd
    ensures var s := Frame(p);
      0x100_0000 * s[5] as int + 0x1_0000 * s[6] as int + 0x100 * s[7] as int + s[8] as int == |p.body|
  {
    var s := Frame(p);
    HeaderOfFrame(p, s + []);
    assert s + [] == s;
    var cmd, len := s[3..5], s[5..9];
    assert cmd[0] == s[3] && cmd[1] == s[4];
    assert len[..2] == [s[5], s[6]] && len[2..] == [s[7], s[8]];
  }

  /** The gateway's SendPacket: header then body copied into a fresh string. */
  method SendPacket(cmd: nat, body: seq<Byte>) returns (packet: array<Byte>)
    ensures fresh(packet) && packet[..] == Frame(Packet(cmd, body))
  {
    var header := HeaderBytes(cmd, |body|);
    packet := new Byte[HEADER_LEN + |body|];
    CopyInto(packet, 0, header);
    if body != [] {
      CopyInto(packet, HEADER_LEN, body);
    }
    assert packet[..] == packet[..HEADER_LEN] + packet[HEADER_LEN..];
  }

  /** The client's buildMessage: the header written field by field into an ArrayBuffer. */
  method BuildMessage(cmd: nat, body: seq<Byte>) returns (buffer: array<Byte>)
    ensures fresh(buffer) && buffer[..] == Frame(Packet(cmd, body))
  {
    buffer := new Byte[HEADER_LEN + |body|];
    buffer[0] := 0x49;
    buffer[1] := 0x4D;
    buffer[2] := 1;
    CopyInto(buffer, 3, Be16(cmd));
    CopyInto(buffer, 5, Be32(|body|));
    CopyInto(buffer, HEADER_LEN, body);
    assert buffer[..9] == buffer[..3] + buffer[3..5] + buffer[5..9];
    assert buffer[..] == buffer[..9] + buffer[9..];
  }

  method CopyInto(a: array<Byte>, at: nat, s: seq<Byte>)
    requires at + |s| <= a.Length
    modifies a
    ensures a[at..at + |s|] == s
    ensures forall i | 0 <= i < a.Length && !(at <= i < at + |s|) :: a[i] == old(a[i])
  {
    for k := 0 to |s|
      invariant forall i | 0 <= i < k :: a[at + i] == s[i]
      invariant forall i | 0 <= i < a.Length && !(at <= i < at + k) :: a[i] == old(a[i])
    {
      a[at + k] := s[k];
    }
  }

  datatype Header = Header(magic: seq<Byte>, version: Byte, cmd: nat, length: nat)

  /** The client's parseMessage: one whole WebSocket message, magic and length unchecked. */
  function ParseMessage(data: seq<Byte>): (r: Result<(Header, seq<Byte>)>)
    ensures r.Throws? <==> |data| < HEADER_LEN
  {
    if |data| < HEADER_LEN then Throws(MessageTooShort)
    else Ok((Header(data[..2], data[2], CmdOf(data), BodyLenOf(data)), data[9..]))
  }

  // ----- the gateway's read loop -----

  datatype Parsed = Parsed(packets: seq<Packet>, rest: seq<Byte>, closed: bool)

  predicate BadMagic(s: seq<Byte>) {
    |s| >= HEADER_LEN && !MagicOk(s)
  }

  predicate HasFrame(s: seq<Byte>) {
    |s| >= HEADER_LEN && MagicOk(s) && |s| >= HEADER_LEN + BodyLenOf(s)
  }

  function First(s: seq<Byte>): Packet
    requires HasFrame(s)
  {
    Packet(CmdOf(s), s[HEADER_LEN..HEADER_LEN + BodyLenOf(s)])
  }

  function Consume(s: seq<Byte>): (r: seq<Byte>)
    requires HasFrame(s)
    ensures |r| == |s| - HEADER_LEN - |First(s).body|
  {
    s[HEADER_LEN + BodyLenOf(s)..]
  }

  /** What the loop takes off the front of a buffer, and what it leaves. */
  function Drain(s: seq<Byte>): (r: Parsed)
    decreases |s|
  {
    if HasFrame(s) then
      var r := Drain(Consume(s));
      r.(packets := [First(s)] + r.packets)
    else Parsed([], s, BadMagic(s))
  }

  /** Reads are only issued while the session is open. */
  function Feed(p: Parsed, chunks: seq<seq<Byte>>): Parsed
    decreases |chunks|
  {
    if p.closed || chunks == [] then p
    else
      var r := Drain(p.rest + chunks[0]);
      Feed(Parsed(p.packets + r.packets, r.rest, r.closed), chunks[1..])
  }

  function Flatten(chunks: seq<seq<Byte>>): seq<Byte> {
    if chunks == [] then [] else chunks[0] + Flatten(chunks[1..])
  }

  class FrameReader {
    var buffer: seq<Byte>
    var closed: bool
    var packets: seq<Packet>  // dispatched to the command handlers, in order

    constructor ()
      ensures buffer == [] && packets == [] && !closed
    {
      buffer, packets, closed := [], [], false;
    }

    function State(): Parsed
      reads this
    {
      Parsed(packets, buffer, closed)
    }

    /** One completed read. The session closes exactly when nine bytes are left over that do not start
        with the magic. */
    method OnRead(chunk: seq<Byte>)
      requires !closed
      modifies this
      ensures State() == Feed(old(State()), [chunk])
      ensures closed <==> |buffer| >= 9 && (buffer[0] != 0x49 || buffer[1] != 0x4D)
      ensures forall ps: seq<Packet>, tail |
        old(buffer) + chunk == FrameAll(ps) + tail && AllSendable(ps) && WrongMagic(tail) ::
        packets == old(packets) + ps && buffer == tail && closed
    {
      ghost var was, all := packets, buffer + chunk;
      buffer := buffer + chunk;
      ProcessLoop();
      LeftOver(all);
      hide Drain, FrameAll, WrongMagic, AllSendable;
      forall ps: seq<Packet>, tail | all == FrameAll(ps) + tail && AllSendable(ps) && WrongMagic(tail)
        ensures packets == was + ps && buffer == tail && closed
      {
        WrongMagicCloses(ps, tail);
      }
    }

    method ProcessLoop()
      requires !closed
      modifies this
      ensures var r := Drain(old(buffer)); packets == old(packets) + r.packets && buffer == r.rest && closed == r.closed
    {
      ghost var whole := Drain(buffer);
      while |buffer| >= HEADER_LEN
        invariant !closed
        invariant Parsed(old(packets) + whole.packets, whole.rest, whole.closed)
               == (var r := Drain(buffer); r.(packets := packets + r.packets))
        decreases |buffer|
      {
        hide MagicOk, First, Consume, BodyLenOf;
        if !MagicOk(buffer) {
          closed := true;
          break;
        }
        if |buffer| < HEADER_LEN + BodyLenOf(buffer) {
          break;
        }
        var first := First(buffer);
        assert packets + Drain(buffer).packets == (packets + [first]) + Drain(Consume(buffer)).packets;
        packets := packets + [first];
        buffer := Consume(buffer);
      }
      assert packets + [] == packets;
    }

    /** A whole stream, however the network cut it. */
    method ReadAll(chunks: seq<seq<Byte>>)
      requires !closed && buffer == [] && packets == []
      modifies this
      ensures packets == Drain(Flatten(chunks)).packets && closed == Drain(Flatten(chunks)).closed
      ensures !closed ==> buffer == Drain(Flatten(chunks)).rest
      ensures forall ps: seq<Packet>, tail |
        Flatten(chunks) == FrameAll(ps) + tail && AllSendable(ps) && WrongMagic(tail) :: packets == ps && closed
    {
      var i := 0;
      while i < |chunks| && !closed
        invariant 0 <= i <= |chunks|
        invariant Feed(State(), chunks[i..]) == Feed(old(State()), chunks)
      {
        OnRead(chunks[i]);
        assert chunks[i..][1..] == chunks[i + 1..];
        i := i + 1;
      }
      ChunkingIndependence(chunks);
      forall ps: seq<Packet>, tail | Flatten(chunks) == FrameAll(ps) + tail && AllSendable(ps) && WrongMagic(tail)
        ensures packets == ps && closed
      {
        WrongMagicCloses(ps, tail);
      }
    }
  }

  /** More input can only be seen once what is there has been drained. */
  lemma {:induction false} DrainAppend(a: seq<Byte>, b: seq<Byte>)
    ensures var r := Drain(a);
      if r.closed then Drain(a + b).closed && Drain(a + b).packets == r.packets
      else Drain(a + b) == (var q := Drain(r.rest + b); q.(packets := r.packets + q.packets))
    decreases |a|
  {
    AppendKeepsFirst(a, b);
    hide HasFrame, BadMagic, First, Consume;
    if HasFrame(a) {
      DrainAppend(Consume(a), b);
    }
  }

  lemma AppendKeepsFirst(a: seq<Byte>, b: seq<Byte>)
    ensures BadMagic(a) ==> BadMagic(a + b)
    ensures BadMagic(a) ==> !HasFrame(a + b) && !HasFrame(a)
    ensures HasFrame(a) ==> HasFrame(a + b) && First(a + b) == First(a) && Consume(a + b) == Consume(a) + b
  {
    if |a| >= HEADER_LEN {
      assert (a + b)[3..5] == a[3..5];
      assert (a + b)[5..9] == a[5..9];
      var n := BodyLenOf(a);
      if HasFrame(a) {
        hide FromBe32, FromBe16;
        assert (a + b)[HEADER_LEN..HEADER_LEN + n] == a[HEADER_LEN..HEADER_LEN + n];
        assert (a + b)[HEADER_LEN + n..] == a[HEADER_LEN + n..] + b;
      }
    }
  }

  lemma {:induction false} FeedIsDrain(seen: seq<Byte>, chunks: seq<seq<Byte>>)
    ensures var f, w := Feed(Drain(seen), chunks), Drain(seen + Flatten(chunks));
      f.packets == w.packets && f.closed == w.closed && (!w.closed ==> f.rest == w.rest)
    decreases |chunks|
  {
    if chunks == [] {
      assert seen + Flatten(chunks) == seen;
    } else {
      assert seen + Flatten(chunks) == (seen + chunks[0]) + Flatten(chunks[1..]);
      DrainAppend(seen, chunks[0]);
      if Drain(seen).closed {
        DrainAppend(seen, Flatten(chunks));
      } else {
        FeedIsDrain(seen + chunks[0], chunks[1..]);
      }
    }
  }

  /** However a stream is cut into reads, the session dispatches the same packets, closes or not
      alike, and if it stays open holds the same leftover. */
  lemma ChunkingIndependence(chunks: seq<seq<Byte>>)
    ensures var f, w := Feed(Parsed([], [], false), chunks), Drain(Flatten(chunks));
      f.packets == w.packets && f.closed == w.closed && (!w.closed ==> f.rest == w.rest)
  {
    FeedIsDrain([], chunks);
    assert [] + Flatten(chunks) == Flatten(chunks);
  }

  // ----- round trips -----

  ghost predicate Sendable(p: Packet) {
    p.cmd < TWO_16 && |p.body| < TWO_32
  }

  ghost predicate AllSendable(ps: seq<Packet>) {
    forall p <- ps :: p.cmd < TWO_16 && |p.body| < TWO_32
  }

  /** A header's worth of bytes that does not start with "IM". */
  ghost predicate WrongMagic(tail: seq<Byte>) {
    |tail| >= 9 && (tail[0] != 0x49 || tail[1] != 0x4D)
  }

  lemma FrameIsFirst(p: Packet, tail: seq<Byte>)
    requires Sendable(p)
    ensures var s := Frame(p) + tail; HasFrame(s) && First(s) == p && Consume(s) == tail
  {
    var s := Frame(p) + tail;
    FrameSlices(p, tail);
    HeaderOfFrame(p, s);
    FieldsFit(p);
    hide MagicOk, CmdOf, BodyLenOf, HeaderBytes, Frame, Sendable;
  }

  lemma FieldsFit(p: Packet)
    requires Sendable(p)
    ensures p.cmd % TWO_16 == p.cmd && |p.body| % TWO_32 == |p.body|
  {
  }

  lemma FrameSlices(p: Packet, tail: seq<Byte>)
    ensures var s := Frame(p) + tail;
      s[..HEADER_LEN] == HeaderBytes(p.cmd, |p.body|)
      && s[HEADER_LEN..HEADER_LEN + |p.body|] == p.body
      && s[HEADER_LEN + |p.body|..] == tail
  {
    hide HeaderBytes;
  }

  lemma DrainFrame(p: Packet, tail: seq<Byte>)
    requires Sendable(p)
    ensures Drain(Frame(p) + tail) == (var r := Drain(tail); r.(packets := [p] + r.packets))
  {
    FrameIsFirst(p, tail);
    hide Frame, HasFrame, First, Consume;
  }

  lemma PartialHasNoFrame(p: Packet, tail: seq<Byte>)
    requires Sendable(p) && tail < Frame(p)
    ensures !HasFrame(tail) && !BadMagic(tail)
  {
    if |tail| >= HEADER_LEN {
      hide MagicOk, CmdOf, BodyLenOf, HeaderBytes;
      assert tail[..HEADER_LEN] == Frame(p)[..HEADER_LEN];
      HeaderOfFrame(p, tail);
    }
  }

  /** A frame that has not fully arrived stays in the buffer untouched. */
  lemma DrainPartial(p: Packet, tail: seq<Byte>)
    requires Sendable(p) && tail < Frame(p)
    ensures Drain(tail) == Parsed([], tail, false)
  {
    PartialHasNoFrame(p, tail);
    hide Frame, HasFrame, BadMagic;
  }

  /** A stream of frames, even cut inside the next one, gives back the list and leaves the cut frame. */
  lemma {:induction false} StreamRoundTrip(ps: seq<Packet>, next: Packet, tail: seq<Byte>)
    requires (forall p <- ps :: Sendable(p)) && Sendable(next) && tail < Frame(next)
    ensures Drain(FrameAll(ps) + tail) == Parsed(ps, tail, false)
    decreases |ps|
  {
    hide Frame, Drain;
    if ps == [] {
      assert FrameAll(ps) + tail == tail;
      DrainPartial(next, tail);
    } else {
      StreamRoundTrip(ps[1..], next, tail);
      DrainFrame(ps[0], FrameAll(ps[1..]) + tail);
      assert FrameAll(ps) + tail == Frame(ps[0]) + (FrameAll(ps[1..]) + tail);
    }
  }

  /** Frames and then a wrong magic: the frames are dispatched and the session closes. */
  lemma {:induction false} WrongMagicCloses(ps: seq<Packet>, tail: seq<Byte>)
    requires AllSendable(ps) && WrongMagic(tail)
    ensures Drain(FrameAll(ps) + tail) == Parsed(ps, tail, true)
    decreases |ps|
  {
    if ps == [] {
      WrongMagicStops(tail);
      hide Drain;
      assert FrameAll(ps) + tail == tail;
    } else {
      FrameAllCons(ps, tail);
      AllButFirst(ps);
      hide *;
      WrongMagicCloses(ps[1..], tail);
      DrainFrame(ps[0], FrameAll(ps[1..]) + tail);
      assert [ps[0]] + ps[1..] == ps;
    }
  }

  lemma WrongMagicStops(tail: seq<Byte>)
    requires WrongMagic(tail)
    ensures Drain(tail) == Parsed([], tail, true)
  {
    hide First, Consume, BodyLenOf;
  }

  lemma FrameAllCons(ps: seq<Packet>, tail: seq<Byte>)
    requires ps != []
    ensures FrameAll(ps) + tail == Frame(ps[0]) + (FrameAll(ps[1..]) + tail)
  {
    hide Frame;
  }

  lemma AllButFirst(ps: seq<Packet>)
    requires AllSendable(ps) && ps != []
    ensures Sendable(ps[0]) && AllSendable(ps[1..])
  {
  }

  /** The loop closes on a wrong magic only; otherwise it stops for want of a header or of a body. */
  lemma {:induction false} LeftOver(s: seq<Byte>)
    ensures var r := Drain(s);
      (r.closed <==> |r.rest| >= 9 && (r.rest[0] != 0x49 || r.rest[1] != 0x4D))
      && (!r.closed ==> |r.rest| < 9 || |r.rest| < 9 + BodyLenOf(r.rest))
    decreases |s|
  {
    if HasFrame(s) {
      hide HasFrame, Consume, BodyLenOf;
      LeftOver(Consume(s));
    }
  }

  /** One frame comes back as itself exactly when its command fits 16 bits and its length 32. */
  lemma FrameExact(p: Packet)
    ensures Drain(Frame(p)) == Parsed([p], [], false) <==> Sendable(p)
  {
    var s := Frame(p);
    assert s + [] == s;
    if Sendable(p) {
      DrainFrame(p, []);
    } else {
      assert s[..HEADER_LEN] == HeaderBytes(p.cmd, |p.body|);
      HeaderOfFrame(p, s);
      hide Frame, MagicOk, CmdOf, BodyLenOf;
      if HasFrame(s) {
        assert First(s) != p;
        assert Drain(s).packets[0] == First(s);
      }
    }
  }

  /** Whatever the fields cut off, the client reads a built message's own body, and its command and
      length modulo their widths. */
  lemma ClientReadsFrame(p: Packet)
    ensures ParseMessage(Frame(p)) == Ok((Header([0x49, 0x4D], 1, p.cmd % TWO_16, |p.body| % TWO_32), p.body))
  {
    var s := Frame(p);
    assert s + [] == s;
    FrameSlices(p, []);
    HeaderOfFrame(p, s);
    hide CmdOf, BodyLenOf, Frame, HeaderBytes;
    assert s[..2] == [0x49, 0x4D] && s[HEADER_LEN..] == p.body;
  }

  /** The client's parser agrees with the gateway's on every message that is one whole frame. */
  lemma ClientAgrees(data: seq<Byte>, p: Packet)
    requires Drain(data) == Parsed([p], [], false)
    ensures ParseMessage(data) == Ok((Header([0x49, 0x4D], data[2], p.cmd, |p.body|), p.body))
  {
    var hs := DrainConserves(data);
    OneOnWire(hs, p);
    hide CmdOf, BodyLenOf, Drain, Wire;
    HeadOf(hs[0], p.body);
    assert data == hs[0] + p.body + [];
  }

  lemma OneOnWire(hs: seq<seq<Byte>>, p: Packet)
    requires |hs| == 1
    ensures Wire(hs, [p]) == hs[0] + p.body
  {
    assert Wire(hs[1..], [p][1..]) == [];
  }

  lemma HeadOf(h: seq<Byte>, body: seq<Byte>)
    requires |h| == HEADER_LEN
    ensures var s := h + body; s[HEADER_LEN..] == body && CmdOf(s) == CmdOf(h) && BodyLenOf(s) == BodyLenOf(h)
    ensures MagicOk(h) ==> (h + body)[..2] == [0x49, 0x4D]
  {
    var s := h + body;
    assert s[3..5] == h[3..5] && s[5..9] == h[5..9];
  }

  /** Headers and bodies alternating. */
  function Wire(hs: seq<seq<Byte>>, ps: seq<Packet>): seq<Byte>
    requires |hs| == |ps|
  {
    if ps == [] then [] else hs[0] + ps[0].body + Wire(hs[1..], ps[1..])
  }

  predicate Heads(h: seq<Byte>, p: Packet) {
    |h| == HEADER_LEN && MagicOk(h) && CmdOf(h) == p.cmd && BodyLenOf(h) == |p.body|
  }

  /** No byte is lost or made up: the buffer is, packet by packet, a header that announces the packet and
      then its body, and at last what is left over, in which there is no complete frame. */
  lemma {:induction false} DrainConserves(s: seq<Byte>) returns (hs: seq<seq<Byte>>)
    ensures |hs| == |Drain(s).packets| && s == Wire(hs, Drain(s).packets) + Drain(s).rest
    ensures forall i | 0 <= i < |hs| :: Heads(hs[i], Drain(s).packets[i])
    ensures Drain(Drain(s).rest) == Parsed([], Drain(s).rest, Drain(s).closed)
    decreases |s|
  {
    if HasFrame(s) {
      var h, t := s[..HEADER_LEN], Consume(s);
      FirstOnWire(s);
      hide HasFrame, BadMagic, First, Consume, Heads;
      var rest := DrainConserves(t);
      hs := [h] + rest;
      WireCons(h, First(s), rest, Drain(t).packets, Drain(t).rest);
    } else {
      hs := [];
    }
  }

  lemma FirstOnWire(s: seq<Byte>)
    requires HasFrame(s)
    ensures s == s[..HEADER_LEN] + First(s).body + Consume(s) && Heads(s[..HEADER_LEN], First(s))
  {
    var h := s[..HEADER_LEN];
    assert h[3..5] == s[3..5] && h[5..9] == s[5..9];
    hide FromBe32, FromBe16;
  }

  lemma WireCons(h: seq<Byte>, p: Packet, hs: seq<seq<Byte>>, ps: seq<Packet>, rest: seq<Byte>)
    requires |hs| == |ps|
    ensures Wire([h] + hs, [p] + ps) + rest == h + p.body + (Wire(hs, ps) + rest)
  {
    assert ([h] + hs)[1..] == hs && ([p] + ps)[1..] == ps;
  }
}
