// The reply to a sync request: its proto3 encoding as the chat service's
// serializer writes it, and the web client's hand-written nested decoder.

module SyncCodec {
  import opened JsBits
  import opened Varint
  import opened Prelude
  import opened Cursor

  // ----- the messages -----

  datatype MessageItem = MessageItem(msgId: nat, seqId: nat, senderId: nat, groupId: nat, kind: nat,
                                     content: seq<Byte>, createdAt: seq<Byte>)

  datatype SyncResp = SyncResp(maxSeq: nat, msgs: seq<MessageItem>, success: bool)

  /** The client's result objects. `created_at` stays undefined when the field is absent. */
  datatype MessageData = MessageData(msgId: int, seqId: int, senderId: int, groupId: int, kind: int,
                                     content: seq<Byte>, createdAt: Option<seq<Byte>>)

  datatype SyncData = SyncData(maxSeq: int, msgs: seq<MessageData>, hasMore: bool)

  const EMPTY_MESSAGE := MessageData(0, 0, 0, 0, 0, [], None)
  const EMPTY_SYNC := SyncData(0, [], false)

  // ----- the proto3 encoding: fields in order, defaults omitted -----

  function VarintField(field: nat, v: nat): seq<Byte>
    requires field < 16
  {
    if v == 0 then [] else [8 * field] + Canonical(v)
  }

  function LengthDelimited(field: nat, s: seq<Byte>): seq<Byte>
    requires field < 16
  {
    [8 * field + 2] + Canonical(|s|) + s
  }

  function BytesField(field: nat, s: seq<Byte>): seq<Byte>
    requires field < 16
  {
    if s == [] then [] else LengthDelimited(field, s)
  }

  function EncodeItem(m: MessageItem): seq<Byte> {
    VarintField(1, m.msgId) + (VarintField(2, m.seqId) + (VarintField(3, m.senderId) + (VarintField(4, m.groupId)
    + (VarintField(5, m.kind) + (BytesField(6, m.content) + BytesField(7, m.createdAt))))))
  }

  function EncodeItems(ms: seq<MessageItem>): seq<Byte> {
    if ms == [] then [] else LengthDelimited(2, EncodeItem(ms[0])) + EncodeItems(ms[1..])
  }

  function EncodeResp(r: SyncResp): seq<Byte> {
    VarintField(1, r.maxSeq) + (EncodeItems(r.msgs) + VarintField(3, if r.success then 1 else 0))
  }

  // ----- typed-array views -----

  /** A Uint8Array or DataView over part of an ArrayBuffer. */
  datatype View = View(buf: seq<Byte>, start: nat, len: nat) {
    predicate Valid() { start + len <= |buf| }

    function Bytes(): (r: seq<Byte>)
      requires Valid()
      ensures |r| == len
    {
      buf[start..start + len]
    }

    /** `new Uint8Array(view.buffer, view.byteOffset + offset, n)`: bounded by the buffer, not the view. */
    function Sub(offset: nat, n: int): (r: Result<View>)
      ensures r.Ok? ==> n >= 0 && r.value.Valid() && r.value.len == n && r.value.buf == buf && r.value.start == start + offset
      ensures r.Ok? <==> n >= 0 && start + offset + n <= |buf|
    {
      if n < 0 || start + offset + n > |buf| then Throws(RangeError) else Ok(View(buf, start + offset, n))
    }
  }

  // ----- what the decoders compute -----

  function FieldOf(tag: int): int {
    Sar(tag, 3)
  }

  function WireOf(tag: int): int {
    And(tag, 7)
  }

  function SetVarint(m: MessageData, field: int, v: int): MessageData {
    if field == 1 then m.(msgId := v)
    else if field == 2 then m.(seqId := v)
    else if field == 3 then m.(senderId := v)
    else if field == 4 then m.(groupId := v)
    else if field == 5 then m.(kind := v)
    else m
  }

  function SetBytes(m: MessageData, field: int, s: seq<Byte>): MessageData {
    if field == 6 then m.(content := s) else if field == 7 then m.(createdAt := Some(s)) else m
  }

  /** What decodeMessageData does with the field whose tag ends at `at`. A length is signed, so skipping
      an unknown field can move the cursor back. */
  function ItemField(v: View, at: nat, field: int, wire: int, m: MessageData): Turn<MessageData>
    requires v.Valid()
  {
    if wire == 0 then
      match DecodeAt(v.Bytes(), at)
      case Throws(e) => Stop(Throws(e))
      case Ok((value, n)) => Next(at + n, SetVarint(m, field, value))
    else if wire == 2 then
      match DecodeAt(v.Bytes(), at)
      case Throws(e) => Stop(Throws(e))
      case Ok((len, n)) =>
        if field == 6 || field == 7 then
          match v.Sub(at + n, len)
          case Throws(e) => Stop(Throws(e))
          case Ok(s) => Next(at + n + len, SetBytes(m, field, s.Bytes()))
        else Next(at + n + len, m)
    else Next(at, m)
  }

  /** One iteration of decodeMessageData's loop. */
  function ItemStep(v: View, offset: int, m: MessageData): Turn<MessageData>
    requires v.Valid()
  {
    match DecodeAt(v.Bytes(), offset)
    case Throws(e) => Stop(Throws(e))
    case Ok((tag, n)) => ItemField(v, offset + n, FieldOf(tag), WireOf(tag), m)
  }

  function ItemSteps(v: View): (int, MessageData) -> Turn<MessageData>
    requires v.Valid()
  {
    (offset, m) => ItemStep(v, offset, m)
  }

  /** decodeMessageData's loop from an offset on. */
  function DecodeItem(v: View, offset: int, m: MessageData): Outcome<MessageData>
    requires v.Valid()
  {
    Loop(v.len, ItemSteps(v), offset, m)
  }

  /** Likewise for decodeMsgSyncResp, which breaks on an unknown wire type. A nested message that is
      never finished leaves the cursor where it is for ever. */
  function SyncField(v: View, offset: int, at: nat, field: int, wire: int, r: SyncData): Turn<SyncData>
    requires v.Valid()
  {
    if !(1 <= field <= 3) && wire != 0 && wire != 2 then Stop(Ok(r))
    else match DecodeAt(v.Bytes(), at)
      case Throws(e) => Stop(Throws(e))
      case Ok((x, n)) =>
        if field == 1 then Next(at + n, r.(maxSeq := x))
        else if field == 2 then
          match v.Sub(at + n, x)
          case Throws(e) => Stop(Throws(e))
          case Ok(s) =>
            match DecodeItem(s, 0, EMPTY_MESSAGE)
            case Ended(Throws(e)) => Stop(Throws(e))
            case Ended(Ok(m)) => Next(at + n + x, r.(msgs := r.msgs + [m]))
            case Loops => Next(offset, r)
        else if field == 3 then Next(at + n, r.(hasMore := x != 0))
        else if wire == 0 then Next(at + n, r)
        else Next(at + n + x, r)
  }

  function SyncStep(v: View, offset: int, r: SyncData): Turn<SyncData>
    requires v.Valid()
  {
    match DecodeAt(v.Bytes(), offset)
    case Throws(e) => Stop(Throws(e))
    case Ok((tag, n)) => SyncField(v, offset, offset + n, FieldOf(tag), WireOf(tag), r)
  }

  function SyncSteps(v: View): (int, SyncData) -> Turn<SyncData>
    requires v.Valid()
  {
    (offset, r) => SyncStep(v, offset, r)
  }

  function DecodeSync(v: View, offset: int, r: SyncData): Outcome<SyncData>
    requires v.Valid()
  {
    Loop(v.len, SyncSteps(v), offset, r)
  }

  // ----- when the decoders return -----

  function TurnAt<S>(turn: Turn<S>): Option<int> {
    if turn.Next? then Some(turn.at) else None
  }

  function ItemJumps(v: View): (jumps: Jumps)
    requires v.Valid()
    ensures |jumps| == v.len
  {
    seq(v.len, offset => TurnAt(ItemStep(v, offset, EMPTY_MESSAGE)))
  }

  function SyncJumps(v: View): (jumps: Jumps)
    requires v.Valid()
    ensures |jumps| == v.len
  {
    seq(v.len, offset => TurnAt(SyncStep(v, offset, EMPTY_SYNC)))
  }

  lemma ItemFollows(v: View)
    requires v.Valid()
    ensures Follows(ItemJumps(v), ItemSteps(v))
  {
    hide FieldOf, WireOf, SetVarint, SetBytes;
    forall at, m: MessageData | at < v.len ensures Goes(ItemJumps(v), at, ItemSteps(v)(at, m)) {
    }
  }

  lemma SyncFollows(v: View)
    requires v.Valid()
    ensures Follows(SyncJumps(v), SyncSteps(v))
  {
    hide FieldOf, WireOf, DecodeItem;
    forall at, r: SyncData | at < v.len ensures Goes(SyncJumps(v), at, SyncSteps(v)(at, r)) {
    }
  }

  /** One iteration of decodeMessageData; its loop is endless exactly when its cursor is. */
  lemma ItemUnroll(v: View, offset: int, m: MessageData)
    requires v.Valid()
    ensures offset >= v.len ==> DecodeItem(v, offset, m) == Ended(Ok(m))
    ensures offset < v.len ==> DecodeItem(v, offset, m) == match ItemStep(v, offset, m) {
      case Stop(r) => Ended(r)
      case Next(next, m') => DecodeItem(v, next, m') }
    ensures DecodeItem(v, offset, m).Loops? <==> Endless(ItemJumps(v), offset)
  {
    hide ItemStep, ItemJumps, Endless;
    ItemFollows(v);
    RunsOut(ItemJumps(v), ItemSteps(v), offset, m);
    if offset < v.len {
      LoopStep(ItemJumps(v), ItemSteps(v), offset, m);
    }
  }

  lemma SyncUnroll(v: View, offset: int, r: SyncData)
    requires v.Valid()
    ensures offset >= v.len ==> DecodeSync(v, offset, r) == Ended(Ok(r))
    ensures offset < v.len ==> DecodeSync(v, offset, r) == match SyncStep(v, offset, r) {
      case Stop(q) => Ended(q)
      case Next(next, r') => DecodeSync(v, next, r') }
    ensures DecodeSync(v, offset, r).Loops? <==> Endless(SyncJumps(v), offset)
  {
    hide SyncStep, SyncJumps, Endless;
    SyncFollows(v);
    RunsOut(SyncJumps(v), SyncSteps(v), offset, r);
    if offset < v.len {
      LoopStep(SyncJumps(v), SyncSteps(v), offset, r);
    }
  }

  /** decodeMessageData never returns if and only if its cursor comes back to an offset it was at, which
      shows within an iteration more than the view has bytes. */
  lemma ItemLoopsExact(v: View)
    requires v.Valid()
    ensures DecodeItem(v, 0, EMPTY_MESSAGE).Loops? <==> Visit(ItemJumps(v), 0, v.len + 1).Some?
    ensures var jumps := ItemJumps(v);
      DecodeItem(v, 0, EMPTY_MESSAGE).Loops? <==>
      exists i: nat, j: nat :: i < j && Visit(jumps, 0, i).Some? && Visit(jumps, 0, j) == Visit(jumps, 0, i)
  {
    ItemUnroll(v, 0, EMPTY_MESSAGE);
    hide DecodeItem, ItemJumps;
    EndlessExact(ItemJumps(v), 0);
  }

  lemma SyncLoopsExact(v: View)
    requires v.Valid()
    ensures DecodeSync(v, 0, EMPTY_SYNC).Loops? <==> Visit(SyncJumps(v), 0, v.len + 1).Some?
    ensures var jumps := SyncJumps(v);
      DecodeSync(v, 0, EMPTY_SYNC).Loops? <==>
      exists i: nat, j: nat :: i < j && Visit(jumps, 0, i).Some? && Visit(jumps, 0, j) == Visit(jumps, 0, i)
  {
    SyncUnroll(v, 0, EMPTY_SYNC);
    hide DecodeSync, SyncJumps;
    EndlessExact(SyncJumps(v), 0);
  }

  /** An unknown length-delimited field: the bytes of its tag and length, and the length as decoded. */
  datatype Skip = Skip(header: nat, len: int)

  /** The field at an offset, if it is one the decoder skips by its length; `known` are those it reads. */
  function SkipAt(v: View, offset: int, known: set<int>): Option<Skip>
    requires v.Valid()
  {
    match DecodeAt(v.Bytes(), offset)
    case Throws(_) => None
    case Ok((tag, n)) =>
      if WireOf(tag) != 2 || FieldOf(tag) in known then None
      else match DecodeAt(v.Bytes(), offset + n)
        case Throws(_) => None
        case Ok((len, k)) => Some(Skip(n + k, len))
  }

  const ITEM_STRINGS := {6, 7}

  /** A step moves the cursor forward unless it skips a field whose negative length outweighs its
      header; then it does not. */
  lemma ItemAdvances(v: View, offset: int, m: MessageData)
    requires v.Valid() && ItemStep(v, offset, m).Next?
    ensures var skip := SkipAt(v, offset, ITEM_STRINGS);
      ItemStep(v, offset, m).at > offset <==> (skip.Some? ==> skip.value.header + skip.value.len > 0)
    ensures var skip := SkipAt(v, offset, ITEM_STRINGS);
      skip.Some? ==> ItemStep(v, offset, m) == Next(offset + skip.value.header + skip.value.len, m)
  {
    hide FieldOf, WireOf, SetVarint, SetBytes;
  }

  /** On bytes where no skipped length decodes negative, or none by as much as its header, the decoder
      returns or throws. */
  lemma ItemReturns(v: View)
    requires v.Valid()
    requires forall offset | 0 <= offset < v.len ::
      var skip := SkipAt(v, offset, ITEM_STRINGS); skip.Some? ==> skip.value.header + skip.value.len > 0
    ensures DecodeItem(v, 0, EMPTY_MESSAGE).Ended?
  {
    forall at | Inside(ItemJumps(v), at) ensures ItemJumps(v)[at].value > at {
      ItemAdvances(v, at, EMPTY_MESSAGE);
    }
    hide ItemStep, ItemJumps, DecodeItem;
    ForwardEnds(ItemJumps(v), 0);
    ItemUnroll(v, 0, EMPTY_MESSAGE);
  }

  const SYNC_FIELDS := {1, 2, 3}

  /** The nested message a field of number 2 holds at an offset. */
  function NestedAt(v: View, offset: int): Option<View>
    requires v.Valid()
    ensures NestedAt(v, offset).Some? ==> NestedAt(v, offset).value.Valid()
  {
    match DecodeAt(v.Bytes(), offset)
    case Throws(_) => None
    case Ok((tag, n)) =>
      if FieldOf(tag) != 2 then None
      else match DecodeAt(v.Bytes(), offset + n)
        case Throws(_) => None
        case Ok((len, k)) =>
          var sub := v.Sub(offset + n + k, len);
          if sub.Ok? then Some(sub.value) else None
  }

  lemma SyncAdvances(v: View, offset: int, r: SyncData)
    requires v.Valid() && SyncStep(v, offset, r).Next?
    ensures var skip, nested := SkipAt(v, offset, SYNC_FIELDS), NestedAt(v, offset);
      SyncStep(v, offset, r).at > offset <==>
      (skip.Some? ==> skip.value.header + skip.value.len > 0)
      && (nested.Some? ==> DecodeItem(nested.value, 0, EMPTY_MESSAGE).Ended?)
  {
    hide FieldOf, WireOf, DecodeItem;
  }

  lemma SyncReturns(v: View)
    requires v.Valid()
    requires forall offset | 0 <= offset < v.len ::
      var skip := SkipAt(v, offset, SYNC_FIELDS); skip.Some? ==> skip.value.header + skip.value.len > 0
    requires forall offset | 0 <= offset < v.len ::
      var nested := NestedAt(v, offset); nested.Some? ==> DecodeItem(nested.value, 0, EMPTY_MESSAGE).Ended?
    ensures DecodeSync(v, 0, EMPTY_SYNC).Ended?
  {
    hide NestedAt, SkipAt, DecodeItem;
    forall at | Inside(SyncJumps(v), at) ensures SyncJumps(v)[at].value > at {
      SyncAdvances(v, at, EMPTY_SYNC);
    }
    hide SyncStep, SyncJumps, DecodeSync;
    ForwardEnds(SyncJumps(v), 0);
    SyncUnroll(v, 0, EMPTY_SYNC);
  }

  // ----- the decoders -----

  method ReadItemField(view: View, offset: int, m: MessageData) returns (r: Turn<MessageData>)
    requires view.Valid()
    ensures r == ItemStep(view, offset, m)
  {
    hide DecodeAt, SetVarint, SetBytes, FieldOf, WireOf;
    var t := DecodeVarint(view.Bytes(), offset);
    if t.Throws? { return Stop(Throws(t.error)); }
    var at, field, wire := offset + t.value.1, FieldOf(t.value.0), WireOf(t.value.0);
    if wire != 0 && wire != 2 { return Next(at, m); }
    var d := DecodeVarint(view.Bytes(), at);
    if d.Throws? { return Stop(Throws(d.error)); }
    var (value, n) := d.value;
    if wire == 0 { return Next(at + n, SetVarint(m, field, value)); }
    if field == 6 || field == 7 {
      var s := view.Sub(at + n, value);
      if s.Throws? { return Stop(Throws(s.error)); }
      return Next(at + n + value, SetBytes(m, field, s.value.Bytes()));
    }
    return Next(at + n + value, m);
  }

  /** On every view where the source's loop ends at all. */
  method DecodeMessageData(view: View) returns (r: Result<MessageData>)
    requires view.Valid() && !DecodeItem(view, 0, EMPTY_MESSAGE).Loops?
    ensures DecodeItem(view, 0, EMPTY_MESSAGE) == Ended(r)
  {
    hide ItemStep;
    var offset, msg := 0, EMPTY_MESSAGE;
    ghost var left: nat := view.len + 1;
    while offset < view.len
      invariant Run(view.len, ItemSteps(view), offset, msg, left) == DecodeItem(view, 0, EMPTY_MESSAGE)
      decreases left
    {
      var turn := ReadItemField(view, offset, msg);
      if turn.Stop? { return turn.result; }
      offset, msg := turn.at, turn.state;
      left := left - 1;
    }
    return Ok(msg);
  }

  method ReadSyncField(view: View, offset: int, result: SyncData) returns (r: Turn<SyncData>)
    requires view.Valid() && SyncStep(view, offset, result) != Next(offset, result)
    ensures r == SyncStep(view, offset, result)
  {
    hide DecodeAt, DecodeItem, FieldOf, WireOf;
    var t := DecodeVarint(view.Bytes(), offset);
    if t.Throws? { return Stop(Throws(t.error)); }
    var at, field, wire := offset + t.value.1, FieldOf(t.value.0), WireOf(t.value.0);
    if !(1 <= field <= 3) && wire != 0 && wire != 2 { return Stop(Ok(result)); }
    var d := DecodeVarint(view.Bytes(), at);
    if d.Throws? { return Stop(Throws(d.error)); }
    var (x, n) := d.value;
    if field == 1 { return Next(at + n, result.(maxSeq := x)); }
    if field == 2 {
      var s := view.Sub(at + n, x);
      if s.Throws? { return Stop(Throws(s.error)); }
      var m := DecodeMessageData(s.value);
      if m.Throws? { return Stop(Throws(m.error)); }
      return Next(at + n + x, result.(msgs := result.msgs + [m.value]));
    }
    if field == 3 { return Next(at + n, result.(hasMore := x != 0)); }
    if wire == 0 { return Next(at + n, result); }
    return Next(at + n + x, result);
  }

  method DecodeMsgSyncResp(view: View) returns (r: Result<SyncData>)
    requires view.Valid() && !DecodeSync(view, 0, EMPTY_SYNC).Loops?
    ensures DecodeSync(view, 0, EMPTY_SYNC) == Ended(r)
  {
    hide SyncStep;
    var offset, result := 0, EMPTY_SYNC;
    ghost var left: nat := view.len + 1;
    while offset < view.len
      invariant Run(view.len, SyncSteps(view), offset, result, left) == DecodeSync(view, 0, EMPTY_SYNC)
      decreases left
    {
      if SyncSteps(view)(offset, result) == Next(offset, result) {
        Stuck(view.len, SyncSteps(view), offset, result, left);
      }
      var turn := ReadSyncField(view, offset, result);
      if turn.Stop? { return turn.result; }
      offset, result := turn.at, turn.state;
      left := left - 1;
    }
    return Ok(result);
  }

  // ----- round trip -----

  /** What the client should hold for a message the server sent. */
  function AsDecoded(m: MessageItem): MessageData {
    MessageData(m.msgId, m.seqId, m.senderId, m.groupId, m.kind, m.content,
                if m.createdAt == [] then None else Some(m.createdAt))
  }

  function AllDecoded(ms: seq<MessageItem>): seq<MessageData> {
    if ms == [] then [] else [AsDecoded(ms[0])] + AllDecoded(ms[1..])
  }

  ghost predicate ItemFits(m: MessageItem) {
    m.msgId < TWO_31 && m.seqId < TWO_31 && m.senderId < TWO_31 && m.groupId < TWO_31 && m.kind < TWO_31
    && |m.content| < TWO_31 && |m.createdAt| < TWO_31
  }

  ghost predicate RespFits(r: SyncResp) {
    r.maxSeq < TWO_31 && forall m <- r.msgs :: ItemFits(m) && |EncodeItem(m)| < TWO_31
  }

  /** The bytes of the view from `offset` on. */
  ghost predicate Rem(v: View, offset: nat, s: seq<Byte>) {
    v.Valid() && offset <= v.len && v.Bytes()[offset..] == s
  }

  lemma Advance(v: View, offset: nat, a: seq<Byte>, rest: seq<Byte>)
    requires Rem(v, offset, a + rest)
    ensures Rem(v, offset + |a|, rest)
  {
    assert v.Bytes()[offset..][|a|..] == rest;
  }

  lemma ReadCanonical(v: View, offset: nat, x: nat, rest: seq<Byte>)
    requires x < TWO_31 && v.Valid()
    requires Rem(v, offset, Canonical(x) + rest)
    ensures DecodeAt(v.Bytes(), offset) == Ok((x, |Canonical(x)|))
    ensures Rem(v, offset + |Canonical(x)|, rest)
  {
    hide DecodeAt, Canonical;
    DecodeCanonical(x, v.Bytes(), offset);
    Advance(v, offset, Canonical(x), rest);
  }

  lemma TagIsCanonical(field: nat, wire: nat)
    requires field < 16 && wire < 8
    ensures FieldOf(8 * field + wire) == field && WireOf(8 * field + wire) == wire
    ensures Canonical(8 * field + wire) == [8 * field + wire]
  {
    hide BitAnd;
    And7(8 * field + wire);
    assert Pow2(3 % 32) == 8;
  }

  /** A one-byte tag is read back as its field number and wire type. */
  lemma ReadTag(v: View, offset: nat, field: nat, wire: nat, rest: seq<Byte>)
    requires field < 16 && wire < 8 && v.Valid()
    requires Rem(v, offset, [8 * field + wire] + rest)
    ensures DecodeAt(v.Bytes(), offset) == Ok((8 * field + wire, 1))
    ensures FieldOf(8 * field + wire) == field && WireOf(8 * field + wire) == wire
    ensures Rem(v, offset + 1, rest)
  {
    TagIsCanonical(field, wire);
    hide *;
    ReadCanonical(v, offset, 8 * field + wire, rest);
  }

  lemma NotAtEnd(v: View, offset: nat, b: int, s: seq<Byte>)
    requires 0 <= b < 256 && Rem(v, offset, [b] + s)
    ensures offset < v.len
  {
    assert |v.Bytes()[offset..]| > 0;
  }

  lemma ItemGoes(v: View, offset: nat, m: MessageData, next: nat, m': MessageData)
    requires v.Valid() && offset < v.len && ItemStep(v, offset, m) == Next(next, m')
    ensures DecodeItem(v, offset, m) == DecodeItem(v, next, m')
  {
    hide ItemStep, DecodeItem;
    ItemUnroll(v, offset, m);
  }

  lemma SyncGoes(v: View, offset: nat, d: SyncData, next: nat, d': SyncData)
    requires v.Valid() && offset < v.len && SyncStep(v, offset, d) == Next(next, d')
    ensures DecodeSync(v, offset, d) == DecodeSync(v, next, d')
  {
    hide SyncStep, DecodeSync;
    SyncUnroll(v, offset, d);
  }

  /** A varint field that is present, and where it ends. */
  lemma ReadVarintField(v: View, offset: nat, field: nat, x: nat, rest: seq<Byte>) returns (next: nat)
    requires field < 16 && 0 < x < TWO_31 && v.Valid()
    requires Rem(v, offset, VarintField(field, x) + rest)
    ensures DecodeAt(v.Bytes(), offset) == Ok((8 * field, 1))
    ensures FieldOf(8 * field) == field && WireOf(8 * field) == 0
    ensures DecodeAt(v.Bytes(), offset + 1) == Ok((x, next - offset - 1))
    ensures offset < v.len && offset + 1 < next && Rem(v, next, rest)
  {
    hide DecodeAt, FieldOf, WireOf, Canonical, Rem;
    assert VarintField(field, x) + rest == [8 * field] + (Canonical(x) + rest);
    NotAtEnd(v, offset, 8 * field, Canonical(x) + rest);
    ReadTag(v, offset, field, 0, Canonical(x) + rest);
    ReadCanonical(v, offset + 1, x, rest);
    next := offset + 1 + |Canonical(x)|;
  }

  /** decodeMessageData past one varint field of the encoding. */
  lemma ItemVarint(v: View, offset: nat, field: nat, x: nat, rest: seq<Byte>, m: MessageData) returns (next: nat)
    requires 1 <= field <= 5 && x < TWO_31 && v.Valid()
    requires SetVarint(m, field, 0) == m
    requires Rem(v, offset, VarintField(field, x) + rest)
    ensures Rem(v, next, rest) && DecodeItem(v, offset, m) == DecodeItem(v, next, SetVarint(m, field, x))
  {
    if x == 0 {
      assert VarintField(field, x) + rest == rest;
      next := offset;
    } else {
      hide DecodeAt, FieldOf, WireOf, SetVarint, VarintField, DecodeItem, Rem;
      next := ReadVarintField(v, offset, field, x, rest);
      ItemGoes(v, offset, m, next, SetVarint(m, field, x));
    }
  }

  /** The header of a length-delimited field, and where its bytes lie. */
  lemma ReadDelimited(v: View, offset: nat, field: nat, s: seq<Byte>, rest: seq<Byte>) returns (at: nat)
    requires field < 16 && |s| < TWO_31 && v.Valid()
    requires Rem(v, offset, LengthDelimited(field, s) + rest)
    ensures DecodeAt(v.Bytes(), offset) == Ok((8 * field + 2, 1))
    ensures FieldOf(8 * field + 2) == field && WireOf(8 * field + 2) == 2
    ensures DecodeAt(v.Bytes(), offset + 1) == Ok((|s|, at - offset - 1))
    ensures v.Sub(at, |s|).Ok? && v.Sub(at, |s|).value.Bytes() == s
    ensures offset + 1 < at && offset < v.len && Rem(v, at + |s|, rest)
  {
    hide DecodeAt, FieldOf, WireOf, Canonical;
    var n := Canonical(|s|);
    assert LengthDelimited(field, s) + rest == [8 * field + 2] + (n + (s + rest));
    NotAtEnd(v, offset, 8 * field + 2, n + (s + rest));
    ReadTag(v, offset, field, 2, n + (s + rest));
    ReadCanonical(v, offset + 1, |s|, s + rest);
    at := offset + 1 + |n|;
    Advance(v, at, s, rest);
    SubBytes(v, at, s, rest);
  }

  lemma SubBytes(v: View, at: nat, s: seq<Byte>, rest: seq<Byte>)
    requires v.Valid() && Rem(v, at, s + rest)
    ensures v.Sub(at, |s|).Ok? && v.Sub(at, |s|).value.Bytes() == s
  {
    assert |v.Bytes()[at..]| == |s| + |rest|;
    assert v.Sub(at, |s|).value.Bytes() == v.Bytes()[at..][..|s|];
  }

  /** decodeMessageData past one string field of the encoding. */
  lemma ItemBytes(v: View, offset: nat, field: nat, s: seq<Byte>, rest: seq<Byte>, m: MessageData) returns (next: nat)
    requires 6 <= field <= 7 && |s| < TWO_31 && v.Valid()
    requires Rem(v, offset, BytesField(field, s) + rest)
    ensures Rem(v, next, rest)
    ensures DecodeItem(v, offset, m) == DecodeItem(v, next, if s == [] then m else SetBytes(m, field, s))
  {
    if s == [] {
      assert BytesField(field, s) + rest == rest;
      next := offset;
    } else {
      hide DecodeAt, FieldOf, WireOf, SetBytes, LengthDelimited, Rem, DecodeItem, ItemStep;
      var at := ReadDelimited(v, offset, field, s, rest);
      next := at + |s|;
      StringStep(v, offset, field, s, at, m);
      ItemGoes(v, offset, m, next, SetBytes(m, field, s));
    }
  }

  lemma StringStep(v: View, offset: nat, field: nat, s: seq<Byte>, at: nat, m: MessageData)
    requires 6 <= field <= 7 && v.Valid() && offset + 1 < at
    requires DecodeAt(v.Bytes(), offset) == Ok((8 * field + 2, 1))
    requires FieldOf(8 * field + 2) == field && WireOf(8 * field + 2) == 2
    requires DecodeAt(v.Bytes(), offset + 1) == Ok((|s| as int, at - offset - 1))
    requires v.Sub(at, |s|).Ok? && v.Sub(at, |s|).value.Bytes() == s
    ensures ItemStep(v, offset, m) == Next(at + |s|, SetBytes(m, field, s))
  {
    hide DecodeAt, FieldOf, WireOf, SetBytes;
  }

  lemma Finished(v: View, offset: nat)
    requires Rem(v, offset, [])
    ensures offset == v.len
  {
    assert |v.Bytes()[offset..]| == 0;
  }

  /** decodeMessageData past the five integers of the encoding. */
  lemma ItemInts(v: View, m: MessageItem, rest: seq<Byte>) returns (next: nat)
    requires v.Valid() && ItemFits(m)
    requires Rem(v, 0, VarintField(1, m.msgId) + (VarintField(2, m.seqId) + (VarintField(3, m.senderId)
             + (VarintField(4, m.groupId) + (VarintField(5, m.kind) + rest)))))
    ensures Rem(v, next, rest)
    ensures DecodeItem(v, 0, EMPTY_MESSAGE)
         == DecodeItem(v, next, MessageData(m.msgId, m.seqId, m.senderId, m.groupId, m.kind, [], None))
  {
    hide VarintField, DecodeItem, Rem;
    var f5 := VarintField(5, m.kind) + rest;
    var f4 := VarintField(4, m.groupId) + f5;
    var f3 := VarintField(3, m.senderId) + f4;
    var f2 := VarintField(2, m.seqId) + f3;
    next := ItemVarint(v, 0, 1, m.msgId, f2, EMPTY_MESSAGE);
    next := ItemVarint(v, next, 2, m.seqId, f3, EMPTY_MESSAGE.(msgId := m.msgId));
    next := ItemVarint(v, next, 3, m.senderId, f4, MessageData(m.msgId, m.seqId, 0, 0, 0, [], None));
    next := ItemVarint(v, next, 4, m.groupId, f5, MessageData(m.msgId, m.seqId, m.senderId, 0, 0, [], None));
    next := ItemVarint(v, next, 5, m.kind, rest, MessageData(m.msgId, m.seqId, m.senderId, m.groupId, 0, [], None));
  }

  /** decodeMessageData past a whole message, whatever follows it. */
  lemma ItemFields(v: View, m: MessageItem, rest: seq<Byte>) returns (next: nat)
    requires v.Valid() && ItemFits(m) && v.Bytes() == EncodeItem(m) + rest
    ensures Rem(v, next, rest) && DecodeItem(v, 0, EMPTY_MESSAGE) == DecodeItem(v, next, AsDecoded(m))
  {
    var f7 := BytesField(7, m.createdAt) + rest;
    ItemStart(v, m, rest);
    next := ItemInts(v, m, BytesField(6, m.content) + f7);
    hide VarintField, BytesField, DecodeItem, Rem, EncodeItem;
    var d := MessageData(m.msgId, m.seqId, m.senderId, m.groupId, m.kind, [], None);
    next := ItemBytes(v, next, 6, m.content, f7, d);
    next := ItemBytes(v, next, 7, m.createdAt, rest, d.(content := m.content));
  }

  lemma ItemStart(v: View, m: MessageItem, rest: seq<Byte>)
    requires v.Valid() && v.Bytes() == EncodeItem(m) + rest
    ensures Rem(v, 0, VarintField(1, m.msgId) + (VarintField(2, m.seqId) + (VarintField(3, m.senderId)
            + (VarintField(4, m.groupId) + (VarintField(5, m.kind)
            + (BytesField(6, m.content) + (BytesField(7, m.createdAt) + rest)))))))
  {
    hide VarintField, BytesField;
    assert v.Bytes()[0..] == v.Bytes();
  }

  /** A message comes back field by field, defaults restored, wherever its bytes sit in the buffer. */
  lemma ItemRoundTrip(v: View, m: MessageItem)
    requires v.Valid() && v.Bytes() == EncodeItem(m) && ItemFits(m)
    ensures DecodeItem(v, 0, EMPTY_MESSAGE) == Ended(Ok(AsDecoded(m)))
    ensures DecodeItem(v, 0, EMPTY_MESSAGE) == Ended(Ok(MessageData(
      m.msgId, m.seqId, m.senderId, m.groupId, m.kind, m.content, if m.createdAt == [] then None else Some(m.createdAt))))
  {
    assert v.Bytes() == EncodeItem(m) + [];
    hide DecodeItem, Rem, EncodeItem;
    var i := ItemFields(v, m, []);
    Finished(v, i);
    ItemEnd(v, i, AsDecoded(m));
  }

  lemma ItemEnd(v: View, offset: nat, m: MessageData)
    requires v.Valid() && offset == v.len
    ensures DecodeItem(v, offset, m) == Ended(Ok(m))
  {
    hide ItemStep;
  }

  ghost predicate Int32(x: int) {
    -TWO_31 <= x < TWO_31
  }

  /** What decodeMessageData returns, when it does, is a signed 32-bit integer or shorter than 2^31. */
  ghost predicate DataFits(d: MessageData) {
    Int32(d.msgId) && Int32(d.seqId) && Int32(d.senderId) && Int32(d.groupId) && Int32(d.kind)
    && |d.content| < TWO_31 && (d.createdAt.Some? ==> |d.createdAt.value| < TWO_31)
  }

  /** Whatever the bytes. */
  lemma DecodedFits(v: View)
    requires v.Valid() && DecodeItem(v, 0, EMPTY_MESSAGE).Ended? && DecodeItem(v, 0, EMPTY_MESSAGE).result.Ok?
    ensures DataFits(DecodeItem(v, 0, EMPTY_MESSAGE).result.value)
  {
    RunFits(v, 0, EMPTY_MESSAGE, v.len + 1);
  }

  lemma {:induction false} RunFits(v: View, offset: int, m: MessageData, fuel: nat)
    requires v.Valid() && DataFits(m)
    ensures var q := Run(v.len, ItemSteps(v), offset, m, fuel); q.Ended? && q.result.Ok? ==> DataFits(q.result.value)
    decreases fuel
  {
    hide ItemStep, DataFits;
    if offset < v.len && fuel > 0 {
      StepFits(v, offset, m);
      var turn := ItemStep(v, offset, m);
      if turn.Next? {
        RunFits(v, turn.at, turn.state, fuel - 1);
      }
    }
  }

  lemma StepFits(v: View, offset: int, m: MessageData)
    requires v.Valid() && DataFits(m)
    ensures match ItemStep(v, offset, m) { case Next(_, m') => DataFits(m') case Stop(r) => r.Throws? }
  {
    hide DecodeAt, FieldOf, WireOf;
  }

  /** A message survives the trip exactly when its integers and string lengths lie below 2^31. */
  lemma ItemExact(v: View, m: MessageItem)
    requires v.Valid() && v.Bytes() == EncodeItem(m)
    ensures DecodeItem(v, 0, EMPTY_MESSAGE) == Ended(Ok(AsDecoded(m))) <==> ItemFits(m)
  {
    if ItemFits(m) {
      ItemRoundTrip(v, m);
    } else {
      hide DecodeItem, EncodeItem;
      if DecodeItem(v, 0, EMPTY_MESSAGE) == Ended(Ok(AsDecoded(m))) {
        DecodedFits(v);
      }
    }
  }

  /** decodeMsgSyncResp past one message. */
  lemma SyncItem(v: View, offset: nat, m: MessageItem, rest: seq<Byte>, d: SyncData) returns (next: nat)
    requires v.Valid() && ItemFits(m) && |EncodeItem(m)| < TWO_31
    requires Rem(v, offset, LengthDelimited(2, EncodeItem(m)) + rest)
    ensures Rem(v, next, rest)
    ensures DecodeSync(v, offset, d) == DecodeSync(v, next, d.(msgs := d.msgs + [AsDecoded(m)]))
  {
    var s := EncodeItem(m);
    hide DecodeAt, FieldOf, WireOf, DecodeItem, EncodeItem, Rem, LengthDelimited, AsDecoded, DecodeSync, ItemFits;
    var at := ReadDelimited(v, offset, 2, s, rest);
    ItemRoundTrip(v.Sub(at, |s|).value, m);
    next := at + |s|;
    SyncGoes(v, offset, d, next, d.(msgs := d.msgs + [AsDecoded(m)]));
  }

  lemma {:induction false} SyncItems(v: View, offset: nat, ms: seq<MessageItem>, rest: seq<Byte>, d: SyncData)
    returns (next: nat)
    requires v.Valid() && forall m <- ms :: ItemFits(m) && |EncodeItem(m)| < TWO_31
    requires Rem(v, offset, EncodeItems(ms) + rest)
    ensures Rem(v, next, rest)
    ensures DecodeSync(v, offset, d) == DecodeSync(v, next, d.(msgs := d.msgs + AllDecoded(ms)))
    decreases |ms|
  {
    hide DecodeSync, LengthDelimited, Rem, EncodeItem, EncodeItems, AsDecoded, AllDecoded, ItemFits;
    SplitItems(ms, rest, d.msgs);
    if ms == [] {
      next := offset;
    } else {
      next := SyncItem(v, offset, ms[0], EncodeItems(ms[1..]) + rest, d);
      next := SyncItems(v, next, ms[1..], rest, d.(msgs := d.msgs + [AsDecoded(ms[0])]));
    }
  }

  lemma SplitItems(ms: seq<MessageItem>, rest: seq<Byte>, done: seq<MessageData>)
    ensures ms == [] ==> EncodeItems(ms) + rest == rest && done + AllDecoded(ms) == done
    ensures ms != [] ==>
      EncodeItems(ms) + rest == LengthDelimited(2, EncodeItem(ms[0])) + (EncodeItems(ms[1..]) + rest)
      && (done + [AsDecoded(ms[0])]) + AllDecoded(ms[1..]) == done + AllDecoded(ms)
  {
    hide LengthDelimited, EncodeItem, AsDecoded;
  }

  lemma SyncFieldStep(v: View, offset: nat, tag: int, next: nat, x: int, d: SyncData)
    requires v.Valid() && DecodeAt(v.Bytes(), offset) == Ok((tag, 1))
    requires DecodeAt(v.Bytes(), offset + 1) == Ok((x, next - offset - 1)) && next > offset
    ensures FieldOf(tag) == 1 ==> SyncStep(v, offset, d) == Next(next, d.(maxSeq := x))
    ensures FieldOf(tag) == 3 ==> SyncStep(v, offset, d) == Next(next, d.(hasMore := x != 0))
  {
    hide DecodeAt, FieldOf, WireOf, DecodeItem;
  }

  /** decodeMsgSyncResp past max_seq (field 1) or success (field 3, which the client calls has_more). */
  lemma SyncVarint(v: View, offset: nat, field: nat, x: nat, rest: seq<Byte>, d: SyncData) returns (next: nat)
    requires ((field == 1 && d.maxSeq == 0) || (field == 3 && !d.hasMore)) && x < TWO_31 && v.Valid()
    requires Rem(v, offset, VarintField(field, x) + rest)
    ensures Rem(v, next, rest)
    ensures DecodeSync(v, offset, d)
         == DecodeSync(v, next, if field == 1 then d.(maxSeq := x) else d.(hasMore := x != 0))
  {
    if x == 0 {
      assert VarintField(field, x) + rest == rest;
      next := offset;
    } else {
      hide DecodeAt, FieldOf, WireOf, VarintField, Rem, DecodeSync, DecodeItem, SyncStep;
      next := ReadVarintField(v, offset, field, x, rest);
      var d' := if field == 1 then d.(maxSeq := x) else d.(hasMore := x != 0);
      SyncFieldStep(v, offset, 8 * field, next, x, d);
      SyncGoes(v, offset, d, next, d');
    }
  }

  /** The whole reply: same max_seq, same messages in the same order, and success read as has_more. */
  lemma SyncRoundTrip(v: View, r: SyncResp)
    requires v.Valid() && v.Bytes() == EncodeResp(r) && RespFits(r)
    ensures DecodeSync(v, 0, EMPTY_SYNC) == Ended(Ok(SyncData(r.maxSeq, AllDecoded(r.msgs), r.success)))
    ensures |AllDecoded(r.msgs)| == |r.msgs|
    ensures forall i | 0 <= i < |r.msgs| :: var m := r.msgs[i];
      AllDecoded(r.msgs)[i] == MessageData(m.msgId, m.seqId, m.senderId, m.groupId, m.kind, m.content,
                                           if m.createdAt == [] then None else Some(m.createdAt))
  {
    ReplyRoundTrip(v, r);
    hide DecodeSync, EncodeResp, RespFits;
    DecodedEach(r.msgs);
  }

  lemma ReplyRoundTrip(v: View, r: SyncResp)
    requires v.Valid() && v.Bytes() == EncodeResp(r) && RespFits(r)
    ensures DecodeSync(v, 0, EMPTY_SYNC) == Ended(Ok(SyncData(r.maxSeq, AllDecoded(r.msgs), r.success)))
  {
    var f3 := VarintField(3, if r.success then 1 else 0);
    assert Rem(v, 0, VarintField(1, r.maxSeq) + (EncodeItems(r.msgs) + f3)) by { assert v.Bytes()[0..] == v.Bytes(); }
    hide VarintField, EncodeItems, DecodeSync, Rem, EncodeResp;
    var i := SyncVarint(v, 0, 1, r.maxSeq, EncodeItems(r.msgs) + f3, EMPTY_SYNC);
    var d := EMPTY_SYNC.(maxSeq := r.maxSeq);
    i := SyncItems(v, i, r.msgs, f3, d);
    assert [] + AllDecoded(r.msgs) == AllDecoded(r.msgs);
    d := d.(msgs := AllDecoded(r.msgs));
    assert f3 == f3 + [];
    i := SyncVarint(v, i, 3, if r.success then 1 else 0, [], d);
    Finished(v, i);
    SyncEnd(v, i, d.(hasMore := r.success));
  }

  lemma {:induction false} DecodedEach(ms: seq<MessageItem>)
    ensures |AllDecoded(ms)| == |ms|
    ensures forall i | 0 <= i < |ms| :: AllDecoded(ms)[i] == AsDecoded(ms[i])
  {
    hide AsDecoded;
    if ms != [] {
      DecodedEach(ms[1..]);
    }
  }

  lemma SyncEnd(v: View, offset: nat, d: SyncData)
    requires v.Valid() && offset == v.len
    ensures DecodeSync(v, offset, d) == Ended(Ok(d))
  {
    hide SyncStep;
  }

  ghost predicate SyncFits(d: SyncData) {
    Int32(d.maxSeq) && forall m <- d.msgs :: DataFits(m)
  }

  ghost predicate TurnFits(turn: Turn<SyncData>) {
    match turn
    case Next(_, d) => SyncFits(d)
    case Stop(r) => r.Ok? ==> SyncFits(r.value)
  }

  lemma SyncFieldFits(v: View, offset: int, at: nat, field: int, wire: int, d: SyncData)
    requires v.Valid() && SyncFits(d)
    ensures TurnFits(SyncField(v, offset, at, field, wire, d))
  {
    if field == 2 {
      MessageFieldFits(v, offset, at, wire, d);
    } else {
      hide DecodeItem, DecodeAt, DataFits;
    }
  }

  lemma MessageFieldFits(v: View, offset: int, at: nat, wire: int, d: SyncData)
    requires v.Valid() && SyncFits(d)
    ensures TurnFits(SyncField(v, offset, at, 2, wire, d))
  {
    var q := DecodeAt(v.Bytes(), at);
    if q.Ok? && v.Sub(at + q.value.1, q.value.0).Ok? {
      NestedFits(v.Sub(at + q.value.1, q.value.0).value, d);
    }
    hide DecodeItem, DecodeAt, SyncFits;
  }

  lemma NestedFits(s: View, d: SyncData)
    requires s.Valid() && SyncFits(d)
    ensures match DecodeItem(s, 0, EMPTY_MESSAGE) {
      case Ended(Ok(m)) => SyncFits(d.(msgs := d.msgs + [m]))
      case _ => true }
  {
    hide DecodeItem, DataFits;
    if DecodeItem(s, 0, EMPTY_MESSAGE).Ended? && DecodeItem(s, 0, EMPTY_MESSAGE).result.Ok? {
      DecodedFits(s);
    }
  }

  /** Likewise for decodeMsgSyncResp. */
  lemma {:induction false} SyncRunFits(v: View, offset: int, d: SyncData, fuel: nat)
    requires v.Valid() && SyncFits(d)
    ensures var q := Run(v.len, SyncSteps(v), offset, d, fuel); q.Ended? && q.result.Ok? ==> SyncFits(q.result.value)
    decreases fuel
  {
    hide SyncFits, SyncField, DecodeAt, FieldOf, WireOf;
    var t := DecodeAt(v.Bytes(), offset);
    if offset < v.len && fuel > 0 && t.Ok? {
      SyncFieldFits(v, offset, offset + t.value.1, FieldOf(t.value.0), WireOf(t.value.0), d);
      var turn := SyncStep(v, offset, d);
      if turn.Next? {
        SyncRunFits(v, turn.at, turn.state, fuel - 1);
      }
    }
  }

  lemma {:induction false} AllDecodedAt(ms: seq<MessageItem>, m: MessageItem)
    requires m in ms
    ensures AsDecoded(m) in AllDecoded(ms)
  {
    hide AsDecoded;
    if m != ms[0] {
      AllDecodedAt(ms[1..], m);
    }
  }

  /** A reply of messages shorter than 2^31 bytes survives the trip exactly when all its integers and
      string lengths lie below 2^31. */
  lemma SyncExact(v: View, r: SyncResp)
    requires v.Valid() && v.Bytes() == EncodeResp(r) && forall m <- r.msgs :: |EncodeItem(m)| < TWO_31
    ensures DecodeSync(v, 0, EMPTY_SYNC) == Ended(Ok(SyncData(r.maxSeq, AllDecoded(r.msgs), r.success))) <==> RespFits(r)
  {
    if RespFits(r) {
      SyncRoundTrip(v, r);
    } else {
      SyncRunFits(v, 0, EMPTY_SYNC, v.len + 1);
      hide Run, EncodeItem, EncodeResp, AllDecoded, RespFits, SyncFits;
      MisfitShows(r);
    }
  }

  lemma MisfitShows(r: SyncResp)
    requires !RespFits(r) && forall m <- r.msgs :: |EncodeItem(m)| < TWO_31
    ensures !SyncFits(SyncData(r.maxSeq, AllDecoded(r.msgs), r.success))
  {
    hide EncodeItem, AllDecoded, ItemFits;
    if r.maxSeq < TWO_31 {
      var m :| m in r.msgs && !ItemFits(m);
      AllDecodedAt(r.msgs, m);
      MisfitItem(m);
      hide DataFits;
    }
  }

  lemma MisfitItem(m: MessageItem)
    requires !ItemFits(m)
    ensures !DataFits(AsDecoded(m))
  {
  }

  // ----- fields the client does not know -----

  /** A field of some later schema. */
  datatype Unknown = UnknownNumber(field: nat, x: nat) | UnknownBytes(field: nat, s: seq<Byte>)

  /** Its tag still takes one byte and its length or value is in range. */
  ghost predicate Skippable(u: Unknown, above: nat) {
    above < u.field < 16 && if u.UnknownNumber? then 0 < u.x < TWO_31 else |u.s| < TWO_31
  }

  function UnknownField(u: Unknown): seq<Byte>
    requires u.field < 16
  {
    match u
    case UnknownNumber(field, x) => VarintField(field, x)
    case UnknownBytes(field, s) => LengthDelimited(field, s)
  }

  function Unknowns(us: seq<Unknown>): seq<Byte>
    requires forall u <- us :: u.field < 16
  {
    if us == [] then [] else UnknownField(us[0]) + Unknowns(us[1..])
  }

  lemma ItemSkips(v: View, offset: nat, u: Unknown, rest: seq<Byte>, m: MessageData) returns (next: nat)
    requires Skippable(u, 7) && v.Valid() && Rem(v, offset, UnknownField(u) + rest)
    ensures Rem(v, next, rest) && DecodeItem(v, offset, m) == DecodeItem(v, next, m)
  {
    hide DecodeAt, FieldOf, WireOf, VarintField, LengthDelimited, Rem, DecodeItem;
    match u {
      case UnknownNumber(field, x) =>
        next := ReadVarintField(v, offset, field, x, rest);
      case UnknownBytes(field, s) =>
        var at := ReadDelimited(v, offset, field, s, rest);
        next := at + |s|;
    }
    ItemGoes(v, offset, m, next, m);
  }

  lemma {:induction false} ItemSkipsAll(v: View, offset: nat, us: seq<Unknown>, m: MessageData)
    requires (forall u <- us :: u.field < 16 && Skippable(u, 7)) && v.Valid() && Rem(v, offset, Unknowns(us))
    ensures DecodeItem(v, offset, m) == Ended(Ok(m))
    decreases |us|
  {
    hide Rem, DecodeItem, UnknownField, Skippable;
    if us == [] {
      Finished(v, offset);
      ItemEnd(v, offset, m);
    } else {
      var next := ItemSkips(v, offset, us[0], Unknowns(us[1..]), m);
      ItemSkipsAll(v, next, us[1..], m);
    }
  }

  /** A message of a later schema: whatever fields follow the known ones, the client reads the same. */
  lemma ItemForward(v: View, m: MessageItem, us: seq<Unknown>)
    requires forall u <- us :: u.field < 16 && Skippable(u, 7)
    requires v.Valid() && ItemFits(m) && v.Bytes() == EncodeItem(m) + Unknowns(us)
    ensures DecodeItem(v, 0, EMPTY_MESSAGE) == Ended(Ok(AsDecoded(m)))
  {
    hide DecodeItem, Rem, EncodeItem, Unknowns, Skippable;
    var next := ItemFields(v, m, Unknowns(us));
    ItemSkipsAll(v, next, us, AsDecoded(m));
  }

  lemma SyncSkips(v: View, offset: nat, u: Unknown, rest: seq<Byte>, d: SyncData) returns (next: nat)
    requires Skippable(u, 3) && v.Valid() && Rem(v, offset, UnknownField(u) + rest)
    ensures Rem(v, next, rest) && DecodeSync(v, offset, d) == DecodeSync(v, next, d)
  {
    hide DecodeAt, FieldOf, WireOf, VarintField, LengthDelimited, Rem, DecodeSync, DecodeItem;
    match u {
      case UnknownNumber(field, x) =>
        next := ReadVarintField(v, offset, field, x, rest);
      case UnknownBytes(field, s) =>
        var at := ReadDelimited(v, offset, field, s, rest);
        next := at + |s|;
    }
    SyncGoes(v, offset, d, next, d);
  }

  /** The outer decoder skips them too, anywhere. */
  lemma {:induction false} SyncForward(v: View, offset: nat, us: seq<Unknown>, rest: seq<Byte>, d: SyncData) returns (next: nat)
    requires (forall u <- us :: u.field < 16 && Skippable(u, 3)) && v.Valid() && Rem(v, offset, Unknowns(us) + rest)
    ensures Rem(v, next, rest) && DecodeSync(v, offset, d) == DecodeSync(v, next, d)
    decreases |us|
  {
    hide Rem, DecodeSync, UnknownField, Skippable;
    if us == [] {
      assert Unknowns(us) + rest == rest;
      next := offset;
    } else {
      assert Unknowns(us) + rest == UnknownField(us[0]) + (Unknowns(us[1..]) + rest);
      next := SyncSkips(v, offset, us[0], Unknowns(us[1..]) + rest, d);
      next := SyncForward(v, next, us[1..], rest, d);
    }
  }

  /** At a field it does not know, of a wire type other than 0 and 2, it stops with what it has. */
  lemma SyncBreaks(v: View, offset: nat, field: nat, wire: nat, rest: seq<Byte>, d: SyncData)
    requires 4 <= field < 16 && wire < 8 && wire != 0 && wire != 2
    requires v.Valid() && Rem(v, offset, [8 * field + wire] + rest)
    ensures DecodeSync(v, offset, d) == Ended(Ok(d))
  {
    hide DecodeAt, FieldOf, WireOf, Rem, DecodeSync, DecodeItem;
    NotAtEnd(v, offset, 8 * field + wire, rest);
    ReadTag(v, offset, field, wire, rest);
    SyncUnroll(v, offset, d);
  }

  /** The nested decoder only steps over such a tag. */
  lemma ItemStepsOver(v: View, offset: nat, field: nat, wire: nat, rest: seq<Byte>, m: MessageData)
    requires field < 16 && wire < 8 && wire != 0 && wire != 2
    requires v.Valid() && Rem(v, offset, [8 * field + wire] + rest)
    ensures DecodeItem(v, offset, m) == DecodeItem(v, offset + 1, m)
  {
    hide DecodeAt, FieldOf, WireOf, Rem, DecodeItem;
    NotAtEnd(v, offset, 8 * field + wire, rest);
    ReadTag(v, offset, field, wire, rest);
    ItemGoes(v, offset, m, offset + 1, m);
  }

  /** A known string or message that claims more bytes than the buffer has throws a RangeError. */
  lemma Truncated(v: View, offset: nat, field: nat, n: nat, m: MessageData, d: SyncData)
    requires field < 16 && n < TWO_31 && v.Valid()
    requires Rem(v, offset, [8 * field + 2] + Canonical(n))
    requires v.start + v.len + n > |v.buf|
    ensures field == 6 || field == 7 ==> DecodeItem(v, offset, m) == Ended(Throws(RangeError))
    ensures field == 2 ==> DecodeSync(v, offset, d) == Ended(Throws(RangeError))
  {
    hide DecodeAt, FieldOf, WireOf, Rem, DecodeSync, DecodeItem, Canonical;
    NotAtEnd(v, offset, 8 * field + 2, Canonical(n));
    ReadTag(v, offset, field, 2, Canonical(n));
    assert Canonical(n) + [] == Canonical(n);
    ReadCanonical(v, offset + 1, n, []);
    Finished(v, offset + 1 + |Canonical(n)|);
    ItemUnroll(v, offset, m);
    SyncUnroll(v, offset, d);
  }

  // ----- and when they do not return -----

  /** Field 8, length-delimited, of length -6: the step goes back to its own first byte. */
  const BACK_TO_START: seq<Byte> := [0x42, 0xFA, 0xFF, 0xFF, 0xFF, 0x0F]

  lemma MinusSix()
    ensures Canonical(0xFFFF_FFFA) == [0xFA, 0xFF, 0xFF, 0xFF, 0x0F] && ToInt32(0xFFFF_FFFA) == -6
  {
    assert Canonical(0x0F) == [0x0F];
    assert Canonical(0x7FF) == [0xFF] + Canonical(0x0F);
    assert Canonical(0x3_FFFF) == [0xFF] + Canonical(0x7FF);
    assert Canonical(0x1FF_FFFF) == [0xFF] + Canonical(0x3_FFFF);
    assert Canonical(0xFFFF_FFFA) == [0xFA] + Canonical(0x1FF_FFFF);
  }

  lemma BackReads(v: View)
    requires v.Valid() && v.Bytes() == BACK_TO_START
    ensures DecodeAt(v.Bytes(), 0) == Ok((0x42, 1)) && FieldOf(0x42) == 8 && WireOf(0x42) == 2
    ensures DecodeAt(v.Bytes(), 1) == Ok((-6, 5))
  {
    MinusSix();
    var len := Canonical(0xFFFF_FFFA);
    assert v.Bytes()[0..] == [0x42] + len && v.Bytes()[1..] == len;
    hide DecodeAt, FieldOf, WireOf, Canonical, ToInt32;
    DecodeCanonical(0xFFFF_FFFA, v.Bytes(), 1);
    assert Rem(v, 0, [8 * 8 + 2] + len);
    hide Rem;
    ReadTag(v, 0, 8, 2, len);
  }

  lemma BackSkip(v: View)
    requires v.Valid() && DecodeAt(v.Bytes(), 0) == Ok((0x42, 1)) && DecodeAt(v.Bytes(), 1) == Ok((-6, 5))
    requires FieldOf(0x42) == 8 && WireOf(0x42) == 2
    ensures SkipAt(v, 0, ITEM_STRINGS) == Some(Skip(6, -6))
    ensures ItemStep(v, 0, EMPTY_MESSAGE) == Next(0, EMPTY_MESSAGE)
  {
    hide DecodeAt, FieldOf, WireOf;
  }

  /** Six bytes on which decodeMessageData never returns, wherever they lie. */
  lemma ItemLoopsForever(v: View)
    requires v.Valid() && v.Bytes() == BACK_TO_START
    ensures SkipAt(v, 0, ITEM_STRINGS) == Some(Skip(6, -6)) && DecodeItem(v, 0, EMPTY_MESSAGE).Loops?
  {
    BackReads(v);
    BackSkip(v);
    hide ItemStep, SkipAt, DecodeAt;
    Stuck(v.len, ItemSteps(v), 0, EMPTY_MESSAGE, v.len + 1);
  }

  /** A reply that starts with a message on which decodeMessageData never returns never returns either. */
  lemma NestedLoops(v: View, s: seq<Byte>, rest: seq<Byte>)
    requires v.Valid() && |s| < TWO_31 && Rem(v, 0, LengthDelimited(2, s) + rest)
    requires forall w: View :: w.Valid() && w.Bytes() == s ==> DecodeItem(w, 0, EMPTY_MESSAGE).Loops?
    ensures DecodeSync(v, 0, EMPTY_SYNC).Loops?
  {
    hide DecodeAt, FieldOf, WireOf, DecodeItem, LengthDelimited, Rem;
    var at := ReadDelimited(v, 0, 2, s, rest);
    NestedStays(v, at, |s|);
    hide SyncStep;
    Stuck(v.len, SyncSteps(v), 0, EMPTY_SYNC, v.len + 1);
  }

  lemma NestedStays(v: View, at: nat, n: nat)
    requires v.Valid() && at > 1
    requires DecodeAt(v.Bytes(), 0) == Ok((0x12, 1)) && FieldOf(0x12) == 2
    requires DecodeAt(v.Bytes(), 1) == Ok((n as int, at - 1))
    requires v.Sub(at, n).Ok? && DecodeItem(v.Sub(at, n).value, 0, EMPTY_MESSAGE).Loops?
    ensures SyncStep(v, 0, EMPTY_SYNC) == Next(0, EMPTY_SYNC)
  {
    hide DecodeAt, FieldOf, WireOf, DecodeItem;
  }
}
