// The web client's request encoders, read back by a schema-independent
// protobuf parser (field number, wire type, payload).

module Requests {
  import opened JsBits
  import opened Varint

  datatype Payload = Number(v: nat) | Chunk(s: seq<Byte>)

  datatype Field = Field(number: nat, payload: Payload)

  /** Wire types 0 and 2 of the encoding specification; the schema uses no other. */
  function ParseFields(s: seq<Byte>): Result<seq<Field>>
    decreases |s|
  {
    if s == [] then Ok([])
    else match ParseField(s)
      case Throws(e) => Throws(e)
      case Ok((f, n)) =>
        match ParseFields(s[n..])
        case Throws(e) => Throws(e)
        case Ok(fs) => Ok([f] + fs)
  }

  /** The first field and the number of bytes it takes. */
  function ParseField(s: seq<Byte>): (r: Result<(Field, nat)>)
    ensures r.Ok? ==> 0 < r.value.1 <= |s|
  {
    match ParseVarint(s)
    case Throws(e) => Throws(e)
    case Ok((tag, n)) =>
      match ParseVarint(s[n..])
      case Throws(e) => Throws(e)
      case Ok((x, k)) =>
        if tag % 8 == 0 then Ok((Field(tag / 8, Number(x)), n + k))
        else if tag % 8 == 2 && n + k + x <= |s| then Ok((Field(tag / 8, Chunk(s[n + k..n + k + x])), n + k + x))
        else Throws(RangeError)
  }

  /** Every parser of the standard sees the client's varint as the low 32 bits of the Number. */
  lemma ParseJsVarint(v: nat, rest: seq<Byte>)
    ensures ParseVarint(JsVarint(v) + rest) == Ok((ToUint32(v), |JsVarint(v)|))
  {
    hide JsVarint;
    var u := ToUint32(v);
    if v < 128 || u > 127 {
      SameLowBits(v);
      JsVarintCanonical(u);
      hide ParseVarint, Canonical, ToUint32;
      ParseCanonical(u, rest);
    } else {
      TwoBytes(v);
      var s := [128 + u, 0] + rest;
      assert s[1..] == [0] + rest;
      assert ParseVarint(s[1..]) == Ok((0, 1));
    }
  }

  lemma ParseTag(tag: Byte, rest: seq<Byte>)
    requires tag < 128
    ensures ParseVarint([tag] + rest) == Ok((tag as int, 1)) && ([tag] + rest)[1..] == rest
  {
  }

  function NumberBytes(field: nat, v: nat): seq<Byte>
    requires field < 15
  {
    [8 * field] + JsVarint(v)
  }

  function ChunkBytes(field: nat, c: seq<Byte>): seq<Byte>
    requires field < 15
  {
    [8 * field + 2] + (JsVarint(|c|) + c)
  }

  /** The bytes the encoders push for one field. */
  function WireOne(f: Field): seq<Byte>
    requires f.number < 15
  {
    match f.payload
    case Number(v) => NumberBytes(f.number, v)
    case Chunk(c) => ChunkBytes(f.number, c)
  }

  /** Numbers arrive as their low 32 bits, so as themselves exactly below 2^32. */
  function AsParsed(f: Field): Field {
    match f.payload
    case Number(v) => f.(payload := Number(ToUint32(v)))
    case Chunk(_) => f
  }

  ghost predicate Short(f: Field) {
    f.number < 15 && (f.payload.Chunk? ==> |f.payload.s| < TWO_32)
  }

  lemma NumberField(field: nat, v: nat, rest: seq<Byte>)
    requires field < 15
    ensures ParseField(NumberBytes(field, v) + rest)
         == Ok((Field(field, Number(ToUint32(v))), |NumberBytes(field, v)|))
  {
    hide JsVarint, ParseVarint, ToUint32;
    var e := JsVarint(v);
    assert [8 * field] + e + rest == [8 * field] + (e + rest);
    ParseTag(8 * field, e + rest);
    ParseJsVarint(v, rest);
  }

  lemma ChunkField(field: nat, c: seq<Byte>, rest: seq<Byte>)
    requires field < 15 && |c| < TWO_32
    ensures ParseField(ChunkBytes(field, c) + rest) == Ok((Field(field, Chunk(c)), |ChunkBytes(field, c)|))
  {
    hide JsVarint, ParseVarint;
    var e := JsVarint(|c|);
    var s := [8 * field + 2] + (e + c) + rest;
    assert s == [8 * field + 2] + (e + (c + rest));
    ParseTag(8 * field + 2, e + (c + rest));
    ParseJsVarint(|c|, c + rest);
    assert ToUint32(|c|) == |c|;
    hide ToUint32;
    assert s == ([8 * field + 2] + e) + c + rest;
    SliceThird([8 * field + 2] + e, c, rest);
  }

  lemma SliceThird(a: seq<Byte>, c: seq<Byte>, rest: seq<Byte>)
    ensures (a + c + rest)[|a|..|a| + |c|] == c && (a + c + rest)[|a| + |c|..] == rest
  {
  }

  lemma ParseWireOne(f: Field, rest: seq<Byte>)
    requires Short(f)
    ensures ParseField(WireOne(f) + rest) == Ok((AsParsed(f), |WireOne(f)|))
  {
    hide NumberBytes, ChunkBytes, ParseField, ToUint32;
    match f.payload {
      case Number(v) => NumberField(f.number, v, rest);
      case Chunk(c) => ChunkField(f.number, c, rest);
    }
  }

  lemma ParseCons(f: Field, rest: seq<Byte>, fs: seq<Field>)
    requires Short(f) && ParseFields(rest) == Ok(fs)
    ensures ParseFields(WireOne(f) + rest) == Ok([AsParsed(f)] + fs)
  {
    hide WireOne, ParseField, AsParsed;
    ParseWireOne(f, rest);
    assert (WireOne(f) + rest)[|WireOne(f)|..] == rest;
  }

  predicate Tagged(fs: seq<Field>) {
    forall f <- fs :: f.number < 15
  }

  function WireAll(fs: seq<Field>): seq<Byte>
    requires Tagged(fs)
  {
    if fs == [] then [] else WireOne(fs[0]) + WireAll(fs[1..])
  }

  function AllParsed(fs: seq<Field>): seq<Field> {
    if fs == [] then [] else [AsParsed(fs[0])] + AllParsed(fs[1..])
  }

  /** A standard parser recovers any fields the client pushes, in order, with nothing left over. */
  lemma {:induction false} ParseAll(fs: seq<Field>)
    requires Tagged(fs) && forall f <- fs :: Short(f)
    ensures ParseFields(WireAll(fs)) == Ok(AllParsed(fs))
  {
    hide WireOne, AsParsed;
    if fs != [] {
      hide ParseFields;
      ParseAll(fs[1..]);
      ParseCons(fs[0], WireAll(fs[1..]), AllParsed(fs[1..]));
    }
  }

  lemma {:induction false} WireSnoc(fs: seq<Field>, f: Field)
    requires f.number < 15 && Tagged(fs)
    ensures Tagged(fs + [f]) && WireAll(fs + [f]) == WireAll(fs) + WireOne(f)
  {
    hide WireOne;
    if fs == [] {
      assert [f][1..] == [];
    } else {
      WireSnoc(fs[1..], f);
      assert (fs + [f])[1..] == fs[1..] + [f];
    }
  }

  // ----- the encoders -----

  /** `(field << 3) | wire` */
  function Tag(field: nat, wire: nat): (r: Byte)
    requires field < 16 && wire < 8
    ensures r == 8 * field + wire
  {
    TagIsSum(field, wire);
    Or(Shl(field, 3), wire)
  }

  lemma TagIsSum(field: nat, wire: nat)
    requires field < 16 && wire < 8
    ensures Or(Shl(field, 3), wire) == 8 * field + wire
  {
    ShlTag(field);
    TagBits(field, wire);
    TagFits(8 * field + wire);
    TagFits(wire);
    hide *;
    OrOfBits(Shl(field, 3), wire, 8 * field + wire);
  }

  lemma TagBits(field: nat, wire: nat)
    requires field < 16 && wire < 8
    ensures BitOr(8 * field, wire) == 8 * field + wire
  {
    assert Pow2(3) == 8;
    hide BitOr;
    DisjointOrIsSum(wire, field, 3);
    OrCommutes(wire, 8 * field);
  }

  lemma TagFits(x: nat)
    requires x < 128
    ensures ToUint32(x) == x == ToInt32(x)
  {
  }

  lemma ShlTag(field: nat)
    requires field < 16
    ensures ToUint32(Shl(field, 3)) == 8 * field
  {
    assert Pow2(3 % 32) == Pow2(3) == 8;
  }

  lemma {:induction false} OrCommutes(a: nat, b: nat)
    ensures BitOr(a, b) == BitOr(b, a)
  {
    if a != 0 && b != 0 {
      OrCommutes(a / 2, b / 2);
    }
  }

  lemma WireParts(f: Field)
    requires f.number < 15
    ensures match f.payload {
      case Number(v) => WireOne(f) == [8 * f.number] + JsVarint(v)
      case Chunk(c) => WireOne(f) == [8 * f.number + 2] + (JsVarint(|c|) + c) }
  {
    hide JsVarint;
  }

  /** `done` and `all` are the fields pushed so far, before and after. */
  method PushNumber(buffer: seq<Byte>, ghost done: seq<Field>, field: nat, v: nat)
    returns (r: seq<Byte>, ghost all: seq<Field>)
    requires field < 15 && Tagged(done) && buffer == WireAll(done)
    ensures r == buffer + WireOne(Field(field, Number(v)))
    ensures all == done + [Field(field, Number(v))] && Tagged(all) && r == WireAll(all)
  {
    all := done + [Field(field, Number(v))];
    WireSnoc(done, Field(field, Number(v)));
    WireParts(Field(field, Number(v)));
    hide *;
    var bytes := EncodeVarint(v);
    r := buffer + ([Tag(field, 0)] + bytes);
  }

  method PushChunk(buffer: seq<Byte>, ghost done: seq<Field>, field: nat, c: seq<Byte>)
    returns (r: seq<Byte>, ghost all: seq<Field>)
    requires field < 15 && Tagged(done) && buffer == WireAll(done)
    ensures r == buffer + WireOne(Field(field, Chunk(c)))
    ensures all == done + [Field(field, Chunk(c))] && Tagged(all) && r == WireAll(all)
  {
    all := done + [Field(field, Chunk(c))];
    WireSnoc(done, Field(field, Chunk(c)));
    WireParts(Field(field, Chunk(c)));
    hide *;
    var bytes := EncodeVarint(|c|);
    r := buffer + ([Tag(field, 2)] + (bytes + c));
  }

  /** SendMessageReq: sender_id, receiver_id, type, content. The client's constant 1 is IMAGE in chat.proto. */
  method EncodeMsgSendReq(senderId: nat, receiverId: nat, content: seq<Byte>) returns (r: seq<Byte>)
    ensures |content| < TWO_32 ==> ParseFields(r) == Ok([
      Field(1, Number(ToUint32(senderId))), Field(2, Number(ToUint32(receiverId))),
      Field(4, Number(1)), Field(5, Chunk(content))])
  {
    assert Tagged([]) && WireAll([]) == [];
    hide WireAll, Tagged, WireOne, ParseFields, AllParsed;
    ghost var fs;
    r, fs := PushNumber([], [], 1, senderId);
    r, fs := PushNumber(r, fs, 2, receiverId);
    r, fs := PushNumber(r, fs, 4, 1);
    r, fs := PushChunk(r, fs, 5, content);
    assert fs == [fs[0], fs[1], fs[2], fs[3]];
    FourParsed(fs[0], fs[1], fs[2], fs[3]);
    if |content| < TWO_32 {
      ParseAll(fs);
    }
  }

  /** SendMessageReq to a group: sender_id, group_id, type, content. */
  method EncodeGroupMsgReq(senderId: nat, groupId: nat, content: seq<Byte>) returns (r: seq<Byte>)
    ensures |content| < TWO_32 ==> ParseFields(r) == Ok([
      Field(1, Number(ToUint32(senderId))), Field(3, Number(ToUint32(groupId))),
      Field(4, Number(1)), Field(5, Chunk(content))])
  {
    assert Tagged([]) && WireAll([]) == [];
    hide WireAll, Tagged, WireOne, ParseFields, AllParsed;
    ghost var fs;
    r, fs := PushNumber([], [], 1, senderId);
    r, fs := PushNumber(r, fs, 3, groupId);
    r, fs := PushNumber(r, fs, 4, 1);
    r, fs := PushChunk(r, fs, 5, content);
    assert fs == [fs[0], fs[1], fs[2], fs[3]];
    FourParsed(fs[0], fs[1], fs[2], fs[3]);
    if |content| < TWO_32 {
      ParseAll(fs);
    }
  }

  /** SyncMessagesReq: user_id, local_seq, limit. */
  method EncodeMsgSyncReq(userId: nat, localMaxSeq: nat, limit: nat) returns (r: seq<Byte>)
    ensures ParseFields(r) == Ok([
      Field(1, Number(ToUint32(userId))), Field(2, Number(ToUint32(localMaxSeq))),
      Field(3, Number(ToUint32(limit)))])
  {
    assert Tagged([]) && WireAll([]) == [];
    hide WireAll, Tagged, WireOne, ParseFields, AllParsed;
    ghost var fs;
    r, fs := PushNumber([], [], 1, userId);
    r, fs := PushNumber(r, fs, 2, localMaxSeq);
    r, fs := PushNumber(r, fs, 3, limit);
    assert fs == [fs[0], fs[1], fs[2]];
    ThreeParsed(fs[0], fs[1], fs[2]);
    ParseAll(fs);
  }

  /** ApplyFriendReq: user_id, friend_id, remark. */
  method EncodeFriendApplyReq(userId: nat, targetUserId: nat, reason: seq<Byte>) returns (r: seq<Byte>)
    ensures |reason| < TWO_32 ==> ParseFields(r) == Ok([
      Field(1, Number(ToUint32(userId))), Field(2, Number(ToUint32(targetUserId))),
      Field(3, Chunk(reason))])
  {
    assert Tagged([]) && WireAll([]) == [];
    hide WireAll, Tagged, WireOne, ParseFields, AllParsed;
    ghost var fs;
    r, fs := PushNumber([], [], 1, userId);
    r, fs := PushNumber(r, fs, 2, targetUserId);
    r, fs := PushChunk(r, fs, 3, reason);
    assert fs == [fs[0], fs[1], fs[2]];
    ThreeParsed(fs[0], fs[1], fs[2]);
    if |reason| < TWO_32 {
      ParseAll(fs);
    }
  }

  /** AcceptFriendReq: user_id, apply_id (always 0), requester_id, accept. */
  method EncodeFriendHandleReq(userId: nat, requestUserId: nat, agree: bool) returns (r: seq<Byte>)
    ensures ParseFields(r) == Ok([
      Field(1, Number(ToUint32(userId))), Field(2, Number(0)),
      Field(3, Number(ToUint32(requestUserId))), Field(4, Number(if agree then 1 else 0))])
  {
    assert Tagged([]) && WireAll([]) == [];
    hide WireAll, Tagged, WireOne, ParseFields, AllParsed;
    ghost var fs;
    r, fs := PushNumber([], [], 1, userId);
    r, fs := PushNumber(r, fs, 2, 0);
    r, fs := PushNumber(r, fs, 3, requestUserId);
    r, fs := PushNumber(r, fs, 4, if agree then 1 else 0);
    assert fs == [fs[0], fs[1], fs[2], fs[3]];
    FourParsed(fs[0], fs[1], fs[2], fs[3]);
    ParseAll(fs);
  }

  lemma ThreeParsed(a: Field, b: Field, c: Field)
    ensures AllParsed([a, b, c]) == [AsParsed(a), AsParsed(b), AsParsed(c)]
  {
    assert [a, b, c][1..] == [b, c] && [b, c][1..] == [c];
    assert AllParsed([c]) == [AsParsed(c)];
  }

  lemma FourParsed(a: Field, b: Field, c: Field, d: Field)
    ensures AllParsed([a, b, c, d]) == [AsParsed(a), AsParsed(b), AsParsed(c), AsParsed(d)]
  {
    assert [a, b, c, d][1..] == [b, c, d];
    ThreeParsed(b, c, d);
  }
}
