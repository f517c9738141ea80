// The encoding of a sync reply against chat.proto: a schema-independent parser
// finds every value at its field number, and nothing else.

module SyncSchema {
  import opened JsBits
  import opened Varint
  import opened Requests
  import S = SyncCodec

  lemma {:induction false} VarintStable(s: seq<Byte>, t: seq<Byte>)
    requires ParseVarint(s).Ok?
    ensures ParseVarint(s + t) == ParseVarint(s)
  {
    if s[0] >= 128 {
      VarintStable(s[1..], t);
      assert (s + t)[1..] == s[1..] + t;
    }
  }

  /** What follows a whole field does not change it. */
  lemma FieldStable(s: seq<Byte>, t: seq<Byte>)
    requires ParseField(s).Ok?
    ensures ParseField(s + t) == ParseField(s)
  {
    VarintStable(s, t);
    hide ParseVarint;
    var n := ParseVarint(s).value.1;
    assert (s + t)[n..] == s[n..] + t;
    VarintStable(s[n..], t);
    var k, x := ParseVarint(s[n..]).value.1, ParseVarint(s[n..]).value.0;
    if n + k + x <= |s| {
      assert (s + t)[n + k..n + k + x] == s[n + k..n + k + x];
    }
  }

  lemma {:induction false} FieldsAppend(a: seq<Byte>, b: seq<Byte>)
    requires ParseFields(a).Ok? && ParseFields(b).Ok?
    ensures ParseFields(a + b) == Ok(ParseFields(a).value + ParseFields(b).value)
    decreases |a|
  {
    if a == [] {
      assert a + b == b;
      assert [] + ParseFields(b).value == ParseFields(b).value;
    } else {
      var n := FieldThen(a, b);
      FieldsAppend(a[n..], b);
      Regroup([ParseField(a).value.0], ParseFields(a[n..]).value, ParseFields(b).value);
      hide ParseField, ParseFields;
    }
  }

  lemma Regroup(x: seq<Field>, y: seq<Field>, z: seq<Field>)
    ensures x + (y + z) == (x + y) + z
  {
  }

  /** One step of the parse, of a and of a followed by b. */
  lemma FieldThen(a: seq<Byte>, b: seq<Byte>) returns (n: nat)
    requires a != [] && ParseFields(a).Ok?
    ensures ParseField(a).Ok? && 0 < n <= |a| && ParseFields(a[n..]).Ok?
    ensures ParseFields(a).value == [ParseField(a).value.0] + ParseFields(a[n..]).value
    ensures ParseFields(a[n..] + b).Ok? ==>
      ParseFields(a + b) == Ok([ParseField(a).value.0] + ParseFields(a[n..] + b).value)
  {
    n := ParseField(a).value.1;
    FieldStable(a, b);
    hide ParseField;
    assert (a + b)[n..] == a[n..] + b;
  }

  /** proto3 leaves a zero and an empty string out. */
  function NumberAt(field: nat, v: nat): seq<Field> {
    if v == 0 then [] else [Field(field, Number(v))]
  }

  function ChunkAt(field: nat, s: seq<Byte>): seq<Field> {
    if s == [] then [] else [Field(field, Chunk(s))]
  }

  lemma OneField(s: seq<Byte>, f: Field)
    requires s != [] && ParseField(s) == Ok((f, |s|))
    ensures ParseFields(s) == Ok([f])
  {
    var none: seq<Field> := [];
    assert ParseFields([]) == Ok(none) && [f] + none == [f];
    hide ParseField;
    assert s[|s|..] == [];
  }

  lemma NumberFields(field: nat, v: nat)
    requires field < 16
    ensures ParseFields(S.VarintField(field, v)) == Ok(NumberAt(field, v))
  {
    if v > 0 {
      var s := S.VarintField(field, v);
      ParseTag(8 * field, Canonical(v));
      ParseCanonical(v, []);
      assert Canonical(v) + [] == Canonical(v);
      hide ParseVarint, Canonical;
      OneField(s, Field(field, Number(v)));
    }
  }

  lemma DelimitedField(field: nat, c: seq<Byte>)
    requires field < 15
    ensures ParseFields(S.LengthDelimited(field, c)) == Ok([Field(field, Chunk(c))])
  {
    var s, n := S.LengthDelimited(field, c), Canonical(|c|);
    assert s == [8 * field + 2] + (n + c);
    ParseTag(8 * field + 2, n + c);
    ParseCanonical(|c|, c);
    hide ParseVarint, Canonical, ParseFields;
    assert s[1 + |n|..1 + |n| + |c|] == c;
    OneField(s, Field(field, Chunk(c)));
  }

  lemma ChunkFields(field: nat, c: seq<Byte>)
    requires field < 15
    ensures ParseFields(S.BytesField(field, c)) == Ok(ChunkAt(field, c))
  {
    hide S.LengthDelimited, ParseField;
    if c != [] {
      DelimitedField(field, c);
    }
  }

  /** MessageItem: msg_id 1, seq_id 2, sender_id 3, group_id 4, type 5, content 6, created_at 7. */
  lemma ItemSchema(m: S.MessageItem)
    ensures ParseFields(S.EncodeItem(m)) == Ok(
      NumberAt(1, m.msgId) + (NumberAt(2, m.seqId) + (NumberAt(3, m.senderId) + (NumberAt(4, m.groupId)
      + (NumberAt(5, m.kind) + (ChunkAt(6, m.content) + ChunkAt(7, m.createdAt)))))))
  {
    NumberFields(1, m.msgId);
    NumberFields(2, m.seqId);
    NumberFields(3, m.senderId);
    NumberFields(4, m.groupId);
    NumberFields(5, m.kind);
    ChunkFields(6, m.content);
    ChunkFields(7, m.createdAt);
    hide ParseFields, S.VarintField, S.BytesField, NumberAt, ChunkAt;
    var f6 := S.BytesField(6, m.content) + S.BytesField(7, m.createdAt);
    var f5 := S.VarintField(5, m.kind) + f6;
    var f4 := S.VarintField(4, m.groupId) + f5;
    var f3 := S.VarintField(3, m.senderId) + f4;
    FieldsAppend(S.BytesField(6, m.content), S.BytesField(7, m.createdAt));
    FieldsAppend(S.VarintField(5, m.kind), f6);
    FieldsAppend(S.VarintField(4, m.groupId), f5);
    FieldsAppend(S.VarintField(3, m.senderId), f4);
    FieldsAppend(S.VarintField(2, m.seqId), f3);
    FieldsAppend(S.VarintField(1, m.msgId), S.VarintField(2, m.seqId) + f3);
  }

  function Nested(ms: seq<S.MessageItem>): seq<Field> {
    if ms == [] then [] else [Field(2, Chunk(S.EncodeItem(ms[0])))] + Nested(ms[1..])
  }

  lemma {:induction false} NestedFields(ms: seq<S.MessageItem>)
    ensures ParseFields(S.EncodeItems(ms)) == Ok(Nested(ms))
  {
    hide S.EncodeItem, S.LengthDelimited, ParseField;
    if ms != [] {
      DelimitedField(2, S.EncodeItem(ms[0]));
      NestedFields(ms[1..]);
      hide ParseFields;
      FieldsAppend(S.LengthDelimited(2, S.EncodeItem(ms[0])), S.EncodeItems(ms[1..]));
    }
  }

  /** SyncMessagesResp: max_seq 1, msgs 2 (each a whole MessageItem, in order), success 3. */
  lemma RespSchema(r: S.SyncResp)
    ensures ParseFields(S.EncodeResp(r))
         == Ok(NumberAt(1, r.maxSeq) + (Nested(r.msgs) + NumberAt(3, if r.success then 1 else 0)))
  {
    var ok := if r.success then 1 else 0;
    NumberFields(1, r.maxSeq);
    NestedFields(r.msgs);
    NumberFields(3, ok);
    hide ParseFields, S.VarintField, S.EncodeItems, NumberAt, Nested;
    FieldsAppend(S.EncodeItems(r.msgs), S.VarintField(3, ok));
    FieldsAppend(S.VarintField(1, r.maxSeq), S.EncodeItems(r.msgs) + S.VarintField(3, ok));
  }
}
