// Base-128 varints: the canonical form of the Protocol Buffers encoding
// specification ("Base 128 Varints") and the web client's 32-bit coder for it.

module Varint {
  import opened Arith
  import opened JsBits

  datatype Result<+T> = Ok(value: T) | Throws(error: Exception)

  datatype Exception = VarintOutOfBounds | RangeError | MessageTooShort

  // ----- the standard -----

  /** The shortest base-128 form: low group first, continuation bit on all but the last. */
  function Canonical(v: nat): (r: seq<Byte>)
    ensures |r| >= 1
  {
    if v < 128 then [v] else [128 + v % 128] + Canonical(v / 128)
  }

  /** Reads one varint of any size off the front: its value and its length. */
  function ParseVarint(s: seq<Byte>): (r: Result<(nat, nat)>)
    ensures r.Ok? ==> 1 <= r.value.1 <= |s|
  {
    if s == [] then Throws(VarintOutOfBounds)
    else if s[0] < 128 then Ok((s[0], 1))
    else match ParseVarint(s[1..])
      case Ok((v, n)) => Ok((s[0] - 128 + 128 * v, n + 1))
      case Throws(e) => Throws(e)
  }

  lemma {:induction false} ParseCanonical(v: nat, rest: seq<Byte>)
    ensures ParseVarint(Canonical(v) + rest) == Ok((v, |Canonical(v)|))
  {
    if v >= 128 {
      ParseCanonical(v / 128, rest);
      assert (Canonical(v) + rest)[1..] == Canonical(v / 128) + rest;
    }
  }

  /** No canonical form starts another one. */
  lemma CanonicalPrefixFree(v: nat, w: nat)
    requires Canonical(v) <= Canonical(w)
    ensures v == w
  {
    var rest := Canonical(w)[|Canonical(v)|..];
    assert Canonical(w) == Canonical(v) + rest;
    ParseCanonical(v, rest);
    ParseCanonical(w, []);
    assert Canonical(w) + [] == Canonical(w);
  }

  // ----- the encoder -----

  /** `value & 0x7F` */
  function LastGroup(value: int): (r: Byte)
    ensures r == value % 128
  {
    And127(value);
    And(value, 0x7F)
  }

  /** `(value & 0x7F) | 0x80` */
  function MoreGroup(value: int): (r: Byte)
    ensures r == 128 + value % 128
  {
    var g := LastGroup(value);
    Or128(g);
    Or(g, 0x80)
  }

  /** `value >>>= 7` */
  function Ushr7(value: int): (r: nat)
    ensures r == ToUint32(value) / 128
    ensures value > 127 ==> r < value
  {
    assert Pow2(7) == 128;
    Ushr(value, 7)
  }

  /** The bytes the client's loop pushes for a Number. */
  function JsVarint(value: int): seq<Byte>
    decreases if value > 127 then value else 0
  {
    if value > 127 then [MoreGroup(value)] + JsVarint(Ushr7(value)) else [LastGroup(value)]
  }

  method EncodeVarint(value: int) returns (bytes: seq<Byte>)
    ensures bytes == JsVarint(value)
    ensures 0 <= value < TWO_32 ==> bytes == Canonical(value)
    ensures value <= 127 ==> bytes == [value % 128]
  {
    var v := value;
    bytes := [];
    while v > 127
      invariant JsVarint(value) == bytes + JsVarint(v)
      decreases if v > 127 then v else 0
    {
      bytes := bytes + [MoreGroup(v)];
      v := Ushr7(v);
    }
    bytes := bytes + [LastGroup(v)];
    if 0 <= value < TWO_32 {
      JsVarintCanonical(value);
    }
  }

  lemma {:induction false} JsVarintCanonical(value: nat)
    requires value < TWO_32
    ensures JsVarint(value) == Canonical(value)
  {
    hide LastGroup, MoreGroup, Ushr7;
    if value > 127 {
      assert Ushr7(value) == value / 128;
      hide ToUint32;
      JsVarintCanonical(value / 128);
    }
  }

  /** Every non-negative integer is encoded canonically exactly up to 2^32. */
  lemma EncoderExact(value: nat)
    ensures JsVarint(value) == Canonical(value) <==> value < TWO_32
  {
    if value < TWO_32 {
      JsVarintCanonical(value);
    } else {
      TruncatedTail(value);
    }
  }

  lemma TruncatedTail(value: nat)
    requires value >= TWO_32
    ensures JsVarint(value) != Canonical(value)
  {
    hide LastGroup, MoreGroup, ToUint32;
    var t := Ushr7(value);
    assert t < 0x200_0000 <= value / 128;
    JsVarintCanonical(t);
    assert JsVarint(value)[1..] == Canonical(t);
    assert Canonical(value)[1..] == Canonical(value / 128);
    hide Canonical, JsVarint;
    if Canonical(t) == Canonical(value / 128) {
      CanonicalPrefixFree(t, value / 128);
    }
  }

  // ----- the decoder -----

  /** The decoder's loop from byte `at` on, with the value and shift so far. */
  function JsDecode(s: seq<Byte>, at: nat, value: int, shift: nat): (r: Result<(int, nat)>)
    requires at <= |s|
    requires -TWO_31 <= value < TWO_31
    ensures r.Ok? ==> at < r.value.1 <= |s| && -TWO_31 <= r.value.0 < TWO_31
    decreases |s| - at
  {
    if at >= |s| then Throws(VarintOutOfBounds)
    else
      var v := Or(value, Shl(And(s[at], 0x7F), shift));
      if And(s[at], 0x80) == 0 then Ok((v, at + 1)) else JsDecode(s, at + 1, v, shift + 7)
  }

  /** decodeVarint(view, offset) on a view of `s`: the value and the length read. A cursor moved before
      the view is not caught by the loop's test; the read itself throws. */
  function DecodeAt(s: seq<Byte>, offset: int): (r: Result<(int, nat)>)
    ensures r.Ok? ==> 0 <= offset && 1 <= r.value.1 && offset + r.value.1 <= |s| && -TWO_31 <= r.value.0 < TWO_31
  {
    if offset < 0 then Throws(RangeError)
    else if offset > |s| then Throws(VarintOutOfBounds)
    else match JsDecode(s, offset, 0, 0)
      case Ok((v, end)) => Ok((v, end - offset))
      case Throws(e) => Throws(e)
  }

  method DecodeVarint(view: seq<Byte>, offset: int) returns (r: Result<(int, nat)>)
    ensures r == DecodeAt(view, offset)
  {
    var value, shift, length := 0, 0, 0;
    while true
      invariant -TWO_31 <= value < TWO_31
      invariant shift == 7 * length
      invariant offset < 0 ==> length == 0
      invariant 0 <= offset <= |view| ==> offset + length <= |view|
      invariant 0 <= offset <= |view| ==> JsDecode(view, offset, 0, 0) == JsDecode(view, offset + length, value, shift)
      decreases |view| - length
    {
      if offset + length >= |view| { return Throws(VarintOutOfBounds); }
      if offset + length < 0 { return Throws(RangeError); }
      var byte := view[offset + length];
      value := Or(value, Shl(And(byte, 0x7F), shift));
      shift := shift + 7;
      length := length + 1;
      if And(byte, 0x80) == 0 { break; }
    }
    return Ok((value, length));
  }

  /** A read ends at the first byte below 128, and throws exactly if there is none or the offset lies
      before the view. */
  lemma DecodeEnds(s: seq<Byte>, offset: int)
    ensures DecodeAt(s, offset).Throws? <==> offset < 0 || forall i | offset <= i < |s| :: s[i] >= 128
    ensures DecodeAt(s, offset).Ok? ==>
      var end := offset + DecodeAt(s, offset).value.1;
      0 <= offset < end <= |s| && s[end - 1] < 128 && forall i | offset <= i < end - 1 :: s[i] >= 128
  {
    if 0 <= offset <= |s| {
      LoopEnds(s, offset, 0, 0);
      hide JsDecode;
    }
  }

  lemma {:induction false} LoopEnds(s: seq<Byte>, at: nat, value: int, shift: nat)
    requires at <= |s| && -TWO_31 <= value < TWO_31
    ensures var r := JsDecode(s, at, value, shift);
      if r.Throws? then r == Throws(VarintOutOfBounds) && forall i | at <= i < |s| :: s[i] >= 128
      else s[r.value.1 - 1] < 128 && forall i | at <= i < r.value.1 - 1 :: s[i] >= 128
    decreases |s| - at
  {
    if at < |s| {
      DecodeStep(s, at, value, shift);
      hide JsDecode, Or, Shl;
      if s[at] >= 128 {
        LoopEnds(s, at + 1, Or(value, Shl(s[at] % 128, shift)), shift + 7);
      }
    }
  }

  /** Past 32 bits the shift count wraps: the sixth group of a varint lands on bit 3. */
  lemma SixthGroupWraps(s: seq<Byte>)
    requires s == [0x80, 0x80, 0x80, 0x80, 0x80, 0x01]
    ensures DecodeAt(s, 0) == Ok((8, 6))
  {
    assert |s| == 6 && s[0] == s[1] == s[2] == s[3] == s[4] == 0x80 && s[5] == 1;
    SixGroups(s);
    hide JsDecode;
  }

  lemma SixGroups(s: seq<Byte>)
    requires |s| == 6 && s[0] == s[1] == s[2] == s[3] == s[4] == 0x80 && s[5] == 1
    ensures JsDecode(s, 0, 0, 0) == Ok((8, 6))
  {
    hide *;
    ZeroGroup(s, 0, 0);
    ZeroGroup(s, 1, 7);
    ZeroGroup(s, 2, 14);
    ZeroGroup(s, 3, 21);
    ZeroGroup(s, 4, 28);
    WrappedBit();
    DecodeStep(s, 5, 0, 35);
  }

  lemma WrappedBit()
    ensures Or(0, Shl(1, 35)) == 8
  {
    assert Pow2(35 % 32) == 8;
  }

  lemma ZeroGroup(s: seq<Byte>, at: nat, shift: nat)
    requires at < |s| && s[at] == 0x80
    ensures JsDecode(s, at, 0, shift) == JsDecode(s, at + 1, 0, shift + 7)
  {
    DecodeStep(s, at, 0, shift);
    hide JsDecode;
  }

  lemma Pow2Add7(k: nat)
    ensures Pow2(k + 7) == 128 * Pow2(k)
  {
    assert Pow2(k + 7) == 2 * Pow2(k + 6) && Pow2(k + 6) == 2 * Pow2(k + 5);
    assert Pow2(k + 5) == 2 * Pow2(k + 4) && Pow2(k + 4) == 2 * Pow2(k + 3);
    assert Pow2(k + 3) == 2 * Pow2(k + 2) && Pow2(k + 2) == 2 * Pow2(k + 1);
  }

  lemma {:induction false} Pow2Steps(i: nat)
    requires i <= 4
    ensures Pow2(7 * i) == [1, 128, 0x4000, 0x20_0000, 0x1000_0000][i]
    ensures Pow2(7 * i + 7) == 128 * Pow2(7 * i)
  {
    Pow2Add7(7 * i);
    if i > 0 {
      hide Pow2;
      Pow2Steps(i - 1);
    }
  }

  lemma Expand(t: int, g: int, p: int)
    ensures (128 * t + g) * p == t * (128 * p) + g * p
  {
  }

  /** The number below bit position p * 128, from its part below p and its next group. */
  lemma NextGroup(v: nat, p: nat)
    requires p > 0
    ensures v % (128 * p) == v / p % 128 * p + v % p
    ensures v / (128 * p) == v / p / 128
    ensures v / p % 128 * p <= v
  {
    var w, r := v / p, v % p;
    var t, g := w / 128, w % 128;
    Expand(t, g, p);
    assert v == t * (128 * p) + (g * p + r);
    MulBetween(g, p);
    assert t * (128 * p) >= 0;
    DivModUnique(v, 128 * p, t, g * p + r);
  }

  lemma MulBetween(g: int, p: int)
    requires 0 <= g < 128 && p > 0
    ensures 0 <= g * p <= 127 * p
  {
    assert (127 - g) * p >= 0;
  }

  /** One iteration on the group at bit position 7i, while the number fits 32 bits. */
  lemma GroupStep(v: nat, i: nat)
    requires v < TWO_32 && i <= 4
    ensures Or(v % Pow2(7 * i), Shl(v / Pow2(7 * i) % 128, 7 * i)) == ToInt32(v % Pow2(7 * i + 7))
    ensures v / Pow2(7 * i + 7) == v / Pow2(7 * i) / 128
  {
    Pow2Small(v, Pow2(7 * i));
    hide *;
    Pow2Steps(i);
    var p := Pow2(7 * i);
    NextGroup(v, p);
    ShlGroup(v / p % 128, i);
    DisjointOrIsSum(v % p, v / p % 128, 7 * i);
    OrOfBits(v % p, Shl(v / p % 128, 7 * i), v % (128 * p));
  }

  lemma Pow2Small(v: nat, p: nat)
    requires v < TWO_32 && p > 0
    ensures ToUint32(v % p) == v % p
  {
    assert v % p <= v;
  }

  lemma ShlGroup(group: nat, i: nat)
    requires i <= 4 && group < 128
    requires group * Pow2(7 * i) < TWO_32
    ensures ToUint32(Shl(group, 7 * i)) == group * Pow2(7 * i)
  {
    hide Pow2;
    Pow2Steps(i);
    assert 7 * i % 32 == 7 * i;
  }

  /** The loop's state before the group at bit position 7i: what is left to read and what is read. */
  ghost predicate AtGroup(v: nat, i: nat, left: nat, read: int) {
    v < TWO_32 && i <= 4 && left == v / Pow2(7 * i) && read == v % Pow2(7 * i) && read < TWO_31
  }

  /** One unrolling of the decoder's loop. */
  lemma DecodeStep(s: seq<Byte>, at: nat, value: int, shift: nat)
    requires at < |s| && -TWO_31 <= value < TWO_31
    ensures var v := Or(value, Shl(s[at] % 128, shift));
      JsDecode(s, at, value, shift) == if s[at] < 128 then Ok((v, at + 1)) else JsDecode(s, at + 1, v, shift + 7)
  {
    hide And, Or, Shl;
    And127(s[at]);
    And128(s[at]);
  }

  lemma CanonicalHead(left: nat, s: seq<Byte>, at: nat)
    requires at <= |s| && Canonical(left) <= s[at..]
    ensures at < |s| && s[at] % 128 == left % 128 && (s[at] < 128 <==> left < 128)
    ensures left >= 128 ==> Canonical(left / 128) <= s[at + 1..] && |Canonical(left)| == 1 + |Canonical(left / 128)|
    ensures left < 128 ==> |Canonical(left)| == 1
  {
    var enc := Canonical(left);
    assert s[at] == s[at..][0] == enc[0];
    if left >= 128 {
      assert enc[1..] == Canonical(left / 128);
      assert s[at + 1..] == s[at..][1..];
    }
  }

  /** The group loop, from bit position 7i on. */
  lemma {:induction false} DecodeGroups(v: nat, i: nat, left: nat, read: nat, s: seq<Byte>, at: nat)
    requires AtGroup(v, i, left, read)
    requires at <= |s| && Canonical(left) <= s[at..]
    ensures JsDecode(s, at, read, 7 * i) == Ok((ToInt32(v), at + |Canonical(left)|))
    decreases 4 - i
  {
    hide And, Or, Shl, Pow2, ToInt32, JsDecode, Canonical;
    CanonicalHead(left, s, at);
    DecodeStep(s, at, read, 7 * i);
    GroupStep(v, i);
    Pow2Steps(i);
    if left < 128 {
      assert v / Pow2(7 * i + 7) == 0;
      ZeroQuotient(v, Pow2(7 * i + 7));
    } else {
      NextFits(v, i);
      DecodeGroups(v, i + 1, left / 128, v % Pow2(7 * i + 7), s, at + 1);
    }
  }

  lemma ZeroQuotient(v: nat, d: nat)
    requires d > 0 && v / d == 0
    ensures v % d == v
  {
  }

  lemma NextFits(v: nat, i: nat)
    requires i < 4
    ensures v % Pow2(7 * i + 7) < TWO_31
    ensures ToInt32(v % Pow2(7 * i + 7)) == v % Pow2(7 * i + 7)
  {
    Pow2Steps(i);
  }

  /** Whatever follows it, a canonical varint below 2^32 is read back as its low 32 bits, signed. */
  lemma DecodeCanonical(v: nat, s: seq<Byte>, offset: nat)
    requires v < TWO_32
    requires offset <= |s| && Canonical(v) <= s[offset..]
    ensures DecodeAt(s, offset) == Ok((ToInt32(v), |Canonical(v)|))
  {
    hide JsDecode, ToInt32;
    assert Pow2(7 * 0) == 1;
    DecodeGroups(v, 0, v, 0, s, offset);
  }

  /** A one-group value written with a redundant second byte, as the encoder does past 2^32. */
  lemma PaddedZero(u: nat, s: seq<Byte>)
    requires u < 128 && |s| >= 2 && s[0] == 128 + u && s[1] == 0
    ensures DecodeAt(s, 0) == Ok((u, 2))
  {
    hide And, Or, Shl, Pow2;
    And127(s[0]);
    And128(s[0]);
    And127(0);
    And128(0);
    Pow2Steps(0);
    Pow2Steps(1);
    GroupStep(u, 0);
    GroupStep(u, 1);
    assert JsDecode(s, 1, u, 7) == Ok((u, 2));
  }

  /** Round trip of the client's own coder, on every non-negative Number and before any bytes. */
  lemma VarintRoundTrip(v: nat, rest: seq<Byte>)
    ensures DecodeAt(JsVarint(v) + rest, 0) == Ok((ToInt32(v), |JsVarint(v)|))
    ensures DecodeAt(JsVarint(v) + rest, 0) == Ok((v, |JsVarint(v)|)) <==> v < TWO_31
  {
    hide DecodeAt, JsVarint;
    var u := ToUint32(v);
    var s := JsVarint(v) + rest;
    if v < 128 || u > 127 {
      SameLowBits(v);
      JsVarintCanonical(u);
      assert s[0..] == s;
      DecodeCanonical(u, s, 0);
    } else {
      TwoBytes(v);
      PaddedZero(u, s);
    }
  }

  lemma SameLowBits(v: nat)
    requires v < 128 || ToUint32(v) > 127
    ensures JsVarint(v) == JsVarint(ToUint32(v))
  {
    hide LastGroup, MoreGroup, Ushr7, ToUint32;
    ToUint32Facts(v);
    var u := ToUint32(v);
    if v >= 128 {
      assert JsVarint(v) == [MoreGroup(v)] + JsVarint(Ushr7(v));
      assert JsVarint(u) == [MoreGroup(u)] + JsVarint(Ushr7(u));
    }
  }

  lemma ToUint32Facts(v: nat)
    ensures ToUint32(ToUint32(v)) == ToUint32(v)
    ensures ToUint32(v) % 128 == v % 128
    ensures v < TWO_32 ==> ToUint32(v) == v
  {
    ModOfMod32(v, 128, 0x200_0000);
  }

  lemma TwoBytes(v: nat)
    requires v >= 128 && ToUint32(v) < 128
    ensures JsVarint(v) == [128 + ToUint32(v), 0]
  {
    hide LastGroup, MoreGroup;
    ModOfMod32(v, 128, 0x200_0000);
    assert JsVarint(0) == [0];
  }

  /** A canonical varint of any size comes back unchanged exactly below 2^31. */
  lemma DecodeExact(v: nat, rest: seq<Byte>)
    ensures DecodeAt(Canonical(v) + rest, 0) == Ok((v, |Canonical(v)|)) <==> v < TWO_31
  {
    hide JsDecode, Canonical;
    var s := Canonical(v) + rest;
    assert s[0..] == s;
    if v < TWO_31 {
      DecodeCanonical(v, s, 0);
    }
  }
}
