/**
  JavaScript strings as sequences of UTF-16 code units, and the strict UTF-8 transcoding that
  `encodeURIComponent` / `decodeURIComponent` perform on them (section 3 of RFC 3629).
 */
module Utf16 {
  import opened Options

  type Unit = u: int | 0 <= u < 0x1_0000
  type Byte = b: int | 0 <= b < 0x100
  type Text = seq<Unit>

  // The class of a code unit is its quotient by 1024: 54 is a high surrogate, 55 a low one.
  predicate IsHigh(u: Unit) { u / 0x400 == 54 }

  predicate IsLow(u: Unit) { u / 0x400 == 55 }

  predicate IsSurrogate(u: Unit) { IsHigh(u) || IsLow(u) }

  predicate StartsWithPair(s: Text) { |s| >= 2 && IsHigh(s[0]) && IsLow(s[1]) }

  /** No surrogate stands alone. */
  predicate WellFormed(s: Text) {
    if s == [] then true
    else if StartsWithPair(s) then WellFormed(s[2..])
    else !IsSurrogate(s[0]) && WellFormed(s[1..])
  }

  lemma {:induction false} WellFormedConcat(a: Text, b: Text)
    requires WellFormed(a) && WellFormed(b)
    ensures WellFormed(a + b)
  {
    if a == [] {
      assert a + b == b;
    } else if StartsWithPair(a) {
      WellFormedConcat(a[2..], b);
      assert (a + b)[2..] == a[2..] + b;
    } else {
      WellFormedConcat(a[1..], b);
      assert (a + b)[1..] == a[1..] + b;
    }
  }

  /** Text without surrogates, such as ASCII, is well-formed. */
  lemma {:induction false} WellFormedPlain(a: Text)
    requires forall i :: 0 <= i < |a| ==> !IsSurrogate(a[i])
    ensures WellFormed(a)
  {
    if a != [] {
      WellFormedPlain(a[1..]);
    }
  }

  // ---- UTF-8 -------------------------------------------------------------

  function EncodeUnit(u: Unit): seq<Byte>
    requires !IsSurrogate(u)
  {
    if u < 0x80 then [u]
    else if u < 0x800 then [0xC0 + u / 64, 0x80 + u % 64]
    else [0xE0 + u / 4096, 0x80 + u / 64 % 64, 0x80 + u % 64]
  }

  function CodePoint(hi: Unit, lo: Unit): (c: int)
    requires IsHigh(hi) && IsLow(lo)
    ensures 0x1_0000 <= c < 0x11_0000
  {
    0x1_0000 + (hi - 0xD800) * 0x400 + (lo - 0xDC00)
  }

  function EncodePoint(c: int): seq<Byte>
    requires 0x1_0000 <= c < 0x11_0000
  {
    [0xF0 + c / 0x4_0000, 0x80 + c / 4096 % 64, 0x80 + c / 64 % 64, 0x80 + c % 64]
  }

  function EncodePair(hi: Unit, lo: Unit): seq<Byte>
    requires IsHigh(hi) && IsLow(lo)
  {
    EncodePoint(CodePoint(hi, lo))
  }

  /** The bytes of a string, or None where `encodeURIComponent` throws. */
  function Encode(s: Text): Option<seq<Byte>> {
    if s == [] then Some([])
    else if StartsWithPair(s) then
      match Encode(s[2..])
      case None => None
      case Some(tail) => Some(EncodePair(s[0], s[1]) + tail)
    else if IsSurrogate(s[0]) then None
    else
      match Encode(s[1..])
      case None => None
      case Some(tail) => Some(EncodeUnit(s[0]) + tail)
  }

  predicate IsTail(b: Byte) { 0x80 <= b < 0xC0 }

  predicate StartsTwo(b: seq<Byte>) {
    |b| >= 2 && 0xC2 <= b[0] <= 0xDF && IsTail(b[1])
  }

  predicate StartsThree(b: seq<Byte>) {
    && |b| >= 3 && 0xE0 <= b[0] <= 0xEF && IsTail(b[1]) && IsTail(b[2])
    && (b[0] == 0xE0 ==> b[1] >= 0xA0)
    && (b[0] == 0xED ==> b[1] < 0xA0)
  }

  predicate StartsFour(b: seq<Byte>) {
    && |b| >= 4 && 0xF0 <= b[0] <= 0xF4 && IsTail(b[1]) && IsTail(b[2]) && IsTail(b[3])
    && (b[0] == 0xF0 ==> b[1] >= 0x90)
    && (b[0] == 0xF4 ==> b[1] < 0x90)
  }

  function DecodeThree(b: seq<Byte>): (u: Unit)
    requires StartsThree(b)
    ensures !IsSurrogate(u) && u >= 0x800
  {
    b[0] as int * 4096 + b[1] as int * 64 + b[2] as int - 0xE_2080
  }

  function DecodeFour(b: seq<Byte>): (c: int)
    requires StartsFour(b)
    ensures 0x1_0000 <= c < 0x11_0000
  {
    b[0] as int * 0x4_0000 + b[1] as int * 4096 + b[2] as int * 64 + b[3] as int - 0x3C8_2080
  }

  function HighOf(c: int): (u: Unit)
    requires 0x1_0000 <= c < 0x11_0000
    ensures IsHigh(u)
  {
    0xD800 + (c - 0x1_0000) / 0x400
  }

  function LowOf(c: int): (u: Unit)
    requires 0x1_0000 <= c < 0x11_0000
    ensures IsLow(u)
  {
    0xDC00 + (c - 0x1_0000) % 0x400
  }

  function Prepend(us: Text, tail: Option<Text>): Option<Text> {
    match tail
    case None => None
    case Some(t) => Some(us + t)
  }

  /** The string a byte sequence encodes, or None where `decodeURIComponent` throws. */
  function Decode(b: seq<Byte>): Option<Text> {
    if b == [] then Some([])
    else if b[0] < 0x80 then Prepend([b[0]], Decode(b[1..]))
    else if StartsTwo(b) then Prepend([b[0] as int * 64 + b[1] as int - 0x3080], Decode(b[2..]))
    else if StartsThree(b) then Prepend([DecodeThree(b)], Decode(b[3..]))
    else if StartsFour(b) then
      var c := DecodeFour(b);
      Prepend([HighOf(c), LowOf(c)], Decode(b[4..]))
    else None
  }

  /** `encodeURIComponent` succeeds exactly on well-formed strings. */
  lemma {:induction false} EncodeDefined(s: Text)
    ensures Encode(s).Some? <==> WellFormed(s)
  {
    if s == [] {
    } else if StartsWithPair(s) {
      EncodeDefined(s[2..]);
    } else {
      EncodeDefined(s[1..]);
    }
  }

  lemma DecodeEncodedUnit(u: Unit, tail: seq<Byte>)
    requires !IsSurrogate(u)
    ensures Decode(EncodeUnit(u) + tail) == Prepend([u], Decode(tail))
  {
    var b := EncodeUnit(u) + tail;
    assert b[|EncodeUnit(u)|..] == tail;
    if 0x80 <= u < 0x800 {
      assert StartsTwo(b);
    } else if u >= 0x800 {
      assert u == u / 4096 * 4096 + u / 64 % 64 * 64 + u % 64;
      assert StartsThree(b) && DecodeThree(b) == u;
    }
  }

  lemma HalvesOf(hi: Unit, lo: Unit)
    requires IsHigh(hi) && IsLow(lo)
    ensures HighOf(CodePoint(hi, lo)) == hi && LowOf(CodePoint(hi, lo)) == lo
  {
  }

  lemma FourBytes(c: int, b: seq<Byte>)
    requires 0x1_0000 <= c < 0x11_0000
    requires |b| == 4
    requires b[0] == 0xF0 + c / 0x4_0000 && b[1] == 0x80 + c / 4096 % 64
    requires b[2] == 0x80 + c / 64 % 64 && b[3] == 0x80 + c % 64
    ensures StartsFour(b) && DecodeFour(b) == c
  {
    var q, r := c / 4096, c % 4096;
    assert c / 0x4_0000 == q / 64 && c / 64 == q * 64 + r / 64;
    assert c / 64 % 64 == r / 64 && c % 64 == r % 64;
  }

  lemma PointOfHalves(c: int)
    requires 0x1_0000 <= c < 0x11_0000
    ensures CodePoint(HighOf(c), LowOf(c)) == c
  {
  }

  lemma AtLeastOnce(d: int, n: int)
    requires d >= 1 && n >= 1
    ensures n * d >= d
  {
  }

  /** Quotient and remainder are unique. */
  lemma DivMod(c: int, d: int, q: int, r: int)
    requires d > 0 && c == q * d + r && 0 <= r < d
    ensures c / d == q && c % d == r
  {
    var gap := q - c / d;
    assert gap * d == c % d - r;
    if gap >= 1 {
      AtLeastOnce(d, gap);
    } else if gap <= -1 {
      AtLeastOnce(d, -gap);
    }
  }

  lemma FourQuotients(c: int, x: int, y: int, z: int, w: int)
    requires 0 <= y < 64 && 0 <= z < 64 && 0 <= w < 64
    requires c == x * 0x4_0000 + y * 4096 + z * 64 + w
    ensures c / 0x4_0000 == x && c / 4096 % 64 == y && c / 64 % 64 == z && c % 64 == w
  {
    DivMod(c, 64, x * 4096 + y * 64 + z, w);
    DivMod(x * 4096 + y * 64 + z, 64, x * 64 + y, z);
    DivMod(c, 4096, x * 64 + y, z * 64 + w);
    DivMod(x * 64 + y, 64, x, y);
    DivMod(c, 0x4_0000, x, y * 4096 + z * 64 + w);
  }

  lemma ThreeQuotients(c: int, x: int, y: int, z: int)
    requires 0 <= y < 64 && 0 <= z < 64 && c == x * 4096 + y * 64 + z
    ensures c / 4096 == x && c / 64 % 64 == y && c % 64 == z
  {
    DivMod(c, 64, x * 64 + y, z);
    DivMod(x * 64 + y, 64, x, y);
    DivMod(c, 4096, x, y * 64 + z);
  }

  lemma FourBytesBack(b: seq<Byte>)
    requires |b| == 4 && StartsFour(b)
    ensures EncodePoint(DecodeFour(b)) == b
  {
    var c := DecodeFour(b);
    FourQuotients(c, b[0] as int - 0xF0, b[1] as int - 0x80, b[2] as int - 0x80, b[3] as int - 0x80);
  }

  lemma ThreeBytesBack(b: seq<Byte>)
    requires |b| == 3 && StartsThree(b)
    ensures EncodeUnit(DecodeThree(b)) == b
  {
    ThreeQuotients(DecodeThree(b), b[0] as int - 0xE0, b[1] as int - 0x80, b[2] as int - 0x80);
  }

  lemma DecodeEncodedPair(hi: Unit, lo: Unit, tail: seq<Byte>)
    requires IsHigh(hi) && IsLow(lo)
    ensures Decode(EncodePair(hi, lo) + tail) == Prepend([hi, lo], Decode(tail))
  {
    var c := CodePoint(hi, lo);
    var four := EncodePair(hi, lo);
    FourBytes(c, four);
    var b := four + tail;
    assert b[4..] == tail;
    assert StartsFour(b) && DecodeFour(b) == c;
    HalvesOf(hi, lo);
  }

  /** Decoding undoes encoding; hence encoding is injective. */
  lemma {:induction false} DecodeEncode(s: Text)
    requires Encode(s).Some?
    ensures Decode(Encode(s).value) == Some(s)
  {
    if s == [] {
    } else if StartsWithPair(s) {
      DecodeEncode(s[2..]);
      DecodeEncodedPair(s[0], s[1], Encode(s[2..]).value);
      assert s == [s[0], s[1]] + s[2..];
    } else {
      DecodeEncode(s[1..]);
      DecodeEncodedUnit(s[0], Encode(s[1..]).value);
      assert s == [s[0]] + s[1..];
    }
  }

  lemma EncodeStep(us: Text, tail: Text)
    requires (|us| == 1 && !IsSurrogate(us[0])) || (|us| == 2 && StartsWithPair(us))
    ensures Encode(us + tail).Some? <==> Encode(tail).Some?
    ensures Encode(tail).Some? ==>
              Encode(us + tail).value ==
              (if |us| == 1 then EncodeUnit(us[0]) else EncodePair(us[0], us[1])) + Encode(tail).value
  {
  }

  lemma OneByteStep(b: seq<Byte>, tail: Text)
    requires b != [] && b[0] < 0x80 && Encode(tail) == Some(b[1..])
    ensures Encode([b[0]] + tail) == Some(b)
  {
    EncodeStep([b[0]], tail);
    assert b == [b[0]] + b[1..];
  }

  lemma TwoByteStep(b: seq<Byte>, u: Unit, tail: Text)
    requires StartsTwo(b) && u as int == b[0] as int * 64 + b[1] as int - 0x3080 && Encode(tail) == Some(b[2..])
    ensures Encode([u] + tail) == Some(b)
  {
    DivMod(u, 64, b[0] as int - 0xC0, b[1] as int - 0x80);
    EncodeStep([u], tail);
    assert b == EncodeUnit(u) + b[2..];
  }

  lemma ThreeByteStep(b: seq<Byte>, tail: Text)
    requires StartsThree(b) && Encode(tail) == Some(b[3..])
    ensures Encode([DecodeThree(b)] + tail) == Some(b)
  {
    assert DecodeThree(b[..3]) == DecodeThree(b);
    ThreeBytesBack(b[..3]);
    EncodeStep([DecodeThree(b)], tail);
    assert b == b[..3] + b[3..];
  }

  lemma FourByteStep(b: seq<Byte>, tail: Text)
    requires StartsFour(b) && Encode(tail) == Some(b[4..])
    ensures Encode([HighOf(DecodeFour(b)), LowOf(DecodeFour(b))] + tail) == Some(b)
  {
    var c := DecodeFour(b);
    assert DecodeFour(b[..4]) == c;
    FourBytesBack(b[..4]);
    PointOfHalves(c);
    EncodeStep([HighOf(c), LowOf(c)], tail);
    assert b == b[..4] + b[4..];
  }

  /** Encoding undoes decoding: the decoder accepts no second spelling of a string. */
  lemma {:induction false} EncodeDecode(b: seq<Byte>)
    requires Decode(b).Some?
    ensures Encode(Decode(b).value) == Some(b)
  {
    if b == [] {
    } else if b[0] < 0x80 {
      EncodeDecode(b[1..]);
      OneByteStep(b, Decode(b[1..]).value);
    } else if StartsTwo(b) {
      EncodeDecode(b[2..]);
      TwoByteStep(b, b[0] as int * 64 + b[1] as int - 0x3080, Decode(b[2..]).value);
    } else if StartsThree(b) {
      EncodeDecode(b[3..]);
      ThreeByteStep(b, Decode(b[3..]).value);
    } else {
      EncodeDecode(b[4..]);
      FourByteStep(b, Decode(b[4..]).value);
    }
  }

  lemma EncodeInjective(s: Text, t: Text)
    requires Encode(s).Some? && Encode(s) == Encode(t)
    ensures s == t
  {
    DecodeEncode(s);
    DecodeEncode(t);
  }

  // ---- the bytes, against section 3 of RFC 3629 --------------------------

  lemma SurrogateRanges(u: Unit)
    ensures IsHigh(u) <==> 0xD800 <= u <= 0xDBFF
    ensures IsLow(u) <==> 0xDC00 <= u <= 0xDFFF
  {
  }

  /** The table of the standard: one, two or three bytes by the size of the unit, which their bits spell. */
  predicate SpellsUnit(b: seq<Byte>, u: Unit) {
    || (u <= 0x7F && b == [u])
    || (0x80 <= u <= 0x7FF && |b| == 2 && 0xC0 <= b[0] && 0x80 <= b[1] <= 0xBF
        && u == (b[0] as int - 0xC0) * 64 + (b[1] as int - 0x80))
    || (0x800 <= u && |b| == 3 && 0xE0 <= b[0] && 0x80 <= b[1] <= 0xBF && 0x80 <= b[2] <= 0xBF
        && u == (b[0] as int - 0xE0) * 4096 + (b[1] as int - 0x80) * 64 + (b[2] as int - 0x80))
  }

  predicate SpellsPoint(b: seq<Byte>, c: int) {
    && |b| == 4 && 0xF0 <= b[0] && 0x80 <= b[1] <= 0xBF && 0x80 <= b[2] <= 0xBF && 0x80 <= b[3] <= 0xBF
    && c == (b[0] as int - 0xF0) * 0x4_0000 + (b[1] as int - 0x80) * 4096
            + (b[2] as int - 0x80) * 64 + (b[3] as int - 0x80)
  }

  lemma UnitBytes(u: Unit, b: seq<Byte>)
    requires !IsSurrogate(u)
    ensures EncodeUnit(u) == b <==> SpellsUnit(b, u)
  {
    assert u / 64 == u / 4096 * 64 + u / 64 % 64;
    if SpellsUnit(b, u) {
      if |b| == 2 {
        DivMod(u, 64, b[0] - 0xC0, b[1] - 0x80);
      } else if |b| == 3 {
        ThreeQuotients(u, b[0] - 0xE0, b[1] - 0x80, b[2] - 0x80);
      }
    }
  }

  lemma PointBytes(c: int, b: seq<Byte>)
    requires 0x1_0000 <= c < 0x11_0000
    ensures EncodePoint(c) == b <==> SpellsPoint(b, c)
  {
    FourBytes(c, EncodePoint(c));
    if SpellsPoint(b, c) {
      FourQuotients(c, b[0] as int - 0xF0, b[1] as int - 0x80, b[2] as int - 0x80, b[3] as int - 0x80);
    }
  }

  /** A pair is the code point from 0x10000 up that its halves' ten bits each spell. */
  lemma PairBytes(hi: Unit, lo: Unit, b: seq<Byte>)
    requires 0xD800 <= hi <= 0xDBFF && 0xDC00 <= lo <= 0xDFFF
    ensures IsHigh(hi) && IsLow(lo)
    ensures EncodePair(hi, lo) == b <==>
            SpellsPoint(b, 0x1_0000 + (hi as int - 0xD800) * 1024 + (lo as int - 0xDC00))
  {
    PointBytes(CodePoint(hi, lo), b);
  }
}
