/**
  The dashboard's stored-state codec: a repeating-key XOR over code units, UTF-8, and base64
  (section 4 of RFC 4648).  `JSON.stringify` and `JSON.parse` are outside: the codec is given text.
 */
module StateCodec {
  import opened Options
  import opened Utf16

  // ---- exclusive or ------------------------------------------------------

  /** Bitwise exclusive or of two numbers. */
  function Xor(a: nat, b: nat): nat {
    if a == 0 && b == 0 then 0 else (a + b) % 2 + 2 * Xor(a / 2, b / 2)
  }

  lemma BitAndRest(bit: nat, rest: nat)
    requires bit < 2
    ensures (bit + 2 * rest) / 2 == rest && (bit + 2 * rest) % 2 == bit
  {
  }

  lemma XorStep(a: nat, b: nat)
    ensures Xor(a, b) % 2 == (a + b) % 2 && Xor(a, b) / 2 == Xor(a / 2, b / 2)
  {
    BitAndRest((a + b) % 2, Xor(a / 2, b / 2));
  }

  lemma ParityTwice(a: nat, b: nat)
    ensures ((a + b) % 2 + b) % 2 == a % 2
  {
  }

  lemma {:induction false} XorInvolutive(a: nat, b: nat)
    ensures Xor(Xor(a, b), b) == a
  {
    if a != 0 || b != 0 {
      XorInvolutive(a / 2, b / 2);
      XorStep(a, b);
      XorStep(Xor(a, b), b);
      ParityTwice(a, b);
      AddParity(Xor(a, b), b, (a + b) % 2);
      SameParts(Xor(Xor(a, b), b), a);
    }
  }

  lemma AddParity(x: nat, b: nat, bit: nat)
    requires x % 2 == bit
    ensures (x + b) % 2 == (bit + b) % 2
  {
  }

  lemma SameParts(x: nat, y: nat)
    requires x / 2 == y / 2 && x % 2 == y % 2
    ensures x == y
  {
  }

  function Halve(a: nat, n: nat): nat {
    if n == 0 then a else Halve(a / 2, n - 1)
  }

  lemma {:induction false} XorWithZero(a: nat)
    ensures Xor(a, 0) == a
  {
    if a != 0 {
      XorWithZero(a / 2);
    }
  }

  /** Dropping low bits commutes with exclusive or. */
  lemma {:induction false} HalveXor(a: nat, b: nat, n: nat)
    ensures Halve(Xor(a, b), n) == Xor(Halve(a, n), Halve(b, n))
  {
    if n > 0 {
      XorStep(a, b);
      HalveXor(a / 2, b / 2, n - 1);
    }
  }

  predicate Bit(a: nat, n: nat) { Halve(a, n) % 2 == 1 }

  lemma SumParity(x: nat, y: nat)
    ensures (x + y) % 2 == 1 <==> (x % 2 == 1) != (y % 2 == 1)
  {
  }

  lemma XorBit(a: nat, b: nat, n: nat)
    ensures Bit(Xor(a, b), n) == (Bit(a, n) != Bit(b, n))
  {
    var x, y := Halve(a, n), Halve(b, n);
    HalveXor(a, b, n);
    assert Xor(x, y) % 2 == (x + y) % 2 by {
      XorStep(x, y);
    }
    SumParity(x, y);
  }

  lemma HalveTen(a: nat)
    ensures Halve(a, 10) == a / 0x400
  {
    assert Halve(a, 10) == Halve(a / 2, 9);
    assert a / 2 / 2 == a / 4 && Halve(a / 2, 9) == Halve(a / 4, 8);
    assert a / 4 / 2 == a / 8 && Halve(a / 4, 8) == Halve(a / 8, 7);
    assert a / 8 / 2 == a / 16 && Halve(a / 8, 7) == Halve(a / 16, 6);
    assert a / 16 / 2 == a / 32 && Halve(a / 16, 6) == Halve(a / 32, 5);
    assert a / 32 / 2 == a / 64 && Halve(a / 32, 5) == Halve(a / 64, 4);
    assert a / 64 / 2 == a / 128 && Halve(a / 64, 4) == Halve(a / 128, 3);
    assert a / 128 / 2 == a / 256 && Halve(a / 128, 3) == Halve(a / 256, 2);
    assert a / 256 / 2 == a / 512 && Halve(a / 256, 2) == Halve(a / 512, 1);
    assert a / 512 / 2 == a / 1024 && Halve(a / 512, 1) == Halve(a / 1024, 0);
  }

  /** A mask below 128 leaves the surrogate class of a code unit alone. */
  lemma XorUnit(u: Unit, mask: nat)
    requires mask < 128
    ensures Xor(u, mask) < 0x1_0000 && Xor(u, mask) / 0x400 == u / 0x400
  {
    HalveXor(u, mask, 10);
    HalveTen(Xor(u, mask));
    HalveTen(u);
    HalveTen(mask);
    XorWithZero(u / 0x400);
  }

  // ---- the keyed layer ---------------------------------------------------

  const ENCRYPTION_KEY := "ai-lab-encryption-salt"

  lemma KeyIsAscii()
    ensures forall j :: 0 <= j < |ENCRYPTION_KEY| ==> ENCRYPTION_KEY[j] < '\U{80}'
  {
  }

  function KeyUnit(i: nat): (k: nat)
    ensures k < 128
  {
    KeyIsAscii();
    ENCRYPTION_KEY[i % |ENCRYPTION_KEY|] as int
  }

  function Mask(u: Unit, i: nat): (m: Unit)
    ensures m / 0x400 == u / 0x400
  {
    XorUnit(u, KeyUnit(i));
    Xor(u, KeyUnit(i))
  }

  function Masked(s: Text): (r: Text)
    ensures |r| == |s| && forall i :: 0 <= i < |r| ==> r[i] == Mask(s[i], i)
  {
    seq(|s|, i requires 0 <= i < |s| => Mask(s[i], i))
  }

  /** The loop both directions share: `result` grows by one masked code unit per step. */
  method ApplyKey(str: Text) returns (result: Text)
    ensures result == Masked(str)
  {
    result := [];
    for i := 0 to |str|
      invariant result == Masked(str)[..i]
    {
      result := result + [Mask(str[i], i)];
    }
  }

  /** Bit n of a stored unit is the exclusive or of bit n of the text's unit and of the key's. */
  lemma MaskBits(s: Text, i: nat, n: nat)
    requires i < |s|
    ensures Bit(Masked(s)[i], n) == (Bit(s[i], n) != Bit("ai-lab-encryption-salt"[i % 22] as int, n))
  {
    XorBit(s[i], KeyUnit(i), n);
  }

  lemma MaskTwice(s: Text)
    ensures Masked(Masked(s)) == s
  {
    forall i | 0 <= i < |s| ensures Masked(Masked(s))[i] == s[i] {
      XorInvolutive(s[i], KeyUnit(i));
    }
  }

  /** Masking moves no code unit into or out of a surrogate class, so well-formedness is untouched. */
  lemma {:induction false} SameClassesWellFormed(s: Text, t: Text)
    requires |s| == |t| && forall i :: 0 <= i < |s| ==> s[i] / 0x400 == t[i] / 0x400
    ensures WellFormed(s) <==> WellFormed(t)
  {
    if s != [] {
      var n := if StartsWithPair(s) then 2 else 1;
      assert StartsWithPair(s) <==> StartsWithPair(t);
      assert IsSurrogate(s[0]) <==> IsSurrogate(t[0]);
      SameClassesWellFormed(s[n..], t[n..]);
    }
  }

  // ---- base64 ------------------------------------------------------------

  function AlphabetValue(c: Byte): (v: int)
    ensures -1 <= v < 64
  {
    if 65 <= c <= 90 then c as int - 65
    else if 97 <= c <= 122 then c as int - 71
    else if 48 <= c <= 57 then c as int + 4
    else if c == 43 then 62
    else if c == 47 then 63
    else -1
  }

  function Alphabet(v: int): (c: Byte)
    requires 0 <= v < 64
    ensures AlphabetValue(c) == v
  {
    if v < 26 then 65 + v else if v < 52 then 71 + v else if v < 62 then v - 4 else if v == 62 then 43 else 47
  }

  const PAD: Byte := 61

  function Group(a: Byte, b: Byte, c: Byte): seq<Byte> {
    [Alphabet(a / 4), Alphabet(a % 4 * 16 + b / 16), Alphabet(b % 16 * 4 + c / 64), Alphabet(c % 64)]
  }

  function Pair(a: Byte, b: Byte): seq<Byte> {
    [Alphabet(a / 4), Alphabet(a % 4 * 16 + b / 16), Alphabet(b % 16 * 4)]
  }

  function Single(a: Byte): seq<Byte> { [Alphabet(a / 4), Alphabet(a % 4 * 16)] }

  /** `btoa` */
  function Btoa(b: seq<Byte>): seq<Byte> {
    if b == [] then []
    else if |b| == 1 then Single(b[0]) + [PAD, PAD]
    else if |b| == 2 then Pair(b[0], b[1]) + [PAD]
    else Group(b[0], b[1], b[2]) + Btoa(b[3..])
  }

  predicate IsSpace(c: Byte) { c == 9 || c == 10 || c == 12 || c == 13 || c == 32 }

  function StripSpaces(s: seq<Byte>): seq<Byte> {
    if s == [] then []
    else if IsSpace(s[0]) then StripSpaces(s[1..])
    else [s[0]] + StripSpaces(s[1..])
  }

  /** Up to two padding signs are dropped from a length divisible by four. */
  function StripPadding(s: seq<Byte>): seq<Byte> {
    if |s| == 0 || |s| % 4 != 0 || s[|s| - 1] != PAD then s
    else if s[|s| - 2] == PAD then s[..|s| - 2]
    else s[..|s| - 1]
  }

  predicate AllAlphabet(s: seq<Byte>) { forall i :: 0 <= i < |s| ==> AlphabetValue(s[i]) >= 0 }

  function First(v0: int, v1: int): (b: Byte)
    requires 0 <= v0 < 64 && 0 <= v1 < 64
  {
    v0 * 4 + v1 / 16
  }

  function Second(v1: int, v2: int): (b: Byte)
    requires 0 <= v1 < 64 && 0 <= v2 < 64
  {
    v1 % 16 * 16 + v2 / 4
  }

  function Third(v2: int, v3: int): (b: Byte)
    requires 0 <= v2 < 64 && 0 <= v3 < 64
  {
    v2 % 4 * 64 + v3
  }

  /** Four sextets make three bytes; two or three left over make one or two, and a single one is an error. */
  function FromSextets(s: seq<Byte>): Option<seq<Byte>>
    requires AllAlphabet(s)
  {
    if |s| == 0 then Some([])
    else if |s| == 1 then None
    else
      var v0, v1 := AlphabetValue(s[0]), AlphabetValue(s[1]);
      if |s| == 2 then Some([First(v0, v1)])
      else
        var v2 := AlphabetValue(s[2]);
        if |s| == 3 then Some([First(v0, v1), Second(v1, v2)])
        else
          match FromSextets(s[4..])
          case None => None
          case Some(tail) => Some([First(v0, v1), Second(v1, v2), Third(v2, AlphabetValue(s[3]))] + tail)
  }

  /** `atob`: spaces are dropped, then padding, and what is left must be whole sextets. */
  function Atob(s: seq<Byte>): Option<seq<Byte>> {
    var data := StripPadding(StripSpaces(s));
    if AllAlphabet(data) then FromSextets(data) else None
  }

  /** The part of an encoding that carries data. */
  function Unpadded(b: seq<Byte>): (r: seq<Byte>)
    ensures AllAlphabet(r)
  {
    if b == [] then []
    else if |b| == 1 then Single(b[0])
    else if |b| == 2 then Pair(b[0], b[1])
    else Group(b[0], b[1], b[2]) + Unpadded(b[3..])
  }

  lemma GroupRoundTrip(a: Byte, b: Byte, c: Byte)
    ensures First(a / 4, a % 4 * 16 + b / 16) == a
    ensures Second(a % 4 * 16 + b / 16, b % 16 * 4 + c / 64) == b
    ensures Third(b % 16 * 4 + c / 64, c % 64) == c
  {
  }

  lemma DecodeGroup(group: seq<Byte>, a: Byte, b: Byte, c: Byte, tail: seq<Byte>, bytes: seq<Byte>)
    requires group == Group(a, b, c) && AllAlphabet(tail) && FromSextets(tail) == Some(bytes)
    ensures AllAlphabet(group + tail) && FromSextets(group + tail) == Some([a, b, c] + bytes)
  {
    GroupRoundTrip(a, b, c);
    assert (group + tail)[4..] == tail;
  }

  lemma DecodePair(a: Byte, b: Byte)
    ensures AllAlphabet(Pair(a, b)) && FromSextets(Pair(a, b)) == Some([a, b])
  {
    GroupRoundTrip(a, b, 0);
  }

  lemma DecodeSingle(a: Byte)
    ensures AllAlphabet(Single(a)) && FromSextets(Single(a)) == Some([a])
  {
  }

  lemma TakeThree(b: seq<Byte>)
    requires |b| > 2
    ensures b == [b[0], b[1], b[2]] + b[3..]
  {
  }

  lemma {:induction false} SextetsOfUnpadded(b: seq<Byte>)
    ensures FromSextets(Unpadded(b)) == Some(b)
  {
    if |b| > 2 {
      SextetsOfUnpadded(b[3..]);
      DecodeGroup(Group(b[0], b[1], b[2]), b[0], b[1], b[2], Unpadded(b[3..]), b[3..]);
      TakeThree(b);
    } else if |b| == 2 {
      DecodePair(b[0], b[1]);
      assert b == [b[0], b[1]];
    } else if |b| == 1 {
      DecodeSingle(b[0]);
      assert b == [b[0]];
    }
  }

  function Padding(b: seq<Byte>): (p: seq<Byte>)
    ensures |p| <= 2 && forall i :: 0 <= i < |p| ==> p[i] == PAD
  {
    if b == [] then [] else if |b| == 1 then [PAD, PAD] else if |b| == 2 then [PAD] else Padding(b[3..])
  }

  lemma Regroup(a: seq<Byte>, b: seq<Byte>, c: seq<Byte>)
    ensures a + (b + c) == (a + b) + c
  {
  }

  lemma FourMore(n: nat, m: nat)
    requires n == m + 4 && m % 4 == 0
    ensures n % 4 == 0
  {
  }

  lemma {:induction false} PaddedLength(b: seq<Byte>)
    ensures (|Unpadded(b)| + |Padding(b)|) % 4 == 0
  {
    if |b| > 2 {
      PaddedLength(b[3..]);
      assert |Unpadded(b)| == 4 + |Unpadded(b[3..])| && Padding(b) == Padding(b[3..]);
      FourMore(|Unpadded(b)| + |Padding(b)|, |Unpadded(b[3..])| + |Padding(b[3..])|);
    }
  }

  lemma {:induction false} BtoaShape(b: seq<Byte>)
    ensures Btoa(b) == Unpadded(b) + Padding(b)
  {
    if |b| > 2 {
      var group := Group(b[0], b[1], b[2]);
      BtoaShape(b[3..]);
      Regroup(group, Unpadded(b[3..]), Padding(b[3..]));
      assert Btoa(b) == group + Btoa(b[3..]) && Unpadded(b) == group + Unpadded(b[3..]);
    }
  }

  lemma {:induction false} NoSpacesToStrip(s: seq<Byte>)
    requires forall i :: 0 <= i < |s| ==> !IsSpace(s[i])
    ensures StripSpaces(s) == s
  {
    if s != [] {
      NoSpacesToStrip(s[1..]);
    }
  }

  lemma PaddingStrips(data: seq<Byte>, pad: seq<Byte>)
    requires AllAlphabet(data) && |pad| <= 2 && (forall i :: 0 <= i < |pad| ==> pad[i] == PAD)
    requires (|data| + |pad|) % 4 == 0
    ensures StripPadding(data + pad) == data
  {
  }

  lemma NoSpaces(data: seq<Byte>, pad: seq<Byte>)
    requires AllAlphabet(data) && forall i :: 0 <= i < |pad| ==> pad[i] == PAD
    ensures StripSpaces(data + pad) == data + pad
  {
    NoSpacesToStrip(data + pad);
  }

  lemma StripBtoa(b: seq<Byte>)
    ensures StripPadding(StripSpaces(Btoa(b))) == Unpadded(b)
  {
    BtoaShape(b);
    PaddedLength(b);
    NoSpaces(Unpadded(b), Padding(b));
    PaddingStrips(Unpadded(b), Padding(b));
  }

  /** `atob` undoes `btoa` on every byte string. */
  lemma AtobBtoa(b: seq<Byte>)
    ensures Atob(Btoa(b)) == Some(b)
  {
    StripBtoa(b);
    SextetsOfUnpadded(b);
  }

  // ---- base64, against section 4 of RFC 4648 -----------------------------

  /** Table 1 of the standard, both ways. */
  lemma AlphabetTable(c: Byte, v: int)
    requires 0 <= v < 64
    ensures AlphabetValue(c) == v <==>
            c == (if v < 26 then 'A' as int + v
                  else if v < 52 then 'a' as int + (v - 26)
                  else if v < 62 then '0' as int + (v - 52)
                  else "+/"[v - 62] as int)
  {
  }

  /** Letters taken as base-64 digits. */
  function Digits64(s: seq<Byte>): int {
    if s == [] then 0 else Digits64(s[..|s| - 1]) * 64 + AlphabetValue(s[|s| - 1])
  }

  /** Three bytes are the 24-bit number their four letters spell; one and two are first filled up with zeros. */
  lemma GroupMeans(a: Byte, b: Byte, c: Byte)
    ensures |Group(a, b, c)| == 4 && Digits64(Group(a, b, c)) == a as int * 65536 + b as int * 256 + c as int
    ensures |Pair(a, b)| == 3 && Digits64(Pair(a, b)) == (a as int * 256 + b as int) * 4
    ensures |Single(a)| == 2 && Digits64(Single(a)) == a as int * 16
  {
    SpellTwo(Single(a));
    SpellTwo(Pair(a, b)[..2]);
    SpellTwo(Group(a, b, c)[..2]);
    assert Group(a, b, c)[..3][..2] == Group(a, b, c)[..2];
  }

  lemma SpellTwo(s: seq<Byte>)
    requires |s| == 2
    ensures Digits64(s) == AlphabetValue(s[0]) * 64 + AlphabetValue(s[1])
  {
    assert s[..1][..0] == [] && Digits64(s[..1]) == AlphabetValue(s[0]);
  }

  /** Test vectors of section 10: f, fo and foobar. */
  lemma StandardVectors()
    ensures Btoa([102]) == [90, 103, 61, 61]
    ensures Btoa([102, 111]) == [90, 109, 56, 61]
    ensures Btoa([102, 111, 111, 98, 97, 114]) == [90, 109, 57, 118, 89, 109, 70, 121]
  {
    FooGroup();
    BarGroup();
    var b: seq<Byte> := [102, 111, 111, 98, 97, 114];
    assert b[3..] == [98, 97, 114];
    GroupThen(102, 111, 111, [98, 97, 114]);
    GroupThen(98, 97, 114, []);
    assert b == [102, 111, 111] + [98, 97, 114];
    assert [98, 97, 114] + [] == b[3..];
    assert [89, 109, 70, 121] + [] == [89, 109, 70, 121];
  }

  lemma FooGroup()
    ensures Group(102, 111, 111) == [90, 109, 57, 118]
  {
  }

  lemma BarGroup()
    ensures Group(98, 97, 114) == [89, 109, 70, 121]
  {
  }

  lemma GroupThen(a: Byte, b: Byte, c: Byte, tail: seq<Byte>)
    ensures Btoa([a, b, c] + tail) == Group(a, b, c) + Btoa(tail)
  {
    assert ([a, b, c] + tail)[3..] == tail;
  }

  /** Exactly the five kinds of space vanish. */
  lemma {:induction false} SpacesExactly(s: seq<Byte>, c: Byte)
    ensures c in StripSpaces(s) <==> c in s && c !in {9, 10, 12, 13, 32}
  {
    if s != [] {
      SpacesExactly(s[1..], c);
    }
  }

  lemma SextetsStep(s: seq<Byte>)
    requires AllAlphabet(s) && |s| > 3
    ensures FromSextets(s).Some? <==> FromSextets(s[4..]).Some?
  {
  }

  lemma FourFewer(n: int)
    ensures n % 4 == (n - 4) % 4
  {
  }

  lemma SextetsShort(s: seq<Byte>)
    requires AllAlphabet(s) && |s| <= 3
    ensures FromSextets(s).Some? <==> |s| != 1
  {
  }

  lemma {:induction false} SextetsDefined(s: seq<Byte>)
    requires AllAlphabet(s)
    ensures FromSextets(s).Some? <==> |s| % 4 != 1
  {
    if |s| > 3 {
      SextetsDefined(s[4..]);
      SextetsStep(s);
      FourFewer(|s|);
    } else {
      SextetsShort(s);
    }
  }

  /** What `atob` accepts: no lone letter at the end, and padding only as far as it fills the last group. */
  lemma AtobAccepts(data: seq<Byte>, pad: seq<Byte>)
    requires AllAlphabet(data) && forall i :: 0 <= i < |pad| ==> pad[i] == 61
    ensures Atob(data + pad).Some? <==>
            |data| % 4 != 1 && (pad == [] || (|pad| <= 2 && (|data| + |pad|) % 4 == 0))
  {
    var s := data + pad;
    NoSpaces(data, pad);
    if pad == [] || (|pad| <= 2 && (|data| + |pad|) % 4 == 0) {
      assert StripPadding(s) == data;
      SextetsDefined(data);
    } else {
      var left := StripPadding(s);
      assert |left| > |data| && left[|data|] == 61;
    }
  }

  // ---- the codec ---------------------------------------------------------

  /** What storing a text writes, or None where `encodeURIComponent` throws. */
  function Encrypted(str: Text): Option<seq<Byte>> {
    match Encode(Masked(str))
    case None => None
    case Some(bytes) => Some(Btoa(bytes))
  }

  /** What reading a stored string gives, or None where a layer throws and `decrypt` returns null. */
  function Decrypted(data: seq<Byte>): Option<Text> {
    match Atob(data)
    case None => None
    case Some(bytes) =>
      match Decode(bytes)
      case None => None
      case Some(str) => Some(Masked(str))
  }

  /** Storing succeeds exactly on text without lone surrogates, and then reading gives that text back. */
  lemma RoundTrip(str: Text)
    ensures Encrypted(str).Some? <==> WellFormed(str)
    ensures WellFormed(str) ==> Decrypted(Encrypted(str).value) == Some(str)
  {
    EncodeDefined(Masked(str));
    SameClassesWellFormed(str, Masked(str));
    if WellFormed(str) {
      var bytes := Encode(Masked(str)).value;
      AtobBtoa(bytes);
      DecodeEncode(Masked(str));
      MaskTwice(str);
    }
  }

  /** Whatever reading yields can be stored again, and reads back as the same text. */
  lemma ReadIsStorable(data: seq<Byte>)
    requires Decrypted(data).Some?
    ensures WellFormed(Decrypted(data).value)
    ensures Encrypted(Decrypted(data).value).Some?
    ensures Decrypted(Encrypted(Decrypted(data).value).value) == Decrypted(data)
  {
    var masked := Decode(Atob(data).value).value;
    EncodeDecode(Atob(data).value);
    EncodeDefined(masked);
    SameClassesWellFormed(masked, Masked(masked));
    RoundTrip(Masked(masked));
  }

  /** `encrypt`: what it stores, if anything, `decrypt` reads back as the same text. */
  method Encrypt(str: Text) returns (r: Option<seq<Byte>>)
    ensures r == Encrypted(str)
    ensures r.Some? <==> WellFormed(str)
    ensures r.Some? ==> Decrypted(r.value) == Some(str)
  {
    RoundTrip(str);
    var result := ApplyKey(str);
    match Encode(result)
    case None => r := None;
    case Some(bytes) => r := Some(Btoa(bytes));
  }

  /** `decrypt`: any text it returns is one that can be stored, and reads back the same. */
  method Decrypt(data: seq<Byte>) returns (r: Option<Text>)
    ensures r == Decrypted(data)
    ensures r.Some? ==> WellFormed(r.value) && Encrypted(r.value).Some?
    ensures r.Some? ==> Decrypted(Encrypted(r.value).value) == r
  {
    if Decrypted(data).Some? {
      ReadIsStorable(data);
    }
    match Atob(data)
    case None => r := None;
    case Some(bytes) =>
      match Decode(bytes) {
        case None => r := None;
        case Some(str) =>
          var result := ApplyKey(str);
          r := Some(result);
      }
  }

  lemma KeyStart()
    ensures KeyUnit(0) == 97 && KeyUnit(1) == 105
  {
  }

  lemma OpeningXor()
    ensures Xor(123, 97) == 26
  {
    assert Xor(7, 6) == 1 && Xor(15, 12) == 3 && Xor(30, 24) == 6 && Xor(61, 48) == 13;
  }

  lemma ClosingXor()
    ensures Xor(125, 105) == 20
  {
    assert Xor(7, 6) == 1 && Xor(15, 13) == 2 && Xor(31, 26) == 5 && Xor(62, 52) == 10;
  }

  lemma PlainBytes(u: Unit, v: Unit)
    requires u < 128 && v < 128
    ensures Encode([u, v]) == Some([u, v])
  {
    EncodeStep([u], [v]);
    EncodeStep([v], []);
    assert [u] + [v] == [u, v] && [v] + [] == [v];
    var a: seq<Byte>, b: seq<Byte> := [u], [v];
    assert a + b == [u, v] && b + [] == b;
  }

  lemma BracesStored()
    ensures Btoa([26, 20]) == [71, 104, 81, 61]
  {
  }

  lemma BracesMasked()
    ensures Masked([123, 125]) == [26, 20]
  {
    KeyStart();
    OpeningXor();
    ClosingXor();
  }

  /** What the dashboard stores for an empty state, {}: GhQ= in base64. */
  lemma EmptyState()
    ensures Encrypted([123, 125]) == Some([71, 104, 81, 61])
  {
    BracesMasked();
    PlainBytes(26, 20);
    BracesStored();
  }
}
