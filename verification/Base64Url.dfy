/** The hand-written base64url codec of the token service, against the 24-bit
    grouping of sections 4 and 5 of RFC 4648 (unpadded, section 3.2). */
module Base64Url {
  import opened Ints

  type byte = x: int | 0 <= x < 256
  type sextet = x: int | 0 <= x < 64

  // ---------------------------------------------------------------------
  // The alphabet.
  // ---------------------------------------------------------------------

  /** A std::string of bytes: every character is below 256. */
  predicate IsBytes(s: string) {
    forall i :: 0 <= i < |s| ==> s[i] as int < 256
  }

  /** The alphabet table: A-Z, a-z, 0-9, '-' and '_', by their ASCII codes. */
  function Letter(x: sextet): (c: char)
    ensures Value(c) == x && c != '.'
    ensures c as int == if x < 26 then 65 + x else if x < 52 then 71 + x else if x < 62 then x - 4
                        else if x == 62 then 45 else 95
  {
    if x < 26 then ('A' as int + x) as char
    else if x < 52 then ('a' as int + (x - 26)) as char
    else if x < 62 then ('0' as int + (x - 52)) as char
    else if x == 62 then '-'
    else '_'
  }

  /** The reverse table: the six bits of an alphabet character, -1 for any other. */
  function Value(c: char): (x: int)
    ensures -1 <= x < 64
  {
    if 'A' <= c <= 'Z' then c as int - 'A' as int
    else if 'a' <= c <= 'z' then c as int - 'a' as int + 26
    else if '0' <= c <= '9' then c as int - '0' as int + 52
    else if c == '-' then 62
    else if c == '_' then 63
    else -1
  }

  lemma LetterOfValue(c: char)
    requires Value(c) != -1
    ensures Letter(Value(c)) == c
  {
  }

  predicate InAlphabet(t: string) {
    forall i :: 0 <= i < |t| ==> Value(t[i]) != -1
  }

  function Spell(xs: seq<sextet>): (t: string)
    ensures |t| == |xs| && forall i :: 0 <= i < |t| ==> t[i] == Letter(xs[i])
  {
    seq(|xs|, i requires 0 <= i < |xs| => Letter(xs[i]))
  }

  function Values(t: string): (xs: seq<sextet>)
    requires InAlphabet(t)
    ensures |xs| == |t| && forall i :: 0 <= i < |t| ==> xs[i] == Value(t[i])
  {
    seq(|t|, i requires 0 <= i < |t| => Value(t[i]) as sextet)
  }

  /** Each character as an unsigned char. */
  function Codes(s: string): (bs: seq<byte>)
    ensures |bs| == |s| && forall i :: 0 <= i < |s| ==> bs[i] == s[i] as int % 256
  {
    seq(|s|, i requires 0 <= i < |s| => (s[i] as int % 256) as byte)
  }

  function Chars(bs: seq<byte>): (s: string)
    ensures |s| == |bs| && IsBytes(s) && forall i :: 0 <= i < |s| ==> s[i] == bs[i] as char
  {
    seq(|bs|, i requires 0 <= i < |bs| => bs[i] as char)
  }

  /** The characters before the first one outside the alphabet. */
  function Readable(t: string): (r: string)
    ensures InAlphabet(r)
    ensures r <= t
  {
    if t == [] || Value(t[0]) == -1 then [] else [t[0]] + Readable(t[1..])
  }

  lemma {:induction false} ReadableAll(t: string)
    requires InAlphabet(t)
    ensures Readable(t) == t
  {
    if t != [] {
      ReadableAll(t[1..]);
    }
  }

  lemma {:induction false} ReadableStops(t: string, i: nat)
    requires i <= |Readable(t)| && i < |t|
    ensures i == |Readable(t)| <==> Value(t[i]) == -1
    ensures i < |Readable(t)| ==> Readable(t)[i] == t[i]
  {
    if Value(t[0]) != -1 && i > 0 {
      ReadableStops(t[1..], i - 1);
    }
  }

  // ---------------------------------------------------------------------
  // The reference definition: 3 bytes make 4 sextets.
  // ---------------------------------------------------------------------

  // The four 6-bit fields of the three bytes a, b, c.
  function Field0(a: byte): sextet { a / 4 }
  function Field1(a: byte, b: byte): sextet { a % 4 * 16 + b / 16 }
  function Field2(b: byte, c: byte): sextet { b % 16 * 4 + c / 64 }
  function Field3(c: byte): sextet { c % 64 }

  // The three bytes of the four 6-bit fields w, x, y, z.
  function Byte0(w: sextet, x: sextet): byte { w * 4 + x / 16 }
  function Byte1(x: sextet, y: sextet): byte { x % 16 * 16 + y / 4 }
  function Byte2(y: sextet, z: sextet): byte { y % 4 * 64 + z }

  /** The fields are the base-64 digits of the 24-bit number whose base-256 digits are the bytes. */
  lemma FieldsAreTheGroup(a: byte, b: byte, c: byte)
    ensures Field0(a) * 262144 + Field1(a, b) * 4096 + Field2(b, c) * 64 + Field3(c) == a * 65536 + b * 256 + c
    ensures Byte0(Field0(a), Field1(a, b)) == a
    ensures Byte1(Field1(a, b), Field2(b, c)) == b
    ensures Byte2(Field2(b, c), Field3(c)) == c
  {
    assert Field1(a, b) / 16 == a % 4 && Field1(a, b) % 16 == b / 16;
    assert Field2(b, c) / 4 == b % 16 && Field2(b, c) % 4 == c / 64;
  }

  /** The bytes are the base-256 digits of the 24-bit number whose base-64 digits are the fields. */
  lemma BytesAreTheGroup(w: sextet, x: sextet, y: sextet, z: sextet)
    ensures Byte0(w, x) * 65536 + Byte1(x, y) * 256 + Byte2(y, z) == w * 262144 + x * 4096 + y * 64 + z
    ensures Field0(Byte0(w, x)) == w
    ensures Field1(Byte0(w, x), Byte1(x, y)) == x
    ensures Field2(Byte1(x, y), Byte2(y, z)) == y
    ensures Field3(Byte2(y, z)) == z
  {
    assert Byte0(w, x) / 4 == w && Byte0(w, x) % 4 == x / 16;
    assert Byte1(x, y) / 16 == x % 16 && Byte1(x, y) % 16 == y / 4;
    assert Byte2(y, z) / 64 == y % 4 && Byte2(y, z) % 64 == z;
  }

  /** Groups of three bytes; a final group of one or two is padded with zero bits. */
  function Pack(s: seq<byte>): seq<sextet> {
    if s == [] then []
    else if |s| == 1 then [Field0(s[0]), Field1(s[0], 0)]
    else if |s| == 2 then [Field0(s[0]), Field1(s[0], s[1]), Field2(s[1], 0)]
    else [Field0(s[0]), Field1(s[0], s[1]), Field2(s[1], s[2]), Field3(s[2])] + Pack(s[3..])
  }

  /** 4 sextets make 3 bytes; 3 make 2 and 2 make 1, dropping the spare bits; a
      single trailing sextet makes nothing. */
  function Unpack(t: seq<sextet>): seq<byte> {
    if |t| < 2 then []
    else if |t| == 2 then [Byte0(t[0], t[1])]
    else if |t| == 3 then [Byte0(t[0], t[1]), Byte1(t[1], t[2])]
    else [Byte0(t[0], t[1]), Byte1(t[1], t[2]), Byte2(t[2], t[3])] + Unpack(t[4..])
  }

  /** No lone trailing sextet, spare bits zero (section 3.5 of RFC 4648). */
  predicate NoSpareBits(t: seq<sextet>) {
    if |t| == 0 then true
    else if |t| == 1 then false
    else if |t| == 2 then t[1] % 16 == 0
    else if |t| == 3 then t[2] % 4 == 0
    else NoSpareBits(t[4..])
  }

  function Encode(s: string): (t: string)
    ensures InAlphabet(t) && '.' !in t
  {
    Spell(Pack(Codes(s)))
  }

  function Decode(t: string): (s: string)
    ensures IsBytes(s)
  {
    Chars(Unpack(Values(Readable(t))))
  }

  /** Text an encoder can have produced. */
  predicate Canonical(t: string) {
    InAlphabet(t) && NoSpareBits(Values(t))
  }

  lemma PaddingIsZero(b: byte)
    ensures Field1(b, 0) % 16 == 0 && Field2(b, 0) % 4 == 0
  {
  }

  lemma {:induction false} UnpackPack(s: seq<byte>)
    ensures Unpack(Pack(s)) == s
    ensures NoSpareBits(Pack(s))
  {
    hide Field0, Field1, Field2, Field3, Byte0, Byte1, Byte2;
    if |s| == 1 {
      FieldsAreTheGroup(s[0], 0, 0);
      PaddingIsZero(s[0]);
    } else if |s| == 2 {
      FieldsAreTheGroup(s[0], s[1], 0);
      PaddingIsZero(s[1]);
    } else if |s| >= 3 {
      FieldsAreTheGroup(s[0], s[1], s[2]);
      UnpackPack(s[3..]);
      assert Pack(s)[4..] == Pack(s[3..]);
      assert s == [s[0], s[1], s[2]] + s[3..];
    }
  }

  lemma FinalPair(w: sextet, x: sextet)
    requires x % 16 == 0
    ensures Field0(Byte0(w, x)) == w && Field1(Byte0(w, x), 0) == x
  {
    assert Byte1(x, 0) == 0;
    hide Field0, Field1, Byte0, Byte1, Byte2;
    BytesAreTheGroup(w, x, 0, 0);
  }

  lemma FinalTriple(w: sextet, x: sextet, y: sextet)
    requires y % 4 == 0
    ensures Field0(Byte0(w, x)) == w && Field1(Byte0(w, x), Byte1(x, y)) == x && Field2(Byte1(x, y), 0) == y
  {
    assert Byte2(y, 0) == 0;
    hide Field0, Field1, Field2, Byte0, Byte1, Byte2;
    BytesAreTheGroup(w, x, y, 0);
  }

  lemma {:induction false} PackUnpack(t: seq<sextet>)
    requires NoSpareBits(t)
    ensures Pack(Unpack(t)) == t
  {
    hide Field0, Field1, Field2, Field3, Byte0, Byte1, Byte2;
    if |t| == 2 {
      FinalPair(t[0], t[1]);
    } else if |t| == 3 {
      FinalTriple(t[0], t[1], t[2]);
    } else if |t| >= 4 {
      BytesAreTheGroup(t[0], t[1], t[2], t[3]);
      PackUnpack(t[4..]);
      assert Unpack(t)[3..] == Unpack(t[4..]);
      assert t == [t[0], t[1], t[2], t[3]] + t[4..];
    }
  }

  lemma ReadSpelled(xs: seq<sextet>)
    ensures InAlphabet(Spell(xs)) && Values(Spell(xs)) == xs
  {
    hide Letter, Value;
  }

  lemma CharsOfCodes(s: string)
    requires IsBytes(s)
    ensures Chars(Codes(s)) == s
  {
  }

  lemma CodesOfChars(bs: seq<byte>)
    ensures Codes(Chars(bs)) == bs
  {
  }

  lemma SpellValues(t: string)
    requires InAlphabet(t)
    ensures Spell(Values(t)) == t
  {
    forall i | 0 <= i < |t| ensures Spell(Values(t))[i] == t[i] {
      LetterOfValue(t[i]);
    }
  }

  /** Decoding inverts encoding on every byte string. */
  lemma DecodeEncode(s: string)
    requires IsBytes(s)
    ensures Decode(Encode(s)) == s
  {
    hide Pack, Unpack, Codes, Chars, Letter, Value, Spell, Values, Readable, NoSpareBits;
    ReadableAll(Encode(s));
    ReadSpelled(Pack(Codes(s)));
    UnpackPack(Codes(s));
    CharsOfCodes(s);
  }

  /** Encoding inverts decoding on canonical text, and only there. */
  lemma EncodeDecodeExactly(t: string)
    ensures Encode(Decode(t)) == t <==> Canonical(t)
  {
    hide Pack, Unpack, Codes, Chars, Letter, Value, Spell, Values, Readable, NoSpareBits, InAlphabet;
    var s := Decode(t);
    var xs := Values(Readable(t));
    CodesOfChars(Unpack(xs));
    if Canonical(t) {
      ReadableAll(t);
      PackUnpack(xs);
      SpellValues(t);
    }
    if Encode(s) == t {
      UnpackPack(Codes(s));
      ReadSpelled(Pack(Codes(s)));
    }
  }

  // ---------------------------------------------------------------------
  // The loops of the source, with a 32-bit accumulator that wraps.
  // ---------------------------------------------------------------------

  function Pow2(k: nat): (p: int)
    ensures p > 0
  {
    if k == 0 then 1 else 2 * Pow2(k - 1)
  }

  lemma PowersOfTwo()
    ensures Pow2(0) == 1 && Pow2(2) == 4 && Pow2(4) == 16 && Pow2(6) == 64
  {
    assert Pow2(1) == 2 && Pow2(3) == 8 && Pow2(5) == 32;
  }

  /** (val >> shift) & 0x3F: an arithmetic shift, then a mask of six bits. */
  function SixBits(val: int, shift: nat): sextet {
    val / Pow2(shift) % 64
  }

  /** (val >> shift) & 0xFF. */
  function EightBits(val: int, shift: nat): byte {
    val / Pow2(shift) % 256
  }

  // Quotient and remainder are determined by any decomposition.
  lemma Split4096(y: int, q: int, r: int)
    requires y == 4096 * q + r && 0 <= r < 4096
    ensures y % 4096 == r && y / 4096 == q
  {
  }

  lemma Mod64(q: int, r: int)
    ensures (64 * q + r) % 64 == r % 64
  {
  }

  lemma Mod256(q: int, r: int)
    ensures (256 * q + r) % 256 == r % 256
  {
  }

  // Wrapping to 32 bits never reaches the low 12 bits, the only ones the loops read.
  lemma WrapKeepsLowBits(y: int)
    ensures Wrap32(y) % 4096 == y % 4096
  {
    var z := y + 0x8000_0000;
    Split4096(Wrap32(y), y / 4096 - z / 0x1_0000_0000 * 0x10_0000, y % 4096);
  }

  lemma LowBits4(v: int)
    ensures v / 4 % 64 == v % 4096 / 4 % 64
    ensures v / 4 % 256 == v % 4096 / 4 % 256
  {
    var q := v / 4096;
    assert v / 4 == 1024 * q + v % 4096 / 4;
    Mod64(16 * q, v % 4096 / 4);
    Mod256(4 * q, v % 4096 / 4);
  }

  lemma LowBits16(v: int)
    ensures v / 16 % 64 == v % 4096 / 16 % 64
    ensures v / 16 % 256 == v % 4096 / 16
  {
    var q := v / 4096;
    assert v / 16 == 256 * q + v % 4096 / 16;
    Mod64(4 * q, v % 4096 / 16);
    Mod256(q, v % 4096 / 16);
  }

  lemma LowBits64(v: int)
    ensures v / 64 % 64 == v % 4096 / 64 % 64
    ensures v % 64 == v % 4096 % 64
    ensures v % 256 == v % 4096 % 256
  {
    var q := v / 4096;
    assert v / 64 == 64 * q + v % 4096 / 64;
    Mod64(q, v % 4096 / 64);
    Mod64(64 * q, v % 4096);
    Mod256(16 * q, v % 4096);
  }

  lemma LowBits(v: int)
    ensures v / 4 % 64 == v % 4096 / 4 % 64 && v / 16 % 64 == v % 4096 / 16 % 64
    ensures v / 64 % 64 == v % 4096 / 64 % 64 && v % 64 == v % 4096 % 64
    ensures v % 256 == v % 4096 % 256 && v / 4 % 256 == v % 4096 / 4 % 256 && v / 16 % 256 == v % 4096 / 16
  {
    LowBits4(v);
    LowBits16(v);
    LowBits64(v);
  }

  // The low 12 bits after shifting in one more byte, or one more sextet.
  lemma ShiftInByte(val: int, last: int, c: int)
    requires 0 <= c < 256 && 0 <= last < 256 && val % 256 == last
    ensures (val * 256 + c) % 4096 == last % 16 * 256 + c
  {
    assert val == 16 * (val / 16) + val % 16;
    assert val == 256 * (val / 256) + last;
    assert val % 16 == last % 16;
    Split4096(val * 256 + c, val / 16, last % 16 * 256 + c);
  }

  lemma ShiftInSextet(val: int, last: int, x: int)
    requires 0 <= x < 64 && 0 <= last < 64 && val % 64 == last
    ensures (val * 64 + x) % 4096 == last * 64 + x
  {
    Split4096(val * 64 + x, val / 64, last * 64 + x);
  }

  lemma FieldBits1(last: byte, c: byte)
    ensures (last % 16 * 256 + c) / 4 % 64 == Field0(c)
    ensures (last % 16 * 256 + c) % 256 == c
  {
    assert (last % 16 * 256 + c) / 4 == last % 16 * 64 + c / 4;
    Mod64(last % 16, c / 4);
    Mod256(last % 16, c);
  }

  lemma FieldBits2(last: byte, c: byte)
    ensures (last % 16 * 256 + c) / 16 % 64 == Field1(last, c)
  {
    var m := last % 16;
    assert (m * 256 + c) / 16 == m * 16 + c / 16;
    var q := m / 4;
    assert m == 4 * q + m % 4 && m % 4 == last % 4;
    Mod64(q, m % 4 * 16 + c / 16);
  }

  lemma FieldBits3(last: byte, c: byte)
    ensures (last % 16 * 256 + c) / 64 % 64 == Field2(last, c)
    ensures (last % 16 * 256 + c) % 64 == Field3(c)
  {
    assert (last % 16 * 256 + c) / 64 == last % 16 * 4 + c / 64;
    Mod64(last % 16 * 4, c);
  }

  /** What the encoder's masks read after one more byte: the fields of the last two bytes. */
  lemma EncoderBits(val: int, last: byte, c: byte)
    requires val % 256 == last
    ensures var v := Wrap32(val * 256 + c);
            && v % 256 == c
            && SixBits(v, 2) == Field0(c) && SixBits(v, 4) == Field1(last, c)
            && SixBits(v, 6) == Field2(last, c) && SixBits(v, 0) == Field3(c)
  {
    hide Field0, Field1, Field2, Field3, Wrap32, Pow2;
    PowersOfTwo();
    WrapKeepsLowBits(val * 256 + c);
    LowBits(Wrap32(val * 256 + c));
    ShiftInByte(val, last, c);
    FieldBits1(last, c);
    FieldBits2(last, c);
    FieldBits3(last, c);
  }

  /** What the decoder's masks read after one more letter: the bytes of the last two letters. */
  lemma DecoderBits(val: int, last: sextet, x: sextet)
    requires val % 64 == last
    ensures var v := Wrap32(val * 64 + x);
            && v % 64 == x
            && EightBits(v, 4) == Byte0(last, x) && EightBits(v, 2) == Byte1(last, x)
            && EightBits(v, 0) == Byte2(last, x)
  {
    hide Byte0, Byte1, Byte2, Wrap32, Pow2;
    PowersOfTwo();
    WrapKeepsLowBits(val * 64 + x);
    LowBits(Wrap32(val * 64 + x));
    ShiftInSextet(val, last, x);
    ByteBits(last, x);
    ByteBits2(last, x);
    ByteBits3(last, x);
  }

  lemma ByteBits(last: sextet, x: sextet)
    ensures (last * 64 + x) % 64 == x
    ensures (last * 64 + x) / 16 == Byte0(last, x)
  {
    Mod64(last, x);
  }

  lemma ByteBits2(last: sextet, x: sextet)
    ensures (last * 64 + x) / 4 % 256 == Byte1(last, x)
  {
    assert (last * 64 + x) / 4 == last * 16 + x / 4;
    Mod256(last / 16, last % 16 * 16 + x / 4);
  }

  lemma ByteBits3(last: sextet, x: sextet)
    ensures (last * 64 + x) % 256 == Byte2(last, x)
  {
    Mod256(last / 4, last % 4 * 64 + x);
  }

  /** What is still to be written when the last byte read was `last` and 2 * phase of
      its bits are unwritten. */
  function PackRest(phase: nat, last: byte, rest: seq<byte>): seq<sextet>
    requires phase < 3
    decreases |rest|
  {
    if rest == [] then
      (if phase == 0 then [] else if phase == 1 then [Field1(last, 0)] else [Field2(last, 0)])
    else if phase == 0 then [Field0(rest[0])] + PackRest(1, rest[0], rest[1..])
    else if phase == 1 then [Field1(last, rest[0])] + PackRest(2, rest[0], rest[1..])
    else [Field2(last, rest[0]), Field3(rest[0])] + PackRest(0, rest[0], rest[1..])
  }

  lemma {:induction false} PackRestIsPack(last: byte, s: seq<byte>)
    ensures PackRest(0, last, s) == Pack(s)
    decreases |s|
  {
    hide Field0, Field1, Field2, Field3, Byte0, Byte1, Byte2;
    if |s| == 1 {
      assert PackRest(1, s[0], s[1..]) == [Field1(s[0], 0)];
    } else if |s| == 2 {
      assert PackRest(1, s[0], s[1..]) == [Field1(s[0], s[1])] + PackRest(2, s[1], s[1..][1..]);
    } else if |s| >= 3 {
      assert s[1..][1..] == s[2..] && s[2..][1..] == s[3..];
      PackRestIsPack(s[2], s[3..]);
      assert PackRest(2, s[1], s[2..]) == [Field2(s[1], s[2]), Field3(s[2])] + PackRest(0, s[2], s[3..]);
      assert PackRest(1, s[0], s[1..]) == [Field1(s[0], s[1])] + PackRest(2, s[1], s[2..]);
    }
  }

  lemma SpellAppend(xs: seq<sextet>, x: sextet)
    ensures Spell(xs + [x]) == Spell(xs) + [Letter(x)]
  {
    hide Letter;
  }

  /** The encoding loop computes the RFC's grouping, for inputs of any length. */
  method Base64UrlEncode(input: string) returns (encoded: string)
    ensures encoded == Encode(input)
  {
    hide Field0, Field1, Field2, Field3, Wrap32, SixBits, Letter, Value, Pack, Spell, Codes, PackRest;
    encoded := [];
    var val, valb := 0, -6;
    ghost var codes := Codes(input);
    ghost var phase, last: byte, written: seq<sextet> := 0, 0, [];
    PackRestIsPack(last, codes);
    assert codes[0..] == codes;
    for i := 0 to |input|
      invariant phase < 3 && valb == 2 * phase - 6
      invariant val % 256 == last
      invariant encoded == Spell(written)
      invariant written + PackRest(phase, last, codes[i..]) == Pack(codes)
    {
      var c := input[i] as int % 256;
      assert c == codes[i];
      EncoderBits(val, last, c);
      PackRestStep(phase, last, codes, i, written);
      val := Wrap32(val * 256 + c);
      valb := valb + 8;
      SpellAppend(written, SixBits(val, valb));
      written := written + [SixBits(val, valb)];
      encoded := encoded + [Letter(SixBits(val, valb))];
      valb := valb - 6;
      if valb >= 0 {
        SpellAppend(written, SixBits(val, valb));
        written := written + [SixBits(val, valb)];
        encoded := encoded + [Letter(SixBits(val, valb))];
        valb := valb - 6;
      }
      phase := if phase == 2 then 0 else phase + 1;
      last := c;
    }
    PackRestEnd(phase, last);
    assert codes[|input|..] == [];
    if valb > -6 {
      EncoderBits(val, last, 0);
      SpellAppend(written, SixBits(Wrap32(val * 256), valb + 8));
      encoded := encoded + [Letter(SixBits(Wrap32(val * 256), valb + 8))];
    }
  }

  lemma PackRestEnd(phase: nat, last: byte)
    requires phase < 3
    ensures PackRest(phase, last, [])
         == if phase == 0 then [] else if phase == 1 then [Field1(last, 0)] else [Field2(last, 0)]
  {
  }

  lemma PackRestStep(phase: nat, last: byte, codes: seq<byte>, i: nat, written: seq<sextet>)
    requires phase < 3 && i < |codes|
    ensures var c := codes[i];
            written + PackRest(phase, last, codes[i..])
            == if phase == 0 then written + [Field0(c)] + PackRest(1, c, codes[i + 1..])
               else if phase == 1 then written + [Field1(last, c)] + PackRest(2, c, codes[i + 1..])
               else written + [Field2(last, c)] + [Field3(c)] + PackRest(0, c, codes[i + 1..])
  {
    hide Field0, Field1, Field2, Field3;
    assert codes[i..][0] == codes[i] && codes[i..][1..] == codes[i + 1..];
  }

  /** What is still to be read when the last letter's value was `last` and all but
      (6 * phase) % 8 bits have been used. */
  function UnpackRest(phase: nat, last: sextet, rest: seq<sextet>): seq<byte>
    requires phase < 4
    decreases |rest|
  {
    if rest == [] then []
    else if phase == 0 then UnpackRest(1, rest[0], rest[1..])
    else if phase == 1 then [Byte0(last, rest[0])] + UnpackRest(2, rest[0], rest[1..])
    else if phase == 2 then [Byte1(last, rest[0])] + UnpackRest(3, rest[0], rest[1..])
    else [Byte2(last, rest[0])] + UnpackRest(0, rest[0], rest[1..])
  }

  lemma {:induction false} UnpackRestIsUnpack(last: sextet, t: seq<sextet>)
    ensures UnpackRest(0, last, t) == Unpack(t)
    decreases |t|
  {
    hide Field0, Field1, Field2, Field3, Byte0, Byte1, Byte2;
    if |t| >= 2 {
      assert t[1..][1..] == t[2..];
      if |t| >= 3 {
        assert t[2..][1..] == t[3..];
        if |t| >= 4 {
          assert t[3..][1..] == t[4..];
          UnpackRestIsUnpack(t[3], t[4..]);
          assert UnpackRest(3, t[2], t[3..]) == [Byte2(t[2], t[3])] + Unpack(t[4..]);
        }
        assert UnpackRest(2, t[1], t[2..]) == [Byte1(t[1], t[2])] + UnpackRest(3, t[2], t[3..]);
      }
      assert UnpackRest(1, t[0], t[1..]) == [Byte0(t[0], t[1])] + UnpackRest(2, t[1], t[2..]);
    }
  }

  lemma UnpackRestStep(phase: nat, last: sextet, xs: seq<sextet>, i: nat, read: seq<byte>)
    requires phase < 4 && i < |xs|
    ensures var x := xs[i];
            read + UnpackRest(phase, last, xs[i..])
            == if phase == 0 then read + UnpackRest(1, x, xs[i + 1..])
               else if phase == 1 then read + [Byte0(last, x)] + UnpackRest(2, x, xs[i + 1..])
               else if phase == 2 then read + [Byte1(last, x)] + UnpackRest(3, x, xs[i + 1..])
               else read + [Byte2(last, x)] + UnpackRest(0, x, xs[i + 1..])
  {
    hide Byte0, Byte1, Byte2;
    assert xs[i..][0] == xs[i] && xs[i..][1..] == xs[i + 1..];
  }

  lemma CharsAppend(bs: seq<byte>, b: byte)
    ensures Chars(bs + [b]) == Chars(bs) + [b as char]
  {
  }

  lemma ValuesAt(t: string, i: nat)
    requires i < |Readable(t)|
    ensures i < |t| && Values(Readable(t))[i] == Value(t[i]) != -1
  {
    ReadableStops(t, i);
  }

  /** The decoding loop computes the grouping, and stops at the first foreign character. */
  method Base64UrlDecode(input: string) returns (decoded: string)
    ensures decoded == Decode(input)
  {
    hide Byte0, Byte1, Byte2, Wrap32, EightBits, Value, Unpack, Readable, Values, Chars, UnpackRest;
    decoded := [];
    var val, valb := 0, -8;
    ghost var xs := Values(Readable(input));
    ghost var phase, last: sextet, read: seq<byte> := 0, 0, [];
    UnpackRestIsUnpack(last, xs);
    assert xs[0..] == xs;
    var i := 0;
    while i < |input|
      invariant i <= |xs|
      invariant 0 <= phase < 4 && valb == (if phase == 0 then -8 else 2 * (2 - phase) - 4)
      invariant val % 64 == last
      invariant decoded == Chars(read)
      invariant read + UnpackRest(phase, last, xs[i..]) == Unpack(xs)
    {
      ReadableStops(input, i);
      var x := Value(input[i]);
      if x == -1 { break; }
      ValuesAt(input, i);
      DecoderBits(val, last, x);
      UnpackRestStep(phase, last, xs, i, read);
      val := Wrap32(val * 64 + x);
      valb := valb + 6;
      if valb >= 0 {
        CharsAppend(read, EightBits(val, valb));
        read := read + [EightBits(val, valb)];
        decoded := decoded + [EightBits(val, valb) as char];
        valb := valb - 8;
      }
      phase := if phase == 3 then 0 else phase + 1;
      last := x;
      i := i + 1;
    }
    UnpackRestEnd(phase, last, xs, i);
    assert read + [] == read;
  }

  lemma UnpackRestEnd(phase: nat, last: sextet, xs: seq<sextet>, i: nat)
    requires phase < 4 && i == |xs|
    ensures UnpackRest(phase, last, xs[i..]) == []
  {
  }
}
