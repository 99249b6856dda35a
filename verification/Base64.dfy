/**
 * The Base64 codec of IOUtils.cpp: two streaming loops over 3-byte and 4-character groups, with
 * the alphabet and padding of section 4 of RFC 4648.
 */
module Base64 {
  /** An unsigned char. C computes with its value as an int and truncates when it is stored back. */
  type Byte = x: int | 0 <= x < 256

  /** The string the program looks its characters up in. */
  const BASE64_CHARS: string := "ABCDEFGHIJKLMNOPQRSTUVWXYZ" + "abcdefghijklmnopqrstuvwxyz" + "0123456789+/"

  /** std::string::npos */
  const NPOS := 0x1_0000_0000_0000_0000 - 1

  /** isalnum in the C locale, '+' and '/'. */
  predicate IsBase64(c: char) {
    'A' <= c <= 'Z' || 'a' <= c <= 'z' || '0' <= c <= '9' || c == '+' || c == '/'
  }

  /** BASE64_CHARS[x], in closed form; AlphabetText shows that it is. */
  function Char(x: int): (c: char)
    requires 0 <= x < 64
    ensures IsBase64(c)
  {
    if x < 26 then 'A' + x as char
    else if x < 52 then 'a' + (x - 26) as char
    else if x < 62 then '0' + (x - 52) as char
    else if x == 62 then '+' else '/'
  }

  /** base64_chars.find(c), from position i on. */
  function FindFrom(c: char, i: nat): nat
    decreases 64 - i
  {
    if i >= 64 then NPOS else if Char(i) == c then i else FindFrom(c, i + 1)
  }

  /** (unsigned char)base64_chars.find(c): a failed search is truncated to 255. */
  function Value(c: char): Byte { FindFrom(c, 0) % 256 }

  /**
   * The four sextets of a 3-byte group, as the encoder computes them. Its masks and shifts are
   * written as divisions and remainders; EncoderMasks shows that they agree.
   */
  function Split(a: Byte, b: Byte, c: Byte): (s: (Byte, Byte, Byte, Byte))
    ensures s.0 < 64 && s.1 < 64 && s.2 < 64 && s.3 < 64
  {
    (Sextet0(a), Sextet1(a, b), Sextet2(b, c), Sextet3(c))
  }

  function Sextet0(a: Byte): (s: Byte)
    ensures s < 64
  {
    a / 4
  }

  function Sextet1(a: Byte, b: Byte): (s: Byte)
    ensures s < 64
  {
    a % 4 * 16 + b / 16
  }

  function Sextet2(b: Byte, c: Byte): (s: Byte)
    ensures s < 64
  {
    b % 16 * 4 + c / 64
  }

  function Sextet3(c: Byte): (s: Byte)
    ensures s < 64
  {
    c % 64
  }

  /** The three bytes of a group of sextets, as the decoder computes them; see DecoderMasks. */
  function Join(s0: Byte, s1: Byte, s2: Byte, s3: Byte): (Byte, Byte, Byte) {
    (Byte0(s0, s1), Byte1(s1, s2), Byte2(s2, s3))
  }

  function Byte0(s0: Byte, s1: Byte): Byte { (s0 * 4 + s1 / 16 % 4) % 256 }

  function Byte1(s1: Byte, s2: Byte): Byte { (s1 % 16 * 16 + s2 / 4 % 16) % 256 }

  function Byte2(s2: Byte, s3: Byte): Byte { (s2 % 4 * 64 + s3) % 256 }

  lemma RightTwo(x: bv8)
    ensures (x >> 2) as int == x as int / 4
  {
  }

  lemma RightFour(x: bv8)
    ensures (x >> 4) as int == x as int / 16
  {
  }

  lemma RightSix(x: bv8)
    ensures (x >> 6) as int == x as int / 64
  {
  }

  lemma LowTwo(x: bv8)
    ensures (x & 0x03) as int == x as int % 4
  {
  }

  lemma LowFour(x: bv8)
    ensures (x & 0x0f) as int == x as int % 16
  {
  }

  lemma LowSix(x: bv8)
    ensures (x & 0x3f) as int == x as int % 64
  {
  }

  lemma LeftTwo(x: bv8)
    ensures x < 64 ==> (x << 2) as int == x as int * 4
  {
  }

  lemma LeftFour(x: bv8)
    ensures x < 16 ==> (x << 4) as int == x as int * 16
  {
  }

  lemma LeftSix(x: bv8)
    ensures x < 4 ==> (x << 6) as int == x as int * 64
  {
  }

  /** char_array_3[i] shifted right by the encoder, and its low six bits. */
  lemma EncoderRightShifts(x: bv8)
    ensures ((x & 0xfc) >> 2) as int == x as int / 4
    ensures ((x & 0xf0) >> 4) as int == x as int / 16
    ensures ((x & 0xc0) >> 6) as int == x as int / 64
    ensures (x & 0x3f) as int == x as int % 64
  {
    RightTwo(x); RightFour(x); RightSix(x); LowSix(x);
    assert (x & 0xfc) >> 2 == x >> 2 && (x & 0xf0) >> 4 == x >> 4 && (x & 0xc0) >> 6 == x >> 6;
  }

  /** The low bits that the encoder shifts left; the decoder shifts four bits in the same way. */
  lemma LowTwoLeftFour(x: bv8)
    ensures ((x & 0x03) << 4) as int == x as int % 4 * 16
  {
    LowTwo(x); LeftFour(x & 0x03);
  }

  lemma LowFourLeftTwo(x: bv8)
    ensures ((x & 0x0f) << 2) as int == x as int % 16 * 4
  {
    LowFour(x); LeftTwo(x & 0x0f);
  }

  lemma LowFourLeftFour(x: bv8)
    ensures ((x & 0x0f) << 4) as int == x as int % 16 * 16
  {
    LowFour(x); LeftFour(x & 0x0f);
  }

  lemma LowTwoLeftSix(x: bv8)
    ensures ((x & 0x03) << 6) as int == x as int % 4 * 64
  {
    LowTwo(x); LeftSix(x & 0x03);
  }

  lemma MiddleTwo(x: bv8)
    ensures ((x & 0x30) >> 4) as int == x as int / 16 % 4
  {
    RightFour(x); LowTwo(x >> 4);
    assert (x & 0x30) >> 4 == (x >> 4) & 0x03;
  }

  lemma MiddleFour(x: bv8)
    ensures ((x & 0x3c) >> 2) as int == x as int / 4 % 16
  {
    RightTwo(x); LowFour(x >> 2);
    assert (x & 0x3c) >> 2 == (x >> 2) & 0x0f;
  }

  lemma TruncatedLeftTwo(x: bv8)
    ensures (x << 2) as int == x as int * 4 % 256
  {
    LowSix(x); LeftTwo(x & 0x3f);
    assert x << 2 == (x & 0x3f) << 2;
    TimesFour(x as int);
  }

  lemma TimesFour(n: nat)
    ensures n * 4 % 256 == n % 64 * 4
  {
    assert n == n / 64 * 64 + n % 64;
  }

  /** Every mask and shift of the encoder, on all 8-bit values. */
  lemma EncoderMasks(x: bv8)
    ensures ((x & 0xfc) >> 2) as int == x as int / 4
    ensures ((x & 0x03) << 4) as int == x as int % 4 * 16
    ensures ((x & 0xf0) >> 4) as int == x as int / 16
    ensures ((x & 0x0f) << 2) as int == x as int % 16 * 4
    ensures ((x & 0xc0) >> 6) as int == x as int / 64
    ensures (x & 0x3f) as int == x as int % 64
  {
    EncoderRightShifts(x);
    LowTwoLeftFour(x);
    LowFourLeftTwo(x);
  }

  /** Every mask and shift of the decoder, on all 8-bit values; the first shift is truncated to a byte. */
  lemma DecoderMasks(x: bv8)
    ensures (x << 2) as int == x as int * 4 % 256
    ensures ((x & 0x30) >> 4) as int == x as int / 16 % 4
    ensures ((x & 0x0f) << 4) as int == x as int % 16 * 16
    ensures ((x & 0x3c) >> 2) as int == x as int / 4 % 16
    ensures ((x & 0x03) << 6) as int == x as int % 4 * 64
  {
    TruncatedLeftTwo(x);
    MiddleTwo(x);
    LowFourLeftFour(x);
    MiddleFour(x);
    LowTwoLeftSix(x);
  }

  /** Char is subscripting of the program's string. */
  lemma AlphabetText(i: nat)
    requires i < 64
    ensures |BASE64_CHARS| == 64 && BASE64_CHARS[i] == Char(i)
  {
    if i < 26 { UpperAt(i); } else if i < 52 { LowerAt(i); } else { DigitAt(i); }
  }

  lemma UpperAt(i: nat)
    requires i < 26
    ensures BASE64_CHARS[i] == Char(i)
  {
  }

  lemma LowerAt(i: nat)
    requires 26 <= i < 52
    ensures BASE64_CHARS[i] == Char(i)
  {
  }

  lemma DigitAt(i: nat)
    requires 52 <= i < 64
    ensures BASE64_CHARS[i] == Char(i)
  {
  }

  function Quad(a: Byte, b: Byte, c: Byte): (q: string)
    ensures |q| == 4
  {
    var s := Split(a, b, c);
    [Char(s.0), Char(s.1), Char(s.2), Char(s.3)]
  }

  function Pads(n: nat): (p: string)
    ensures |p| == n
  {
    seq(n, _ => '=')
  }

  /** The characters of a last group of one or two bytes, filled up with zero bytes. */
  function LastQuad(b: seq<Byte>): (q: string)
    requires 1 <= |b| <= 2
    ensures |q| == |b| + 1
  {
    Quad(b[0], if |b| == 2 then b[1] else 0, 0)[..|b| + 1]
  }

  function Encode(b: seq<Byte>): string {
    if |b| == 0 then ""
    else if |b| < 3 then LastQuad(b) + Pads(3 - |b|)
    else Quad(b[0], b[1], b[2]) + Encode(b[3..])
  }

  function PrefixLength(s: string): (k: nat)
    ensures k <= |s|
    ensures forall i :: 0 <= i < k ==> IsBase64(s[i])
    ensures k < |s| ==> !IsBase64(s[k])
  {
    if s == "" || !IsBase64(s[0]) then 0 else 1 + PrefixLength(s[1..])
  }

  /** The longest prefix of characters of the alphabet. */
  function Prefix(s: string): string { s[..PrefixLength(s)] }

  function Triple(p: string): (t: seq<Byte>)
    requires |p| == 4
    ensures |t| == 3
  {
    var t := Join(Value(p[0]), Value(p[1]), Value(p[2]), Value(p[3]));
    [t.0, t.1, t.2]
  }

  /** Whole groups, then i - 1 bytes of a tail of i characters that is filled up with NUL. */
  function DecodeGroups(p: string): seq<Byte> {
    if |p| >= 4 then Triple(p[..4]) + DecodeGroups(p[4..])
    else if |p| == 0 then []
    else Triple(p + seq(4 - |p|, i => '\0'))[..|p| - 1]
  }

  function Decode(s: string): seq<Byte> { DecodeGroups(Prefix(s)) }

  // ------------------------------------------------------------------ the alphabet

  function Index(c: char): (i: nat)
    requires IsBase64(c)
    ensures i < 64 && Char(i) == c
  {
    if 'A' <= c <= 'Z' then c as int - 'A' as int
    else if 'a' <= c <= 'z' then c as int - 'a' as int + 26
    else if '0' <= c <= '9' then c as int - '0' as int + 52
    else if c == '+' then 62 else 63
  }

  lemma {:induction false} FindSpec(c: char, i: nat)
    requires i <= 64
    ensures IsBase64(c) && i <= Index(c) ==> FindFrom(c, i) == Index(c)
    ensures !IsBase64(c) ==> FindFrom(c, i) == NPOS
    decreases 64 - i
  {
    if i < 64 {
      assert Index(Char(i)) == i;
      FindSpec(c, i + 1);
    }
  }

  /** The alphabet and the search are inverse to each other; every other character is found at 255. */
  lemma ValueSpec(c: char)
    ensures IsBase64(c) ==> Value(c) < 64 && Char(Value(c)) == c
    ensures !IsBase64(c) ==> Value(c) == 255
  {
    hide FindFrom, Index, Char, IsBase64;
    FindSpec(c, 0);
    assert NPOS % 256 == 255;
  }

  lemma CharSpec(x: int)
    requires 0 <= x < 64
    ensures Value(Char(x)) == x
  {
    hide FindFrom;
    FindSpec(Char(x), 0);
    assert Index(Char(x)) == x;
  }

  // ------------------------------------------------------------------ groups

  lemma Packed4(high: int, low: int)
    requires 0 <= low < 4
    ensures (high * 4 + low) / 4 == high && (high * 4 + low) % 4 == low
  {
  }

  lemma Packed16(high: int, low: int)
    requires 0 <= low < 16
    ensures (high * 16 + low) / 16 == high && (high * 16 + low) % 16 == low
  {
  }

  lemma Packed64(high: int, low: int)
    requires 0 <= low < 64
    ensures (high * 64 + low) / 64 == high && (high * 64 + low) % 64 == low
  {
  }

  lemma Byte0OfSextets(a: Byte, b: Byte)
    ensures Byte0(Sextet0(a), Sextet1(a, b)) == a
  {
    Packed16(a % 4, b / 16);
  }

  lemma Byte1OfSextets(a: Byte, b: Byte, c: Byte)
    ensures Byte1(Sextet1(a, b), Sextet2(b, c)) == b
  {
    Packed16(a % 4, b / 16);
    Packed4(b % 16, c / 64);
  }

  lemma Byte2OfSextets(b: Byte, c: Byte)
    ensures Byte2(Sextet2(b, c), Sextet3(c)) == c
  {
    Packed4(b % 16, c / 64);
  }

  lemma JoinSplit(a: Byte, b: Byte, c: Byte)
    ensures var s := Split(a, b, c); Join(s.0, s.1, s.2, s.3) == (a, b, c)
  {
    hide Sextet0, Sextet1, Sextet2, Sextet3, Byte0, Byte1, Byte2;
    Byte0OfSextets(a, b);
    Byte1OfSextets(a, b, c);
    Byte2OfSextets(b, c);
  }

  /** Byte0 and Byte1 of sextets, without truncation. */
  lemma NoTruncation(s0: Byte, s1: Byte, s2: Byte, s3: Byte)
    requires s0 < 64 && s1 < 64 && s2 < 64 && s3 < 64
    ensures Byte0(s0, s1) == s0 * 4 + s1 / 16
    ensures Byte1(s1, s2) == s1 % 16 * 16 + s2 / 4
    ensures Byte2(s2, s3) == s2 % 4 * 64 + s3
  {
  }

  lemma Sextet0OfBytes(s0: Byte, s1: Byte)
    requires s0 < 64 && s1 < 64
    ensures Sextet0(Byte0(s0, s1)) == s0
  {
    hide Byte0;
    NoTruncation(s0, s1, 0, 0);
    Packed4(s0, s1 / 16);
  }

  lemma Sextet1OfBytes(s0: Byte, s1: Byte, s2: Byte)
    requires s0 < 64 && s1 < 64 && s2 < 64
    ensures Sextet1(Byte0(s0, s1), Byte1(s1, s2)) == s1
  {
    hide Byte0, Byte1;
    NoTruncation(s0, s1, s2, 0);
    Packed4(s0, s1 / 16);
    Packed16(s1 % 16, s2 / 4);
  }

  lemma Sextet2OfBytes(s1: Byte, s2: Byte, s3: Byte)
    requires s1 < 64 && s2 < 64 && s3 < 64
    ensures Sextet2(Byte1(s1, s2), Byte2(s2, s3)) == s2
  {
    hide Byte1, Byte2;
    NoTruncation(0, s1, s2, s3);
    Packed16(s1 % 16, s2 / 4);
    Packed64(s2 % 4, s3);
  }

  lemma Sextet3OfBytes(s2: Byte, s3: Byte)
    requires s2 < 64 && s3 < 64
    ensures Sextet3(Byte2(s2, s3)) == s3
  {
    hide Byte2;
    NoTruncation(0, 0, s2, s3);
    Packed64(s2 % 4, s3);
  }

  lemma SplitJoin(s0: Byte, s1: Byte, s2: Byte, s3: Byte)
    requires s0 < 64 && s1 < 64 && s2 < 64 && s3 < 64
    ensures var t := Join(s0, s1, s2, s3); Split(t.0, t.1, t.2) == (s0, s1, s2, s3)
  {
    hide Sextet0, Sextet1, Sextet2, Sextet3, Byte0, Byte1, Byte2;
    Sextet0OfBytes(s0, s1);
    Sextet1OfBytes(s0, s1, s2);
    Sextet2OfBytes(s1, s2, s3);
    Sextet3OfBytes(s2, s3);
  }

  lemma QuadSpec(a: Byte, b: Byte, c: Byte)
    ensures forall i :: 0 <= i < 4 ==> IsBase64(Quad(a, b, c)[i])
    ensures Triple(Quad(a, b, c)) == [a, b, c]
  {
    hide Char, Value, IsBase64, Sextet0, Sextet1, Sextet2, Sextet3, Byte0, Byte1, Byte2;
    var s := Split(a, b, c);
    CharSpec(s.0); CharSpec(s.1); CharSpec(s.2); CharSpec(s.3);
    JoinSplit(a, b, c);
  }

  lemma TripleSpec(p: string)
    requires |p| == 4 && forall i :: 0 <= i < 4 ==> IsBase64(p[i])
    ensures var t := Triple(p); Quad(t[0], t[1], t[2]) == p
  {
    hide Char, Value, IsBase64, Sextet0, Sextet1, Sextet2, Sextet3, Byte0, Byte1, Byte2;
    ValueSpec(p[0]); ValueSpec(p[1]); ValueSpec(p[2]); ValueSpec(p[3]);
    SplitJoin(Value(p[0]), Value(p[1]), Value(p[2]), Value(p[3]));
  }

  lemma {:induction false} PrefixLengthOfConcat(p: string, rest: string)
    requires forall i :: 0 <= i < |p| ==> IsBase64(p[i])
    ensures PrefixLength(p + rest) == |p| + PrefixLength(rest)
  {
    hide IsBase64;
    if p == "" {
      assert p + rest == rest;
    } else {
      assert (p + rest)[0] == p[0] && (p + rest)[1..] == p[1..] + rest;
      PrefixLengthOfConcat(p[1..], rest);
    }
  }

  lemma PrefixOfConcat(p: string, rest: string)
    requires forall i :: 0 <= i < |p| ==> IsBase64(p[i])
    ensures PrefixLength(p + rest) == |p| + PrefixLength(rest)
    ensures Prefix(p + rest) == p + Prefix(rest)
  {
    hide PrefixLength;
    PrefixLengthOfConcat(p, rest);
    assert (p + rest)[..|p| + PrefixLength(rest)] == p + rest[..PrefixLength(rest)];
  }

  // ------------------------------------------------------------------ the streaming loops

  lemma PrefixStep(s: string, i: nat)
    requires i < |s|
    ensures Prefix(s[i..]) == if IsBase64(s[i]) then [s[i]] + Prefix(s[i + 1..]) else []
  {
    assert s[i..][0] == s[i] && s[i..][1..] == s[i + 1..];
  }

  lemma EncodeStep(group: seq<Byte>, rest: seq<Byte>)
    requires |group| == 3
    ensures Encode(group + rest) == Quad(group[0], group[1], group[2]) + Encode(rest)
  {
    assert (group + rest)[3..] == rest;
  }

  lemma EncodeNothing()
    ensures Encode([]) == ""
  {
  }

  /** Append the characters of the first `count` sextets. */
  method AppendChars(text: string, charArray4: array<Byte>, count: nat) returns (ret: string)
    requires charArray4.Length == 4 && count <= 4 && forall k :: 0 <= k < 4 ==> charArray4[k] < 64
    ensures ret == text + [Char(charArray4[0]), Char(charArray4[1]), Char(charArray4[2]), Char(charArray4[3])][..count]
  {
    ghost var quad := [Char(charArray4[0]), Char(charArray4[1]), Char(charArray4[2]), Char(charArray4[3])];
    ret := text;
    for j := 0 to count
      invariant ret == text + quad[..j]
    {
      assert quad[j] == Char(charArray4[j]);
      ret := ret + [Char(charArray4[j])];
    }
  }

  /** Compute the four sextets of charArray3 and append the characters of the first `count` of them. */
  method AppendSextets(text: string, charArray3: array<Byte>, count: nat) returns (ret: string)
    requires charArray3.Length == 3 && count <= 4
    ensures ret == text + Quad(charArray3[0], charArray3[1], charArray3[2])[..count]
  {
    hide Char, Sextet0, Sextet1, Sextet2, Sextet3;
    var charArray4 := new Byte[4](_ => 0);
    var s := Split(charArray3[0], charArray3[1], charArray3[2]);
    charArray4[0], charArray4[1], charArray4[2], charArray4[3] := s.0, s.1, s.2, s.3;
    ret := AppendChars(text, charArray4, count);
  }

  /** Encode the last one or two bytes: fill up with zeros, append i + 1 characters and the padding. */
  method AppendTail(text: string, charArray3: array<Byte>, count: nat) returns (ret: string)
    requires charArray3.Length == 3 && 1 <= count <= 2
    modifies charArray3
    ensures ret == text + Encode(old(charArray3[..count]))
  {
    for j := count to 3
      invariant charArray3[..count] == old(charArray3[..count])
      invariant forall k :: count <= k < j ==> charArray3[k] == 0
    {
      charArray3[j] := 0;
    }
    ghost var tail := charArray3[..count];
    assert charArray3[0] == tail[0] && (count == 2 ==> charArray3[1] == tail[1]);
    ret := AppendSextets(text, charArray3, count + 1);
    assert ret == text + LastQuad(tail);
    ghost var shown := ret;
    var i := count;
    while i < 3
      invariant count <= i <= 3
      invariant ret == shown + Pads(i - count)
    {
      ret := ret + "=";
      i := i + 1;
    }
  }

  /** A full group: append its four characters. */
  method EncodeGroup(text: string, charArray3: array<Byte>, ghost rest: seq<Byte>) returns (ret: string)
    requires charArray3.Length == 3
    ensures ret + Encode(rest) == text + Encode(charArray3[..] + rest)
  {
    hide Split;
    EncodeStep(charArray3[..], rest);
    ret := AppendSextets(text, charArray3, 4);
  }

  /** One round of the loop: take in a byte, and emit a group when three are there. */
  method EncodeByte(text: string, charArray3: array<Byte>, i: nat, x: Byte, ghost rest: seq<Byte>)
    returns (ret: string, i': nat)
    requires charArray3.Length == 3 && i < 3
    modifies charArray3
    ensures i' < 3
    ensures ret + Encode(charArray3[..i'] + rest) == text + Encode(old(charArray3[..i]) + [x] + rest)
  {
    hide Encode;
    charArray3[i] := x;
    ret, i' := text, i + 1;
    assert charArray3[..i'] == old(charArray3[..i]) + [x];
    if i' == 3 {
      assert charArray3[..3] == charArray3[..];
      ret := EncodeGroup(ret, charArray3, rest);
      i' := 0;
      assert charArray3[..0] + rest == rest;
    }
  }

  method Base64Encode(bytesToEncode: seq<Byte>, inLen: nat) returns (ret: string)
    requires inLen <= |bytesToEncode|
    ensures ret == Encode(bytesToEncode[..inLen])
  {
    hide Encode;
    assert Encode([]) == "" by { EncodeNothing(); }
    ret := "";
    ghost var rest := bytesToEncode[..inLen];
    var charArray3 := new Byte[3](_ => 0);
    var i, iter := 0, 0;
    assert charArray3[..0] + rest == rest;
    while iter < inLen
      invariant 0 <= i < 3 && iter <= inLen
      invariant rest == bytesToEncode[iter..inLen]
      invariant Encode(bytesToEncode[..inLen]) == ret + Encode(charArray3[..i] + rest)
    {
      assert charArray3[..i] + rest == charArray3[..i] + [bytesToEncode[iter]] + rest[1..];
      rest := rest[1..];
      ret, i := EncodeByte(ret, charArray3, i, bytesToEncode[iter], rest);
      iter := iter + 1;
    }
    assert charArray3[..i] + rest == charArray3[..i];
    if i > 0 {
      ret := AppendTail(ret, charArray3, i);
    } else {
      assert charArray3[..i] == [];
    }
  }

  lemma DecodeStep(p: string, rest: string)
    requires |p| == 4
    ensures DecodeGroups(p + rest) == Triple(p) + DecodeGroups(rest)
  {
    assert (p + rest)[..4] == p && (p + rest)[4..] == rest;
  }

  /** Look up the four characters and append the first `count` of the three bytes they stand for. */
  method AppendBytes(bytes: seq<Byte>, raw: array<char>, count: nat) returns (ret: seq<Byte>)
    requires raw.Length == 4 && count <= 3
    ensures ret == bytes + Triple(raw[..])[..count]
  {
    hide Value, Byte0, Byte1, Byte2;
    var charArray4 := new Byte[4](_ => 0);
    for j := 0 to 4
      invariant forall k :: 0 <= k < j ==> charArray4[k] == Value(raw[k])
    {
      charArray4[j] := Value(raw[j]);
    }
    var t := Join(charArray4[0], charArray4[1], charArray4[2], charArray4[3]);
    var charArray3 := new Byte[3](_ => 0);
    charArray3[0], charArray3[1], charArray3[2] := t.0, t.1, t.2;
    ghost var triple := Triple(raw[..]);
    assert triple == [t.0, t.1, t.2];
    ret := bytes;
    for j := 0 to count
      invariant ret == bytes + triple[..j]
      invariant charArray3[0] == t.0 && charArray3[1] == t.1 && charArray3[2] == t.2
    {
      ret := ret + [charArray3[j]];
    }
  }

  /** Decode the last i characters: fill up with NUL and append i - 1 bytes. */
  method AppendLastBytes(bytes: seq<Byte>, raw: array<char>, i: nat) returns (ret: seq<Byte>)
    requires raw.Length == 4 && 1 <= i <= 3
    modifies raw
    ensures ret == bytes + DecodeGroups(old(raw[..i]))
  {
    for j := i to 4
      invariant raw[..i] == old(raw[..i])
      invariant forall k :: i <= k < j ==> raw[k] == '\0'
    {
      raw[j] := '\0';
    }
    assert raw[..] == raw[..i] + seq(4 - i, _ => '\0');
    ret := AppendBytes(bytes, raw, i - 1);
  }

  /** One round of the loop: take in a character, and emit three bytes when four are there. */
  method DecodeChar(bytes: seq<Byte>, raw: array<char>, i: nat, c: char, ghost rest: string)
    returns (ret: seq<Byte>, i': nat)
    requires raw.Length == 4 && i < 4
    modifies raw
    ensures i' < 4
    ensures ret + DecodeGroups(raw[..i'] + rest) == bytes + DecodeGroups(old(raw[..i]) + [c] + rest)
  {
    hide Triple, DecodeGroups;
    raw[i] := c;
    ret, i' := bytes, i + 1;
    assert raw[..i'] == old(raw[..i]) + [c];
    if i' == 4 {
      DecodeStep(raw[..4], rest);
      assert raw[..4] == raw[..];
      ret := AppendBytes(ret, raw, 3);
      i' := 0;
      assert raw[..0] + rest == rest;
    }
  }

  method Base64Decode(encoded: string) returns (ret: seq<Byte>)
    ensures ret == Decode(encoded)
  {
    hide Triple, PrefixLength, DecodeGroups, Prefix;
    ret := [];
    var raw := new char[4](_ => '\0');
    var i, at := 0, 0;
    ghost var rest := Prefix(encoded);
    assert raw[..0] + rest == rest && encoded[0..] == encoded;
    while at < |encoded| && encoded[at] != '=' && IsBase64(encoded[at])
      invariant 0 <= i < 4 && at <= |encoded|
      invariant rest == Prefix(encoded[at..])
      invariant Decode(encoded) == ret + DecodeGroups(raw[..i] + rest)
      decreases |encoded| - at
    {
      PrefixStep(encoded, at);
      assert raw[..i] + rest == raw[..i] + [encoded[at]] + rest[1..];
      rest := rest[1..];
      ret, i := DecodeChar(ret, raw, i, encoded[at], rest);
      at := at + 1;
    }
    PrefixEnds(encoded, at);
    assert raw[..i] + "" == raw[..i];
    if i > 0 {
      ret := AppendLastBytes(ret, raw, i);
    } else {
      assert raw[..i] == "";
      DecodeNothing();
    }
  }

  lemma DecodeNothing()
    ensures DecodeGroups("") == []
  {
  }

  lemma PrefixEnds(s: string, at: nat)
    requires at <= |s| && (at < |s| ==> !IsBase64(s[at]))
    ensures Prefix(s[at..]) == ""
  {
  }
}
