/** What the codec promises: the bits of RFC 4648, the round trip, and the texts it maps back to themselves. */
module Base64Proofs {
  import opened Base64

  function Padding(n: nat): nat { (3 - n % 3) % 3 }

  lemma PrefixOfPadded(p: string, n: nat)
    requires forall i :: 0 <= i < |p| ==> IsBase64(p[i])
    ensures Prefix(p + Pads(n)) == p && PrefixLength(p + Pads(n)) == |p|
  {
    PrefixOfConcat(p, Pads(n));
    assert Prefix(Pads(n)) == "";
    assert p + "" == p;
  }

  // ------------------------------------------------------------------ shape

  /** The last, incomplete group. */
  lemma TailShape(b: seq<Byte>)
    requires 1 <= |b| <= 2
    ensures Encode(b) == LastQuad(b) + Pads(3 - |b|)
    ensures Prefix(Encode(b)) == LastQuad(b) && PrefixLength(Encode(b)) == |b| + 1
  {
    hide Quad, Prefix, PrefixLength, IsBase64, Triple;
    QuadSpec(b[0], if |b| == 2 then b[1] else 0, 0);
    PrefixOfPadded(LastQuad(b), 3 - |b|);
  }

  lemma GroupShape(b: seq<Byte>)
    requires |b| >= 3
    ensures var quad := Quad(b[0], b[1], b[2]);
            && Encode(b) == quad + Encode(b[3..])
            && Prefix(Encode(b)) == quad + Prefix(Encode(b[3..]))
            && PrefixLength(Encode(b)) == 4 + PrefixLength(Encode(b[3..]))
  {
    QuadSpec(b[0], b[1], b[2]);
    PrefixOfConcat(Quad(b[0], b[1], b[2]), Encode(b[3..]));
  }

  /** e has the length, the padding and the alphabet of an encoding of n bytes. */
  predicate Shaped(e: string, n: nat) {
    && |e| == (n + 2) / 3 * 4
    && PrefixLength(e) == |e| - Padding(n)
    && e == Prefix(e) + Pads(Padding(n))
    && forall i :: PrefixLength(e) <= i < |e| ==> e[i] == '='
  }

  /** The padding is made of equals signs. */
  lemma PadsAreEquals(p: string, n: nat)
    ensures forall i :: |p| <= i < |p + Pads(n)| ==> (p + Pads(n))[i] == '='
  {
  }

  lemma ShapedGroup(q: string, e: string, n: nat)
    requires |q| == 4 && (forall i :: 0 <= i < 4 ==> IsBase64(q[i])) && Shaped(e, n)
    ensures Shaped(q + e, n + 3)
  {
    hide PrefixLength, Prefix, Pads, IsBase64, Padding;
    PrefixOfConcat(q, e);
    LengthStep(n + 3);
    assert q + (Prefix(e) + Pads(Padding(n))) == q + Prefix(e) + Pads(Padding(n));
    PadsAreEquals(q + Prefix(e), Padding(n));
  }

  lemma ShapedTail(b: seq<Byte>)
    requires |b| <= 2
    ensures Shaped(Encode(b), |b|)
  {
    hide Quad, LastQuad, Prefix, PrefixLength, Encode, Pads, Padding, Shaped;
    if b == [] {
      NothingShaped();
    } else {
      TailShape(b);
      ShapedText(LastQuad(b), Encode(b), |b|);
    }
  }

  lemma ShapedText(p: string, e: string, n: nat)
    requires 1 <= n <= 2 && |p| == n + 1 && e == p + Pads(3 - n) && Prefix(e) == p && PrefixLength(e) == n + 1
    ensures Shaped(e, n)
  {
    hide Prefix, PrefixLength, Pads, Padding;
    PaddingOfTail(n);
    PadsAreEquals(p, 3 - n);
  }

  lemma PaddingOfTail(n: nat)
    requires 1 <= n <= 2
    ensures Padding(n) == 3 - n && (n + 2) / 3 * 4 == 4
  {
  }

  lemma NothingShaped()
    ensures Shaped(Encode([]), 0)
  {
    EncodeNothing();
  }

  /** Four characters for every three bytes begun, and '=' only as the final padding. */
  lemma {:induction false} EncodeShape(b: seq<Byte>)
    ensures Shaped(Encode(b), |b|)
    decreases |b|
  {
    hide Shaped, Encode, Quad;
    if |b| >= 3 {
      EncodeShape(b[3..]);
      QuadSpec(b[0], b[1], b[2]);
      ShapedGroup(Quad(b[0], b[1], b[2]), Encode(b[3..]), |b| - 3);
      GroupShape(b);
    } else {
      ShapedTail(b);
    }
  }

  lemma LengthStep(n: nat)
    requires n >= 3
    ensures (n + 2) / 3 * 4 == 4 + (n - 3 + 2) / 3 * 4 && Padding(n) == Padding(n - 3)
  {
  }

  // ------------------------------------------------------------------ the round trip

  lemma {:induction false} DecodeGroupsOfEncode(b: seq<Byte>)
    ensures DecodeGroups(Prefix(Encode(b))) == b
    decreases |b|
  {
    hide Quad, LastQuad, Triple;
    if |b| >= 3 {
      GroupShape(b);
      DecodeGroupsOfEncode(b[3..]);
      QuadSpec(b[0], b[1], b[2]);
      DecodeStep(Quad(b[0], b[1], b[2]), Prefix(Encode(b[3..])));
      assert b == [b[0], b[1], b[2]] + b[3..];
    } else if |b| > 0 {
      TailShape(b);
      TailRoundTrip(b);
    } else {
      assert b == [];
    }
  }

  /** The sextets behind the characters of a last group. */
  lemma LastQuadValues(b: seq<Byte>)
    requires 1 <= |b| <= 2
    ensures var p := LastQuad(b);
            && Value(p[0]) == Sextet0(b[0]) && Value(p[1]) == Sextet1(b[0], if |b| == 2 then b[1] else 0)
            && (|b| == 2 ==> Value(p[2]) == Sextet2(b[1], 0))
  {
    hide Value, Char, Sextet0, Sextet1, Sextet2, Sextet3;
    var b1 := if |b| == 2 then b[1] else 0;
    CharSpec(Sextet0(b[0])); CharSpec(Sextet1(b[0], b1)); CharSpec(Sextet2(b1, 0));
  }

  /** A tail of one or two bytes survives although the decoder fills the group up with 255. */
  lemma TailRoundTrip(b: seq<Byte>)
    requires 1 <= |b| <= 2
    ensures DecodeGroups(LastQuad(b)) == b
  {
    hide LastQuad, DecodeGroups, Value, Sextet0, Sextet1, Sextet2, Byte0, Byte1;
    var b1 := if |b| == 2 then b[1] else 0;
    LastQuadValues(b);
    TailBytes(LastQuad(b));
    Byte0OfSextets(b[0], b1);
    Byte1OfSextets(b[0], b1, 0);
  }

  /** Decoding undoes encoding, on every byte sequence. */
  lemma RoundTrip(b: seq<Byte>)
    ensures Decode(Encode(b)) == b
  {
    DecodeGroupsOfEncode(b);
  }

  // ------------------------------------------------------------------ decoding any text

  lemma {:induction false} DecodedLength(p: string)
    ensures |DecodeGroups(p)| == 3 * |p| / 4
    decreases |p|
  {
    if |p| >= 4 {
      DecodedLength(p[4..]);
    }
  }

  /** The decoder reads the longest alphabet prefix and nothing else, and yields three bytes for four characters. */
  lemma DecodeReadsPrefix(s: string, rest: string)
    requires rest == "" || !IsBase64(rest[0])
    ensures Decode(Prefix(s) + rest) == Decode(s)
    ensures |Decode(s)| == 3 * PrefixLength(s) / 4
  {
    PrefixOfConcat(Prefix(s), rest);
    assert Prefix(rest) == "" && Prefix(s) + "" == Prefix(s);
    DecodedLength(Prefix(s));
  }

  // ------------------------------------------------------------------ the texts that survive

  /** Whole groups, the right padding, and no stray bits in the last character (section 3.5 of RFC 4648). */
  predicate Canonical(s: string) {
    var k := PrefixLength(s);
    && |s| % 4 == 0
    && |s| - k <= 2
    && s == Prefix(s) + Pads(|s| - k)
    && NoStrayBits(s, k)
  }

  /** The last of the k characters before the padding has zero bits where no byte is left to fill. */
  predicate NoStrayBits(s: string, k: nat)
    requires k <= |s| && |s| % 4 == 0 && |s| - k <= 2
  {
    (|s| - k == 2 ==> Value(s[k - 1]) % 16 == 0) && (|s| - k == 1 ==> Value(s[k - 1]) % 4 == 0)
  }

  /** Canonical in plain words: groups of four, then nothing but equals signs, and no stray bits before them. */
  lemma CanonicalMeans(s: string)
    ensures var k := PrefixLength(s);
            Canonical(s) <==>
              && |s| % 4 == 0 && |s| - k <= 2 && (forall i :: k <= i < |s| ==> s[i] == '=')
              && NoStrayBits(s, k)
  {
    hide NoStrayBits, PrefixLength, Pads, IsBase64;
    PaddedExactly(s, PrefixLength(s));
  }

  lemma PaddedExactly(s: string, k: nat)
    requires k <= |s|
    ensures s == s[..k] + Pads(|s| - k) <==> forall i :: k <= i < |s| ==> s[i] == '='
  {
    PadsAreEquals(s[..k], |s| - k);
    assert s == s[..k] + s[k..];
    if forall i :: k <= i < |s| ==> s[i] == '=' {
      assert s[k..] == Pads(|s| - k);
    }
  }

  /** Vectors of section 10 of RFC 4648, whose bytes spell "fo" and "foo". */
  lemma TestVectors()
    ensures Encode([102, 111]) == "Zm8=" && Encode([102, 111, 111]) == "Zm9v"
  {
    TwoByteVector();
    ThreeByteVector();
  }

  lemma TwoByteVector()
    ensures Encode([102, 111]) == "Zm8="
  {
    assert Split(102, 111, 0) == (25, 38, 60, 0) && Char(25) == 'Z' && Char(38) == 'm' && Char(60) == '8';
    assert LastQuad([102, 111]) == "Zm8";
  }

  lemma ThreeByteVector()
    ensures Encode([102, 111, 111]) == "Zm9v"
  {
    assert Split(102, 111, 111) == (25, 38, 61, 47);
    assert Quad(102, 111, 111) == "Zm9v" && [102, 111, 111][3..] == [];
    assert Encode([]) == "" by { EncodeNothing(); }
  }

  /** A canonical text stays canonical behind a whole group, and only then. */
  lemma CanonicalGroup(q: string, s: string)
    requires |q| == 4 && forall i :: 0 <= i < 4 ==> IsBase64(q[i])
    ensures Canonical(q + s) <==> Canonical(s)
  {
    hide PrefixLength, Prefix, Pads, Value, IsBase64;
    PrefixOfConcat(q, s);
    var k, pads := PrefixLength(s), |s| - PrefixLength(s);
    CancelPrefix(q, s, Prefix(s) + Pads(pads));
    assert q + Prefix(s) + Pads(pads) == q + (Prefix(s) + Pads(pads));
    if k > 0 { assert (q + s)[4 + k - 1] == s[k - 1]; }
  }

  lemma CancelPrefix(q: string, s: string, t: string)
    ensures q + s == q + t <==> s == t
  {
    assert s == (q + s)[|q|..] && t == (q + t)[|q|..];
  }

  lemma {:induction false} EncodeIsCanonical(b: seq<Byte>)
    ensures Canonical(Encode(b))
    decreases |b|
  {
    if |b| >= 3 {
      EncodeIsCanonical(b[3..]);
      QuadSpec(b[0], b[1], b[2]);
      CanonicalGroup(Quad(b[0], b[1], b[2]), Encode(b[3..]));
    } else if |b| > 0 {
      TailIsCanonical(b);
    }
  }

  lemma StrayBits(a: Byte, b: Byte)
    ensures Sextet1(a, 0) % 16 == 0 && Sextet2(b, 0) % 4 == 0
  {
  }

  lemma TailIsCanonical(b: seq<Byte>)
    requires 1 <= |b| <= 2
    ensures Canonical(Encode(b))
  {
    TailShape(b);
    StrayBits(b[0], if |b| == 2 then b[1] else 0);
    LastQuadValues(b);
  }

  lemma CanonicalNothing(s: string)
    requires Canonical(s) && PrefixLength(s) == 0
    ensures s == "" && Encode(Decode(s)) == s
  {
    hide Value;
  }

  lemma GroupAgain(q: string, s: string)
    requires |q| == 4 && (forall i :: 0 <= i < 4 ==> IsBase64(q[i])) && Encode(Decode(s)) == s
    ensures Encode(Decode(q + s)) == q + s
  {
    hide IsBase64, PrefixLength, Prefix, DecodeGroups, Encode, Quad, Triple;
    PrefixOfConcat(q, s);
    DecodeStep(q, Prefix(s));
    TripleSpec(q);
    EncodeStep(Triple(q), Decode(s));
  }

  lemma {:induction false} CanonicalRoundTrip(s: string)
    requires Canonical(s)
    ensures Encode(Decode(s)) == s
    decreases |s|
  {
    hide Canonical, IsBase64, Encode, Decode;
    var k := PrefixLength(s);
    if k >= 4 {
      assert s == s[..4] + s[4..];
      CanonicalGroup(s[..4], s[4..]);
      CanonicalRoundTrip(s[4..]);
      GroupAgain(s[..4], s[4..]);
    } else if k > 0 {
      CanonicalTail(s);
    } else {
      CanonicalNothing(s);
    }
  }

  lemma TripleBytes(p: string)
    requires |p| == 4
    ensures Triple(p)[0] == Byte0(Value(p[0]), Value(p[1]))
    ensures Triple(p)[1] == Byte1(Value(p[1]), Value(p[2]))
  {
    hide Value, Byte0, Byte1, Byte2;
  }

  /** The bytes of an incomplete group of two or three characters. */
  lemma TailBytes(p: string)
    requires 2 <= |p| <= 3
    ensures var d := DecodeGroups(p);
            && |d| == |p| - 1
            && d[0] == Byte0(Value(p[0]), Value(p[1]))
            && (|p| == 3 ==> d[1] == Byte1(Value(p[1]), Value(p[2])))
  {
    hide Value, Triple;
    var filled := p + seq(4 - |p|, _ => '\0');
    assert filled[0] == p[0] && filled[1] == p[1] && (|p| == 3 ==> filled[2] == p[2]);
    assert DecodeGroups(p) == Triple(filled)[..|p| - 1];
    TripleBytes(filled);
  }

  lemma CanonicalTail(s: string)
    requires Canonical(s) && 0 < PrefixLength(s) < 4
    ensures Encode(Decode(s)) == s
  {
    hide LastQuad, Quad, Value, Char, DecodeGroups, Byte0, Byte1, Sextet0, Sextet1, Sextet2;
    var p := Prefix(s);
    assert |s| == 4 && s == p + Pads(4 - |p|) && 2 <= |p| <= 3;
    ValueSpec(p[0]); ValueSpec(p[1]); ValueSpec(p[|p| - 1]);
    TailBytes(p);
    var d := Decode(s);
    TailArithmetic(Value(p[0]), Value(p[1]), if |p| == 3 then Value(p[2]) else 0, |p| == 3);
    TailQuad(d, p);
  }

  lemma TailQuad(d: seq<Byte>, p: string)
    requires 1 <= |d| <= 2 && |p| == |d| + 1
    requires forall i :: 0 <= i < |p| ==> Value(p[i]) < 64 && Char(Value(p[i])) == p[i]
    requires Sextet0(d[0]) == Value(p[0]) && Sextet1(d[0], if |d| == 2 then d[1] else 0) == Value(p[1])
    requires |d| == 2 ==> Sextet2(d[1], 0) == Value(p[2])
    ensures LastQuad(d) == p
  {
    hide Value, Char, Sextet0, Sextet1, Sextet2, Sextet3;
    var s := Split(d[0], if |d| == 2 then d[1] else 0, 0);
    assert s.0 == Value(p[0]) && s.1 == Value(p[1]) && (|d| == 2 ==> s.2 == Value(p[2]));
  }

  /** Without stray bits the sextets of a tail survive; `three` tells whether it has three of them. */
  lemma TailArithmetic(s0: Byte, s1: Byte, s2: Byte, three: bool)
    requires s0 < 64 && s1 < 64 && s2 < 64
    requires if three then s2 % 4 == 0 else s2 == 0 && s1 % 16 == 0
    ensures var a, b := Byte0(s0, s1), Byte1(s1, s2);
            && Sextet0(a) == s0 && Sextet1(a, b) == s1 && Sextet2(b, 0) == s2 && (!three ==> b == 0)
  {
    ZeroTails(s1, s2);
    hide Byte0, Byte1, Byte2, Sextet0, Sextet1, Sextet2;
    Sextet0OfBytes(s0, s1);
    Sextet1OfBytes(s0, s1, s2);
    Sextet2OfBytes(s1, s2, 0);
  }

  lemma ZeroTails(s1: Byte, s2: Byte)
    ensures s2 % 4 == 0 ==> Byte2(s2, 0) == 0
    ensures s1 % 16 == 0 && s2 == 0 ==> Byte1(s1, s2) == 0
  {
  }

  /** Encoding undoes decoding on exactly the canonical texts. */
  lemma SurvivesExactlyWhenCanonical(s: string)
    ensures Encode(Decode(s)) == s <==> Canonical(s)
  {
    EncodeIsCanonical(Decode(s));
    if Canonical(s) { CanonicalRoundTrip(s); }
  }

  // ------------------------------------------------------------------ the bits of the RFC

  function Pow2(n: nat): nat { if n == 0 then 1 else 2 * Pow2(n - 1) }

  /** The lowest n bits of x, most significant first. */
  function Bits(x: nat, n: nat): seq<bool> {
    if n == 0 then [] else Bits(x / 2, n - 1) + [x % 2 == 1]
  }

  /** The bytes as one string of bits, eight each. */
  function DataBits(b: seq<Byte>): seq<bool> {
    if b == [] then [] else Bits(b[0], 8) + DataBits(b[1..])
  }

  /** The characters of the alphabet as one string of bits, six each. */
  function TextBits(p: string): seq<bool> {
    if p == "" then [] else Bits(Value(p[0]), 6) + TextBits(p[1..])
  }

  function Zeros(n: nat): seq<bool> { seq(n, _ => false) }

  lemma Associates<T>(a: seq<T>, b: seq<T>, c: seq<T>)
    ensures a + b + c == a + (b + c)
  {
  }

  lemma BitsStep(x: nat, n: nat)
    requires n > 0
    ensures Bits(x, n) == Bits(x / 2, n - 1) + [x % 2 == 1]
  {
  }

  lemma Doubled(x: nat, half: nat)
    ensures x * (2 * half) == 2 * (x * half)
  {
  }

  lemma Halved(p: nat, y: nat)
    ensures (2 * p + y) / 2 == p + y / 2 && (2 * p + y) % 2 == y % 2
  {
  }

  lemma SmallerHalf(y: nat, k: nat)
    requires k > 0 && y < Pow2(k)
    ensures Pow2(k) == 2 * Pow2(k - 1) && y / 2 < Pow2(k - 1)
  {
  }

  lemma NoBits(x: nat)
    ensures Bits(x, 0) == [] && Pow2(0) == 1
  {
  }

  /** Writing two numbers side by side writes their bits side by side. */
  lemma {:induction false} BitsConcat(x: nat, n: nat, y: nat, k: nat)
    requires y < Pow2(k)
    ensures Bits(x * Pow2(k) + y, n + k) == Bits(x, n) + Bits(y, k)
    decreases k
  {
    hide Bits, Pow2;
    if k == 0 {
      NoBits(y);
      assert Bits(x, n) + [] == Bits(x, n);
    } else {
      SmallerHalf(y, k);
      var p := x * Pow2(k - 1);
      Doubled(x, Pow2(k - 1));
      Halved(p, y);
      BitsConcat(x, n, y / 2, k - 1);
      BitsStep(x * Pow2(k) + y, n + k);
      BitsStep(y, k);
      Associates(Bits(x, n), Bits(y / 2, k - 1), [y % 2 == 1]);
    }
  }

  lemma SmallPowers()
    ensures Pow2(2) == 4 && Pow2(4) == 16 && Pow2(6) == 64
  {
    assert Pow2(1) == 2 && Pow2(3) == 8 && Pow2(5) == 32;
  }

  /** The bits of a byte, cut after two, four or six of them. */
  function HighTwo(x: Byte): seq<bool> { Bits(x / 64, 2) }

  function HighFour(x: Byte): seq<bool> { Bits(x / 16, 4) }

  function HighSix(x: Byte): seq<bool> { Bits(x / 4, 6) }

  function LowTwoBits(x: Byte): seq<bool> { Bits(x % 4, 2) }

  function LowFourBits(x: Byte): seq<bool> { Bits(x % 16, 4) }

  function LowSixBits(x: Byte): seq<bool> { Bits(x % 64, 6) }

  lemma CutAfterSix(x: Byte)
    ensures Bits(x, 8) == HighSix(x) + LowTwoBits(x)
  {
    hide Bits, Pow2;
    SmallPowers();
    BitsConcat(x / 4, 6, x % 4, 2);
  }

  lemma CutAfterFour(x: Byte)
    ensures Bits(x, 8) == HighFour(x) + LowFourBits(x)
  {
    hide Bits, Pow2;
    SmallPowers();
    BitsConcat(x / 16, 4, x % 16, 4);
  }

  lemma CutAfterTwo(x: Byte)
    ensures Bits(x, 8) == HighTwo(x) + LowSixBits(x)
  {
    hide Bits, Pow2;
    SmallPowers();
    BitsConcat(x / 64, 2, x % 64, 6);
  }

  lemma Sextet1Bits(a: Byte, b: Byte)
    ensures Bits(Sextet1(a, b), 6) == LowTwoBits(a) + HighFour(b)
  {
    hide Bits, Pow2;
    SmallPowers();
    BitsConcat(a % 4, 2, b / 16, 4);
  }

  lemma Sextet2Bits(b: Byte, c: Byte)
    ensures Bits(Sextet2(b, c), 6) == LowFourBits(b) + HighTwo(c)
  {
    hide Bits, Pow2;
    SmallPowers();
    BitsConcat(b % 16, 4, c / 64, 2);
  }

  lemma OuterSextetBits(a: Byte, c: Byte)
    ensures Bits(Sextet0(a), 6) == HighSix(a) && Bits(Sextet3(c), 6) == LowSixBits(c)
  {
    hide Bits;
  }

  lemma GroupBits(a: Byte, b: Byte, c: Byte)
    ensures Bits(Sextet0(a), 6) + Bits(Sextet1(a, b), 6) + Bits(Sextet2(b, c), 6) + Bits(Sextet3(c), 6)
            == Bits(a, 8) + Bits(b, 8) + Bits(c, 8)
  {
    hide Bits, HighTwo, HighFour, HighSix, LowTwoBits, LowFourBits, LowSixBits, Sextet0, Sextet1, Sextet2, Sextet3;
    OuterSextetBits(a, c);
    Sextet1Bits(a, b);
    Sextet2Bits(b, c);
    CutAfterSix(a);
    CutAfterFour(b);
    CutAfterTwo(c);
    Regroup(HighSix(a), LowTwoBits(a), HighFour(b), LowFourBits(b), HighTwo(c), LowSixBits(c));
  }

  lemma Regroup(p: seq<bool>, q: seq<bool>, r: seq<bool>, s: seq<bool>, t: seq<bool>, u: seq<bool>)
    ensures p + (q + r) + (s + t) + u == (p + q) + (r + s) + (t + u)
  {
  }

  /** The sextets of a group carry the bits of its bytes, in order. */
  lemma SplitBits(a: Byte, b: Byte, c: Byte)
    ensures var s := Split(a, b, c);
            Bits(s.0, 6) + Bits(s.1, 6) + Bits(s.2, 6) + Bits(s.3, 6) == Bits(a, 8) + Bits(b, 8) + Bits(c, 8)
  {
    hide Bits, Sextet0, Sextet1, Sextet2, Sextet3;
    GroupBits(a, b, c);
  }

  lemma TextBitsStep(p: string)
    requires p != ""
    ensures TextBits(p) == Bits(Value(p[0]), 6) + TextBits(p[1..])
  {
    hide Value, Bits;
  }

  lemma DataBitsStep(b: seq<Byte>)
    requires b != []
    ensures DataBits(b) == Bits(b[0], 8) + DataBits(b[1..])
  {
    hide Bits;
  }

  lemma EmptyBits()
    ensures TextBits("") == [] && DataBits([]) == []
  {
  }

  lemma {:induction false} TextBitsConcat(p: string, q: string)
    ensures TextBits(p + q) == TextBits(p) + TextBits(q)
  {
    hide Value, Bits, TextBits;
    if p == "" {
      EmptyBits();
      assert p + q == q;
    } else {
      TextBitsConcat(p[1..], q);
      assert (p + q)[0] == p[0] && (p + q)[1..] == p[1..] + q;
      TextBitsStep(p);
      TextBitsStep(p + q);
      Associates(Bits(Value(p[0]), 6), TextBits(p[1..]), TextBits(q));
    }
  }

  lemma {:induction false} DataBitsConcat(a: seq<Byte>, b: seq<Byte>)
    ensures DataBits(a + b) == DataBits(a) + DataBits(b)
  {
    hide Bits, DataBits;
    if a == [] {
      EmptyBits();
      assert a + b == b;
    } else {
      DataBitsConcat(a[1..], b);
      assert (a + b)[0] == a[0] && (a + b)[1..] == a[1..] + b;
      DataBitsStep(a);
      DataBitsStep(a + b);
      Associates(Bits(a[0], 8), DataBits(a[1..]), DataBits(b));
    }
  }

  lemma FourTextBits(p: string)
    requires |p| == 4
    ensures TextBits(p) == Bits(Value(p[0]), 6) + Bits(Value(p[1]), 6) + Bits(Value(p[2]), 6) + Bits(Value(p[3]), 6)
  {
    hide Value, Bits;
    assert p == [p[0]] + ([p[1]] + ([p[2]] + [p[3]]));
    TextBitsConcat([p[0]], [p[1]] + ([p[2]] + [p[3]]));
    TextBitsConcat([p[1]], [p[2]] + [p[3]]);
    TextBitsConcat([p[2]], [p[3]]);
  }

  lemma ThreeDataBits(a: Byte, b: Byte, c: Byte)
    ensures DataBits([a, b, c]) == Bits(a, 8) + Bits(b, 8) + Bits(c, 8)
  {
    hide Bits;
    assert [a, b, c] == [a] + ([b] + [c]);
    DataBitsConcat([a], [b] + [c]);
    DataBitsConcat([b], [c]);
  }

  /** A whole group has the same bits as text and as bytes. */
  lemma QuadBits(a: Byte, b: Byte, c: Byte)
    ensures TextBits(Quad(a, b, c)) == DataBits([a, b, c])
  {
    hide Value, Bits, Char;
    var s := Split(a, b, c);
    CharSpec(s.0); CharSpec(s.1); CharSpec(s.2); CharSpec(s.3);
    FourTextBits(Quad(a, b, c));
    ThreeDataBits(a, b, c);
    SplitBits(a, b, c);
  }

  lemma {:induction false} BitsLength(x: nat, n: nat)
    ensures |Bits(x, n)| == n
    ensures x == 0 ==> Bits(x, n) == Zeros(n)
  {
    if n > 0 { BitsLength(x / 2, n - 1); }
  }

  lemma {:induction false} TextBitsLength(p: string)
    ensures |TextBits(p)| == 6 * |p|
  {
    if p != "" {
      BitsLength(Value(p[0]), 6);
      TextBitsLength(p[1..]);
    }
  }

  lemma {:induction false} DataBitsLength(b: seq<Byte>)
    ensures |DataBits(b)| == 8 * |b|
  {
    if b != [] {
      BitsLength(b[0], 8);
      DataBitsLength(b[1..]);
    }
  }

  lemma OneFilled(a: Byte)
    ensures DataBits([a, 0, 0]) == DataBits([a]) + Zeros(16)
  {
    hide Bits;
    BitsLength(0, 8);
    ThreeDataBits(a, 0, 0);
    assert Bits(a, 8) + Zeros(8) + Zeros(8) == Bits(a, 8) + Zeros(16);
  }

  lemma TwoFilled(a: Byte, b: Byte)
    ensures DataBits([a, b, 0]) == DataBits([a, b]) + Zeros(8)
  {
    hide Bits;
    BitsLength(0, 8);
    ThreeDataBits(a, b, 0);
    TwoDataBits(a, b);
    assert DataBits([a, b]) == Bits(a, 8) + Bits(b, 8);
  }

  lemma TwoDataBits(a: Byte, b: Byte)
    ensures DataBits([a, b]) == Bits(a, 8) + Bits(b, 8)
  {
    hide Bits, DataBits;
    EmptyBits();
    DataBitsStep([a, b]);
    DataBitsStep([b]);
    assert [a, b][1..] == [b] && [b][1..] == [];
    assert Bits(b, 8) + [] == Bits(b, 8);
  }

  lemma FilledBits(b: seq<Byte>)
    requires 1 <= |b| <= 2
    ensures DataBits([b[0], if |b| == 2 then b[1] else 0, 0]) == DataBits(b) + Zeros(8 * (3 - |b|))
  {
    hide DataBits, Zeros;
    if |b| == 2 {
      assert b == [b[0], b[1]];
      TwoFilled(b[0], b[1]);
    } else {
      assert b == [b[0]];
      OneFilled(b[0]);
    }
  }

  lemma LeadingText(q: string, k: nat)
    requires k <= |q|
    ensures TextBits(q) == TextBits(q[..k]) + TextBits(q[k..])
    ensures |TextBits(q[..k])| == 6 * k
  {
    hide TextBits;
    assert q == q[..k] + q[k..];
    TextBitsConcat(q[..k], q[k..]);
    TextBitsLength(q[..k]);
  }

  /** The bits of the last quad are the first bits of the group filled up with zero bytes. */
  lemma LastQuadBits(b: seq<Byte>)
    requires 1 <= |b| <= 2
    ensures TextBits(LastQuad(b)) == DataBits(b) + Zeros(2 * Padding(|b|))
  {
    hide Value, Bits, Quad, TextBits, DataBits, Zeros, Padding;
    var n, quad := |b|, Quad(b[0], if |b| == 2 then b[1] else 0, 0);
    QuadBits(b[0], if |b| == 2 then b[1] else 0, 0);
    FilledBits(b);
    LeadingText(quad, n + 1);
    DataBitsLength(b);
    CutZeros(TextBits(quad[..n + 1]), TextBits(quad[n + 1..]), DataBits(b), n);
  }

  lemma CutZeros(p: seq<bool>, q: seq<bool>, d: seq<bool>, n: nat)
    requires 1 <= n <= 2 && |p| == 6 * (n + 1) && |d| == 8 * n && p + q == d + Zeros(8 * (3 - n))
    ensures p == d + Zeros(2 * Padding(n))
  {
    assert p == (p + q)[..|p|];
    assert (d + Zeros(8 * (3 - n)))[..|p|] == d + Zeros(|p| - |d|);
    assert |p| - |d| == 2 * Padding(n);
  }

  /** The encoder writes the bits of its input in order, six to a character, and fills the last one up with zeros. */
  lemma {:induction false} EncodeKeepsBits(b: seq<Byte>)
    ensures TextBits(Prefix(Encode(b))) == DataBits(b) + Zeros(2 * Padding(|b|))
    decreases |b|
  {
    hide Quad, LastQuad, Encode, Prefix, TextBits, DataBits;
    if |b| >= 3 {
      GroupShape(b);
      EncodeKeepsBits(b[3..]);
      GroupKeepsBits(b[0], b[1], b[2], b[3..], Prefix(Encode(b[3..])));
      assert b == [b[0], b[1], b[2]] + b[3..];
      LengthStep(|b|);
    } else if |b| > 0 {
      TailShape(b);
      LastQuadBits(b);
    } else {
      EmptyBits();
      EncodeNothing();
      assert Prefix("") == "" by { PrefixEnds("", 0); }
    }
  }

  lemma GroupKeepsBits(a: Byte, b: Byte, c: Byte, rest: seq<Byte>, text: string)
    requires TextBits(text) == DataBits(rest) + Zeros(2 * Padding(|rest|))
    ensures TextBits(Quad(a, b, c) + text) == DataBits([a, b, c] + rest) + Zeros(2 * Padding(|rest|))
  {
    hide Quad, TextBits, DataBits, Zeros, Padding;
    QuadBits(a, b, c);
    TextBitsConcat(Quad(a, b, c), text);
    DataBitsConcat([a, b, c], rest);
    Associates(DataBits([a, b, c]), DataBits(rest), Zeros(2 * Padding(|rest|)));
  }

  /** The decoder reads the bits of its characters in order, eight to a byte, and drops an incomplete last byte. */
  lemma {:induction false} DecodeKeepsBits(p: string)
    requires forall i :: 0 <= i < |p| ==> IsBase64(p[i])
    ensures 8 * |DecodeGroups(p)| <= |TextBits(p)|
    ensures DataBits(DecodeGroups(p)) == TextBits(p)[..8 * |DecodeGroups(p)|]
    decreases |p|
  {
    hide Value, Bits, Quad, Triple;
    TextBitsLength(p);
    DecodedLength(p);
    if |p| >= 4 {
      var t := Triple(p[..4]);
      DecodeKeepsBits(p[4..]);
      TripleSpec(p[..4]);
      QuadBits(t[0], t[1], t[2]);
      assert p == p[..4] + p[4..] && t == [t[0], t[1], t[2]];
      TextBitsConcat(p[..4], p[4..]);
      DataBitsConcat(t, DecodeGroups(p[4..]));
      DataBitsLength(t);
    } else if |p| >= 2 {
      TailKeepsBits(p);
    }
  }

  lemma TailKeepsBits(p: string)
    requires 2 <= |p| <= 3 && forall i :: 0 <= i < |p| ==> IsBase64(p[i])
    ensures |TextBits(p)| == 6 * |p| && |DecodeGroups(p)| == |p| - 1
    ensures DataBits(DecodeGroups(p)) == TextBits(p)[..8 * (|p| - 1)]
  {
    hide Value, Char, Bits, Quad, Triple;
    // Fill the group up with 'A', which stands for zero bits.
    var full := p + seq(4 - |p|, _ => 'A');
    var t := Triple(full);
    TextBitsLength(p);
    TailBytes(p);
    TripleSpec(full);
    QuadBits(t[0], t[1], t[2]);
    TextBitsConcat(p, seq(4 - |p|, _ => 'A'));
    SameLeadingBytes(p, full);
    assert t == t[..|p| - 1] + t[|p| - 1..] && t == [t[0], t[1], t[2]];
    DataBitsConcat(t[..|p| - 1], t[|p| - 1..]);
    DataBitsLength(t[..|p| - 1]);
    CutShorter(TextBits(p), TextBits(seq(4 - |p|, _ => 'A')), DataBits(t[..|p| - 1]), DataBits(t[|p| - 1..]));
  }

  lemma CutShorter(p: seq<bool>, q: seq<bool>, d: seq<bool>, e: seq<bool>)
    requires p + q == d + e && |d| <= |p|
    ensures d == p[..|d|]
  {
    assert d == (d + e)[..|d|] && p[..|d|] == (p + q)[..|d|];
  }

  lemma SameLeadingBytes(p: string, full: string)
    requires 2 <= |p| <= 3 && |full| == 4 && full[..|p|] == p
    ensures DecodeGroups(p) == Triple(full)[..|p| - 1]
  {
    hide Value, Triple, DecodeGroups;
    TailBytes(p);
    TripleBytes(full);
    assert full[0] == p[0] && full[1] == p[1] && (|p| == 3 ==> full[2] == p[2]);
    assert DecodeGroups(p)[0] == Triple(full)[0] && (|p| == 3 ==> DecodeGroups(p)[1] == Triple(full)[1]);
  }
}
