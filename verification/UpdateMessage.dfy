/**
 * Parking messages and the file names under which ParkingUpdateMessage spills them to disk:
 * <time>_<request>_<plate>_<spot>.png. The name is printed by constructFilename and parsed by load.
 */
module UpdateMessage {
  import opened Wrappers

  type Int32 = x: int | -0x8000_0000 <= x < 0x8000_0000

  /** A point in time, represented by its ISO text; to_iso_string and from_iso_string are inverse on these. */
  type IsoTime = s: string | '_' !in s && '/' !in s

  datatype Message =
    | Update(time: IsoTime, request: Int32, plate: string, spot: Int32, frame: Frame, crop: Option<Frame>)
    | Sync(time: IsoTime, content: int)

  // ------------------------------------------------------------------ std::to_string and std::stoi

  function Digit(d: nat): char
    requires d < 10
  {
    '0' + d as char
  }

  function NatToString(n: nat): string {
    if n < 10 then [Digit(n)] else NatToString(n / 10) + [Digit(n % 10)]
  }

  function ToString(n: int): string {
    if n < 0 then "-" + NatToString(-n) else NatToString(n)
  }

  predicate IsDigit(c: char) { '0' <= c <= '9' }

  predicate IsSpace(c: char) { c == ' ' || '\t' <= c <= '\r' }

  function DigitCount(s: string): (k: nat)
    ensures k <= |s| && forall i :: 0 <= i < k ==> IsDigit(s[i])
    ensures k < |s| ==> !IsDigit(s[k])
  {
    if s == "" || !IsDigit(s[0]) then 0 else 1 + DigitCount(s[1..])
  }

  function DigitsToNat(s: string): nat
    requires forall i :: 0 <= i < |s| ==> IsDigit(s[i])
  {
    if s == "" then 0
    else
      assert IsDigit(s[|s| - 1]);
      10 * DigitsToNat(s[..|s| - 1]) + (s[|s| - 1] as int - '0' as int)
  }

  /** Leading blanks, one sign, then the longest run of digits; None where stoi throws. */
  function Stoi(s: string): Option<Int32> {
    if s == "" then None
    else if IsSpace(s[0]) then Stoi(s[1..])
    else
      var negative := s[0] == '-';
      var rest := if s[0] == '-' || s[0] == '+' then s[1..] else s;
      var k := DigitCount(rest);
      if k == 0 then None
      else
        var n: int := DigitsToNat(rest[..k]);
        var value := if negative then -n else n;
        if -0x8000_0000 <= value < 0x8000_0000 then Some(value) else None
  }

  // ------------------------------------------------------------------ names and paths

  const FOLDER := "./MessageData/"

  function Filename(m: Message): string
    requires m.Update?
  {
    m.time + "_" + ToString(m.request) + "_" + m.plate + "_" + ToString(m.spot) + ".png"
  }

  /** The text after the last c, or all of it. */
  function AfterLast(s: string, c: char): string {
    if c in s then AfterLast(s[1..], c) else s
  }

  /** The text before the last c, or all of it. */
  function BeforeLast(s: string, c: char): string {
    if c !in s then s
    else if s[|s| - 1] == c then s[..|s| - 1]
    else BeforeLast(s[..|s| - 1], c)
  }

  /** path::stem */
  function Stem(path: string): string {
    var name := AfterLast(path, '/');
    if name == "." || name == ".." then name else BeforeLast(name, '.')
  }

  /** boost::split on single characters, adjacent separators not merged. */
  function Split(s: string, c: char): (parts: seq<string>)
    ensures |parts| >= 1
  {
    if s == "" then [""]
    else if s[0] == c then [""] + Split(s[1..], c)
    else
      var parts := Split(s[1..], c);
      [[s[0]] + parts[0]] + parts[1..]
  }

  /** Refused: load returns false. Thrown: stoi throws out of load. */
  datatype LoadResult = Loaded(message: Message) | Refused | Thrown

  /** ParkingUpdateMessage::load; `image` is what imread returns for the file, if it can be read. */
  function Load(path: string, image: Option<Frame>): LoadResult {
    var parts := Split(Stem(path), '_');
    if |parts| < 4 || image.None? then Refused
    else
      SplitParts(Stem(path), '_');
      StemHasNoSlash(path);
      PartsWithin(Stem(path), '_', '/');
      match (Stoi(parts[1]), Stoi(parts[3]))
      case (Some(request), Some(spot)) => Loaded(Update(parts[0], request, parts[2], spot, image.value, None))
      case _ => Thrown
  }

  // ------------------------------------------------------------------ numbers

  lemma {:induction false} NatStringDigits(n: nat)
    ensures NatToString(n) != "" && forall i :: 0 <= i < |NatToString(n)| ==> IsDigit(NatToString(n)[i])
    ensures DigitsToNat(NatToString(n)) == n
  {
    if n >= 10 {
      NatStringDigits(n / 10);
      var init := NatToString(n / 10);
      assert (init + [Digit(n % 10)])[..|init|] == init;
    } else {
      assert DigitsToNat("") == 0;
      assert [Digit(n)][..0] == "";
    }
  }

  lemma {:induction false} AllDigits(s: string)
    requires forall i :: 0 <= i < |s| ==> IsDigit(s[i])
    ensures DigitCount(s) == |s|
  {
    if s != "" { AllDigits(s[1..]); }
  }

  /** A printed number is read back. */
  lemma NumberRoundTrip(n: Int32)
    ensures Stoi(ToString(n)) == Some(n)
    ensures forall c :: c in ToString(n) ==> IsDigit(c) || c == '-'
  {
    hide NatToString, DigitsToNat;
    var magnitude: nat := if n < 0 then -(n as int) else n;
    var digits := NatToString(magnitude);
    NatStringDigits(magnitude);
    AllDigits(digits);
    assert digits[..|digits|] == digits;
    if n < 0 { assert ToString(n)[1..] == digits; }
  }

  // ------------------------------------------------------------------ paths and parts

  lemma {:induction false} AfterLastSpec(s: string, c: char)
    ensures c !in AfterLast(s, c)
  {
    if c in s { AfterLastSpec(s[1..], c); }
  }

  lemma {:induction false} AfterLastOfConcat(s: string, t: string, c: char)
    requires c !in t && s != "" && s[|s| - 1] == c
    ensures AfterLast(s + t, c) == t
  {
    assert c in s + t by { assert (s + t)[|s| - 1] == c; }
    assert (s + t)[1..] == s[1..] + t;
    if |s| > 1 {
      AfterLastOfConcat(s[1..], t, c);
    } else {
      assert s[1..] + t == t;
    }
  }

  lemma {:induction false} BeforeLastWithin(s: string, c: char)
    ensures forall x :: x in BeforeLast(s, c) ==> x in s
  {
    if c in s && s[|s| - 1] != c { BeforeLastWithin(s[..|s| - 1], c); }
  }

  lemma {:induction false} BeforeLastOfConcat(s: string, t: string, c: char)
    requires c !in t
    ensures BeforeLast(s + [c] + t, c) == s
    decreases |t|
  {
    var all := s + [c] + t;
    assert all[|s|] == c;
    if t == "" {
      assert all == s + [c] && all[..|all| - 1] == s;
    } else {
      assert all[..|all| - 1] == s + [c] + t[..|t| - 1];
      BeforeLastOfConcat(s, t[..|t| - 1], c);
    }
  }

  lemma StemHasNoSlash(path: string)
    ensures '/' !in Stem(path)
  {
    AfterLastSpec(path, '/');
    BeforeLastWithin(AfterLast(path, '/'), '.');
  }

  /** No part contains the separator. */
  lemma {:induction false} SplitParts(s: string, c: char)
    ensures forall i :: 0 <= i < |Split(s, c)| ==> c !in Split(s, c)[i]
  {
    if s != "" {
      SplitParts(s[1..], c);
    }
  }

  lemma {:induction false} PartsWithin(s: string, c: char, x: char)
    requires x !in s
    ensures forall i :: 0 <= i < |Split(s, c)| ==> x !in Split(s, c)[i]
  {
    if s != "" {
      PartsWithin(s[1..], c, x);
    }
  }

  lemma {:induction false} SplitOne(s: string, c: char)
    requires c !in s
    ensures Split(s, c) == [s]
  {
    if s != "" {
      SplitOne(s[1..], c);
      assert [s[0]] + s[1..] == s;
    }
  }

  lemma {:induction false} SplitFirst(s: string, t: string, c: char)
    requires c !in s
    ensures Split(s + [c] + t, c) == [s] + Split(t, c)
  {
    if s == "" {
      assert s + [c] + t == [c] + t && ([c] + t)[1..] == t;
    } else {
      assert (s + [c] + t)[1..] == s[1..] + [c] + t;
      SplitFirst(s[1..], t, c);
      assert [s[0]] + s[1..] == s;
    }
  }

  lemma FourFields(a: string, b: string, x: string, d: string)
    ensures a + "_" + b + "_" + x + "_" + d == a + ['_'] + (b + ['_'] + (x + "_" + d))
  {
  }

  lemma SplitFour(a: string, b: string, p: string, d: string)
    requires '_' !in a && '_' !in b && '_' !in p && '_' !in d
    ensures Split(a + "_" + b + "_" + p + "_" + d, '_') == [a, b, p, d]
  {
    hide Split;
    FourFields(a, b, p, d);
    SplitFirst(a, b + ['_'] + (p + "_" + d), '_');
    SplitFirst(b, p + "_" + d, '_');
    SplitFirst(p, d, '_');
    SplitOne(d, '_');
  }

  // ------------------------------------------------------------------ the round trip

  /** A plate that cannot be confused with the rest of the file name. */
  predicate CleanPlate(plate: string) { '_' !in plate && '/' !in plate }

  lemma StemOfFile(m: Message)
    requires m.Update? && '/' !in m.plate
    ensures Stem(FOLDER + Filename(m)) == m.time + "_" + ToString(m.request) + "_" + m.plate + "_" + ToString(m.spot)
  {
    hide ToString, AfterLast, BeforeLast;
    NumberRoundTrip(m.request);
    NumberRoundTrip(m.spot);
    var body := m.time + "_" + ToString(m.request) + "_" + m.plate + "_" + ToString(m.spot);
    assert '/' !in body;
    assert Filename(m) == body + ['.'] + "png";
    AfterLastOfConcat(FOLDER, Filename(m), '/');
    BeforeLastOfConcat(body, "png", '.');
  }

  /** The parts of a file name: time, request code, plate and spot, in this order. */
  lemma FilenameParts(m: Message)
    requires m.Update? && CleanPlate(m.plate)
    ensures Split(Stem(FOLDER + Filename(m)), '_') == [m.time, ToString(m.request), m.plate, ToString(m.spot)]
  {
    hide ToString, Filename, Stem;
    StemOfFile(m);
    NumberRoundTrip(m.request);
    NumberRoundTrip(m.spot);
    SplitFour(m.time, ToString(m.request), m.plate, ToString(m.spot));
  }

  /**
   * A spilled message is read back, all but its crop, exactly when its plate contains neither
   * separator: whatever the times, codes, spots and images are.
   */
  lemma FileRoundTrip(m: Message)
    requires m.Update?
    ensures Load(FOLDER + Filename(m), Some(m.frame)) == Loaded(m.(crop := None)) <==> CleanPlate(m.plate)
  {
    var path := FOLDER + Filename(m);
    if CleanPlate(m.plate) {
      FilenameParts(m);
      NumberRoundTrip(m.request);
      NumberRoundTrip(m.spot);
    }
    if Load(path, Some(m.frame)) == Loaded(m.(crop := None)) {
      SplitParts(Stem(path), '_');
      StemHasNoSlash(path);
      PartsWithin(Stem(path), '_', '/');
    }
  }

  /** Names of clean messages collide only when everything but the images agrees. */
  lemma FilenameInjective(m: Message, n: Message)
    requires m.Update? && n.Update? && CleanPlate(m.plate) && CleanPlate(n.plate) && Filename(m) == Filename(n)
    ensures m.time == n.time && m.request == n.request && m.plate == n.plate && m.spot == n.spot
  {
    FileRoundTrip(m);
    FileRoundTrip(n.(frame := m.frame));
    assert Filename(n.(frame := m.frame)) == Filename(n);
  }

  lemma TwoHalves(p: string, q: string, d: string)
    ensures (p + "_" + q) + "_" + d == p + ['_'] + (q + ['_'] + d)
  {
  }

  lemma SplitFive(a: string, b: string, p: string, q: string, d: string)
    requires '_' !in a && '_' !in b && '_' !in p && '_' !in q && '_' !in d
    ensures Split(a + "_" + b + "_" + (p + "_" + q) + "_" + d, '_') == [a, b, p, q, d]
  {
    hide Split;
    var x := p + "_" + q;
    FourFields(a, b, x, d);
    TwoHalves(p, q, d);
    SplitFirst(a, b + ['_'] + (x + "_" + d), '_');
    SplitFirst(b, x + "_" + d, '_');
    SplitFirst(p, q + ['_'] + d, '_');
    SplitFirst(q, d, '_');
    SplitOne(d, '_');
  }

  /**
   * What becomes of a plate with one '_': its first half is taken for the plate and its second half
   * for the spot, or, when that is no number, stoi throws.
   */
  lemma UnderscorePlate(m: Message, p: string, q: string, image: Frame)
    requires m.Update? && m.plate == p + "_" + q && CleanPlate(p) && CleanPlate(q)
    ensures Load(FOLDER + Filename(m), Some(image))
            == match Stoi(q)
               case Some(spot) => Loaded(Update(m.time, m.request, p, spot, image, None))
               case None => Thrown
  {
    hide ToString, Filename, Stem, Stoi;
    StemOfFile(m);
    NumberRoundTrip(m.request);
    NumberRoundTrip(m.spot);
    SplitFive(m.time, ToString(m.request), p, q, ToString(m.spot));
  }

  /** A file that cannot be read as an image is refused, whatever its name is. */
  lemma UnreadableIsRefused(path: string)
    ensures Load(path, None) == Refused
  {
  }

  lemma {:induction false} DigitsThenRest(digits: string, rest: string)
    requires (forall i :: 0 <= i < |digits| ==> IsDigit(digits[i])) && (rest == "" || !IsDigit(rest[0]))
    ensures DigitCount(digits + rest) == |digits|
  {
    if digits == "" {
      assert digits + rest == rest;
    } else {
      assert (digits + rest)[0] == digits[0] && (digits + rest)[1..] == digits[1..] + rest;
      DigitsThenRest(digits[1..], rest);
    }
  }

  /** What stoi makes of a sign and a magnitude. */
  function Signed(sign: string, magnitude: nat): Option<Int32> {
    var m: int := magnitude;
    var value := if sign == "-" then -m else m;
    if -0x8000_0000 <= value < 0x8000_0000 then Some(value) else None
  }

  lemma SignedDigits(sign: string, digits: string, rest: string)
    requires sign == "" || sign == "+" || sign == "-"
    requires digits != "" && forall i :: 0 <= i < |digits| ==> IsDigit(digits[i])
    requires rest == "" || !IsDigit(rest[0])
    ensures Stoi(sign + digits + rest) == Signed(sign, DigitsToNat(digits))
  {
    hide Stoi, Signed, DigitCount;
    var s, after := sign + digits + rest, digits + rest;
    DigitsThenRest(digits, rest);
    assert after[..|digits|] == digits;
    if sign == "" {
      assert s == after && s[0] == digits[0] && IsDigit(s[0]);
      StoiUnsigned(s, digits);
    } else {
      assert s[0] == sign[0] && s[1..] == after;
      StoiSigned(s, sign, digits);
    }
  }

  lemma StoiUnsigned(s: string, digits: string)
    requires s != "" && IsDigit(s[0]) && digits != "" && forall i :: 0 <= i < |digits| ==> IsDigit(digits[i])
    requires DigitCount(s) == |digits| && s[..|digits|] == digits
    ensures Stoi(s) == Signed("", DigitsToNat(digits))
  {
    hide DigitsToNat, DigitCount;
  }

  lemma StoiSigned(s: string, sign: string, digits: string)
    requires sign == "+" || sign == "-"
    requires s != "" && s[0] == sign[0] && digits != "" && forall i :: 0 <= i < |digits| ==> IsDigit(digits[i])
    requires DigitCount(s[1..]) == |digits| && s[1..][..|digits|] == digits
    ensures Stoi(s) == Signed(sign, DigitsToNat(digits))
  {
    hide DigitsToNat, DigitCount;
  }

  /** stoi skips blanks, takes one sign and all digits, ignores the rest, and throws when the value does not fit. */
  lemma {:induction false} StoiSpec(blanks: string, sign: string, digits: string, rest: string)
    requires forall i :: 0 <= i < |blanks| ==> IsSpace(blanks[i])
    requires sign == "" || sign == "+" || sign == "-"
    requires digits != "" && forall i :: 0 <= i < |digits| ==> IsDigit(digits[i])
    requires rest == "" || !IsDigit(rest[0])
    ensures Stoi(blanks + (sign + digits + rest)) == Signed(sign, DigitsToNat(digits))
    decreases |blanks|
  {
    hide DigitsToNat, Signed, Stoi;
    var text := sign + digits + rest;
    if blanks == "" {
      SignedDigits(sign, digits, rest);
      assert blanks + text == text;
    } else {
      var s := blanks + text;
      assert s[0] == blanks[0] && s[1..] == blanks[1..] + text;
      StoiSpec(blanks[1..], sign, digits, rest);
      StoiBlank(s);
    }
  }

  lemma StoiBlank(s: string)
    requires s != "" && IsSpace(s[0])
    ensures Stoi(s) == Stoi(s[1..])
  {
  }

  /** Blanks are skipped, the rest is ignored, and a text without digits makes stoi throw. */
  lemma StoiExamples()
    ensures Stoi(" \t\r42x") == Some(42)
    ensures Stoi("") == None && Stoi("x7") == None && Stoi("-") == None
  {
    FortyTwo();
    StoiNoDigits();
    hide Stoi, DigitsToNat;
    StoiSpec(" \t\r", "", "42", "x");
    assert " \t\r" + ("" + "42" + "x") == " \t\r42x";
  }

  lemma FortyTwo()
    ensures DigitsToNat("42") == 42
  {
    assert DigitsToNat("4") == 4 && "42"[..1] == "4";
  }

  lemma StoiNoDigits()
    ensures Stoi("") == None && Stoi("x7") == None && Stoi("-") == None
  {
  }

  /** Numbers are decimal. */
  lemma DecimalText()
    ensures ToString(-2048) == "-2048" && ToString(190) == "190"
  {
    assert NatToString(2) == "2" && NatToString(20) == "20" && NatToString(204) == "204" && NatToString(2048) == "2048";
    assert NatToString(1) == "1" && NatToString(19) == "19" && NatToString(190) == "190";
  }
}
