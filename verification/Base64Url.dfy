/**
Base64url without padding (sections 3.5 and 5 of RFC 4648), decoded as Go's `RawURLEncoding` does:
carriage returns and line feeds are passed over, and only the strict form refuses leftover bits
that are not zero.
*/
module Base64Url {
  import opened Wrappers

  type Byte = b: int | 0 <= b < 256

  type Sextet = v: int | 0 <= v < 64

  function Digit(v: Sextet): (c: char) {
    if v < 26 then (v + 'A' as int) as char
    else if v < 52 then (v - 26 + 'a' as int) as char
    else if v < 62 then (v - 52 + '0' as int) as char
    else if v == 62 then '-'
    else '_'
  }

  predicate IsDigit(c: char) {
    'A' <= c <= 'Z' || 'a' <= c <= 'z' || '0' <= c <= '9' || c == '-' || c == '_'
  }

  function DigitValue(c: char): (v: Sextet)
    requires IsDigit(c)
  {
    if 'A' <= c <= 'Z' then c as int - 'A' as int
    else if 'a' <= c <= 'z' then c as int - 'a' as int + 26
    else if '0' <= c <= '9' then c as int - '0' as int + 52
    else if c == '-' then 62
    else 63
  }

  lemma ValueOfDigit(v: Sextet)
    ensures IsDigit(Digit(v)) && DigitValue(Digit(v)) == v
  {
  }

  lemma DigitOfValue(c: char)
    requires IsDigit(c)
    ensures Digit(DigitValue(c)) == c
  {
  }

  // How three bytes x, y, z and four sextets a, b, c, d are the same twenty-four bits.
  function FirstSextet(x: Byte): Sextet { x / 4 }
  function SecondSextet(x: Byte, y: Byte): Sextet { x % 4 * 16 + y / 16 }
  function ThirdSextet(y: Byte, z: Byte): Sextet { y % 16 * 4 + z / 64 }
  function FourthSextet(z: Byte): Sextet { z % 64 }
  function FirstByte(a: Sextet, b: Sextet): Byte { var i: int, j: int := a, b; i * 4 + j / 16 }
  function SecondByte(b: Sextet, c: Sextet): Byte { var i: int, j: int := b, c; i % 16 * 16 + j / 4 }
  function ThirdByte(c: Sextet, d: Sextet): Byte { var i: int, j: int := c, d; i % 4 * 64 + j }

  function Encode(bytes: seq<Byte>): string {
    if |bytes| == 0 then ""
    else if |bytes| == 1 then
      [Digit(FirstSextet(bytes[0])), Digit(SecondSextet(bytes[0], 0))]
    else if |bytes| == 2 then
      [Digit(FirstSextet(bytes[0])), Digit(SecondSextet(bytes[0], bytes[1])), Digit(ThirdSextet(bytes[1], 0))]
    else
      [Digit(FirstSextet(bytes[0])), Digit(SecondSextet(bytes[0], bytes[1])), Digit(ThirdSextet(bytes[1], bytes[2])),
       Digit(FourthSextet(bytes[2]))]
      + Encode(bytes[3..])
  }

  /** The alphabet of section 5 of RFC 4648, by the characters' codes: letters, digits, and `-` and `_` for 62 and 63. */
  lemma AlphabetIs(v: Sextet)
    ensures Digit(v) as int ==
      if v < 26 then 65 + v else if v < 52 then 71 + v else if v < 62 then v - 4 else if v == 62 then 45 else 95
  {
  }

  /** The byte at an index, or zero past the end. */
  ghost function ByteAt(bytes: seq<Byte>, i: nat): Byte {
    if i < |bytes| then bytes[i] else 0
  }

  /** The number three bytes from an index are, as twenty-four bits. */
  ghost function GroupAt(bytes: seq<Byte>, i: nat): int {
    65536 * ByteAt(bytes, i) + 256 * ByteAt(bytes, i + 1) + ByteAt(bytes, i + 2)
  }

  lemma SextetsAreTheNumber(x: Byte, y: Byte, z: Byte)
    ensures 65536 * x + 256 * y + z ==
      262144 * FirstSextet(x) + 4096 * SecondSextet(x, y) + 64 * ThirdSextet(y, z) + FourthSextet(z)
  {
    assert x == 4 * (x / 4) + x % 4 && y == 16 * (y / 16) + y % 16 && z == 64 * (z / 64) + z % 64;
  }

  /** `s` has the digits at the index, as many as so many bytes take. */
  ghost predicate DigitsAt(s: string, i: nat, left: int, a: Sextet, b: Sextet, c: Sextet, d: Sextet) {
    && |s| >= i + (if left < 3 then left + 1 else 4) && left > 0
    && s[i] == Digit(a) && s[i + 1] == Digit(b)
    && (left > 1 ==> s[i + 2] == Digit(c)) && (left > 2 ==> s[i + 3] == Digit(d))
    && (left <= 3 ==> |s| == i + left + 1)
  }

  lemma FirstDigits(bytes: seq<Byte>)
    requires |bytes| > 0
    ensures var x, y, z := ByteAt(bytes, 0), ByteAt(bytes, 1), ByteAt(bytes, 2);
      DigitsAt(
        Encode(bytes), 0, |bytes|, FirstSextet(x), SecondSextet(x, y), ThirdSextet(y, z), FourthSextet(z))
  {
    if |bytes| == 3 {
      assert Encode(bytes[3..]) == "";
    }
  }

  /**
  An encoding writes its bytes three by three, each three the digits of the number they are in base 64, the last padded
  with zeros and its digits that are padding alone left off (section 4 of RFC 4648).
  */
  lemma {:induction false} EncodedGroupwise(bytes: seq<Byte>, i: nat) returns (a: Sextet, b: Sextet, c: Sextet, d: Sextet)
    requires 3 * i < |bytes|
    ensures GroupAt(bytes, 3 * i) == 262144 * a + 4096 * b + 64 * c + d
    ensures DigitsAt(Encode(bytes), 4 * i, |bytes| - 3 * i, a, b, c, d)
  {
    if i == 0 {
      var x, y, z := ByteAt(bytes, 0), ByteAt(bytes, 1), ByteAt(bytes, 2);
      a, b, c, d := FirstSextet(x), SecondSextet(x, y), ThirdSextet(y, z), FourthSextet(z);
      SextetsAreTheNumber(x, y, z);
      FirstDigits(bytes);
    } else {
      a, b, c, d := EncodedGroupwise(bytes[3..], i - 1);
      var front := EncodedAfterAGroup(bytes);
      DigitsFurtherOn(front, Encode(bytes[3..]), 4 * (i - 1), |bytes| - 3 * i, a, b, c, d);
      assert GroupAt(bytes, 3 * i) == GroupAt(bytes[3..], 3 * (i - 1));
    }
  }

  lemma DigitsFurtherOn(front: string, s: string, i: nat, left: int, a: Sextet, b: Sextet, c: Sextet, d: Sextet)
    requires DigitsAt(s, i, left, a, b, c, d)
    ensures DigitsAt(front + s, |front| + i, left, a, b, c, d)
  {
  }

  lemma EncodedAfterAGroup(bytes: seq<Byte>) returns (front: string)
    requires |bytes| > 3
    ensures |front| == 4 && Encode(bytes) == front + Encode(bytes[3..])
  {
    front := [
      Digit(FirstSextet(bytes[0])), Digit(SecondSextet(bytes[0], bytes[1])), Digit(ThirdSextet(bytes[1], bytes[2])),
      Digit(FourthSextet(bytes[2]))];
  }

  predicate IsLineBreak(c: char) {
    c == '\r' || c == '\n'
  }

  function Strip(s: string): (t: string)
    ensures |t| <= |s|
    ensures |t| == |s| ==> t == s
    ensures (forall i :: 0 <= i < |s| ==> !IsLineBreak(s[i])) ==> t == s
  {
    if s == "" then "" else if IsLineBreak(s[0]) then Strip(s[1..]) else [s[0]] + Strip(s[1..])
  }

  /** Decoding of what is left once line breaks are passed over. */
  function DecodeDigits(s: string, strict: bool): (bytes: Option<seq<Byte>>) {
    if s == "" then Some([])
    else if |s| == 1 || !IsDigit(s[0]) || !IsDigit(s[1]) then None
    else
      var a, b := DigitValue(s[0]), DigitValue(s[1]);
      if |s| == 2 then
        if strict && b % 16 != 0 then None else Some([FirstByte(a, b)])
      else if !IsDigit(s[2]) then None
      else
        var c := DigitValue(s[2]);
        if |s| == 3 then
          if strict && c % 4 != 0 then None else Some([FirstByte(a, b), SecondByte(b, c)])
        else if !IsDigit(s[3]) then None
        else
          var rest := DecodeDigits(s[4..], strict);
          if rest == None then None
          else Some([FirstByte(a, b), SecondByte(b, c), ThirdByte(c, DigitValue(s[3]))] + rest.value)
  }

  function Decode(s: string, strict: bool): Option<seq<Byte>> {
    DecodeDigits(Strip(s), strict)
  }

  lemma {:induction false} EncodedDigits(bytes: seq<Byte>)
    ensures forall i :: 0 <= i < |Encode(bytes)| ==> IsDigit(Encode(bytes)[i])
    ensures |Encode(bytes)| == |bytes| / 3 * 4 + (if |bytes| % 3 == 0 then 0 else |bytes| % 3 + 1)
  {
    if |bytes| >= 3 {
      EncodedDigits(bytes[3..]);
    }
  }

  lemma BytesOfSextets(x: Byte, y: Byte, z: Byte)
    ensures FirstByte(FirstSextet(x), SecondSextet(x, y)) == x
    ensures SecondByte(SecondSextet(x, y), ThirdSextet(y, z)) == y
    ensures ThirdByte(ThirdSextet(y, z), FourthSextet(z)) == z
    ensures SecondSextet(x, 0) % 16 == 0 && ThirdSextet(y, 0) % 4 == 0
  {
  }

  lemma SextetsOfBytes(a: Sextet, b: Sextet, c: Sextet, d: Sextet)
    ensures FirstSextet(FirstByte(a, b)) == a && SecondSextet(FirstByte(a, b), SecondByte(b, c)) == b
    ensures ThirdSextet(SecondByte(b, c), ThirdByte(c, d)) == c && FourthSextet(ThirdByte(c, d)) == d
    ensures b % 16 == 0 ==> SecondSextet(FirstByte(a, b), 0) == b
    ensures c % 4 == 0 ==> ThirdSextet(SecondByte(b, c), 0) == c
  {
  }

  lemma DecodeTailOfEncode(bytes: seq<Byte>, strict: bool)
    requires |bytes| < 3
    ensures DecodeDigits(Encode(bytes), strict) == Some(bytes)
  {
    if |bytes| == 1 {
      BytesOfSextets(bytes[0], 0, 0);
      ValueOfDigit(FirstSextet(bytes[0]));
      ValueOfDigit(SecondSextet(bytes[0], 0));
      assert bytes == [bytes[0]];
    } else if |bytes| == 2 {
      BytesOfSextets(bytes[0], bytes[1], 0);
      ValueOfDigit(FirstSextet(bytes[0]));
      ValueOfDigit(SecondSextet(bytes[0], bytes[1]));
      ValueOfDigit(ThirdSextet(bytes[1], 0));
      assert bytes == [bytes[0], bytes[1]];
    }
  }

  lemma {:induction false} DecodeDigitsOfEncode(bytes: seq<Byte>, strict: bool)
    ensures DecodeDigits(Encode(bytes), strict) == Some(bytes)
  {
    if |bytes| < 3 {
      DecodeTailOfEncode(bytes, strict);
    } else {
      var x, y, z := bytes[0], bytes[1], bytes[2];
      BytesOfSextets(x, y, z);
      ValueOfDigit(FirstSextet(x));
      ValueOfDigit(SecondSextet(x, y));
      ValueOfDigit(ThirdSextet(y, z));
      ValueOfDigit(FourthSextet(z));
      DecodeDigitsOfEncode(bytes[3..], strict);
      assert Encode(bytes)[4..] == Encode(bytes[3..]);
      assert bytes == [x, y, z] + bytes[3..];
    }
  }

  /** What was encoded decodes to itself, strictly or not. */
  lemma DecodeOfEncode(bytes: seq<Byte>, strict: bool)
    ensures Decode(Encode(bytes), strict) == Some(bytes)
  {
    EncodedDigits(bytes);
    DecodeDigitsOfEncode(bytes, strict);
  }

  lemma EncodeOfOneByte(a: Sextet, b: Sextet)
    requires b % 16 == 0
    ensures Encode([FirstByte(a, b)]) == [Digit(a), Digit(b)]
  {
    SextetsOfBytes(a, b, 0, 0);
  }

  lemma EncodeOfTwoBytes(a: Sextet, b: Sextet, c: Sextet)
    requires c % 4 == 0
    ensures Encode([FirstByte(a, b), SecondByte(b, c)]) == [Digit(a), Digit(b), Digit(c)]
  {
    SextetsOfBytes(a, b, c, 0);
  }

  lemma EncodeOfStrictTail(s: string)
    requires |s| < 4 && DecodeDigits(s, true).Some?
    ensures Encode(DecodeDigits(s, true).value) == s
  {
    if |s| >= 2 {
      var a, b := DigitValue(s[0]), DigitValue(s[1]);
      DigitOfValue(s[0]);
      DigitOfValue(s[1]);
      if |s| == 2 {
        EncodeOfOneByte(a, b);
      } else {
        DigitOfValue(s[2]);
        EncodeOfTwoBytes(a, b, DigitValue(s[2]));
      }
    }
  }

  lemma EncodeGroupFirst(x: Byte, y: Byte, z: Byte, rest: seq<Byte>)
    ensures Encode([x, y, z] + rest) ==
      [Digit(FirstSextet(x)), Digit(SecondSextet(x, y)), Digit(ThirdSextet(y, z)), Digit(FourthSextet(z))] + Encode(rest)
  {
    assert ([x, y, z] + rest)[3..] == rest;
  }

  lemma DigitsOfGroup(c: char, d: char, e: char, f: char)
    requires IsDigit(c) && IsDigit(d) && IsDigit(e) && IsDigit(f)
    ensures var x, y, z :=
      FirstByte(DigitValue(c), DigitValue(d)), SecondByte(DigitValue(d), DigitValue(e)), ThirdByte(DigitValue(e),
        DigitValue(f));
      [Digit(FirstSextet(x)), Digit(SecondSextet(x, y)), Digit(ThirdSextet(y, z)), Digit(FourthSextet(z))] == [c, d, e, f]
  {
    SextetsOfBytes(DigitValue(c), DigitValue(d), DigitValue(e), DigitValue(f));
    DigitOfValue(c);
    DigitOfValue(d);
    DigitOfValue(e);
    DigitOfValue(f);
  }

  /** Strict decoding, a group at a time. */
  lemma DecodeOfGroup(s: string)
    requires |s| >= 4 && DecodeDigits(s, true).Some?
    ensures IsDigit(s[0]) && IsDigit(s[1]) && IsDigit(s[2]) && IsDigit(s[3]) && DecodeDigits(s[4..], true).Some?
    ensures var a, b, c, d := DigitValue(s[0]), DigitValue(s[1]), DigitValue(s[2]), DigitValue(s[3]);
      DecodeDigits(s, true).value ==
      [FirstByte(a, b), SecondByte(b, c), ThirdByte(c, d)] + DecodeDigits(s[4..], true).value
  {
  }

  /** A group in front: if the rest encodes to the rest of the text, the whole encodes to the text. */
  lemma EncodeGroupInFront(s: string, rest: seq<Byte>)
    requires |s| >= 4 && IsDigit(s[0]) && IsDigit(s[1]) && IsDigit(s[2]) && IsDigit(s[3]) && Encode(rest) == s[4..]
    ensures var a, b, c, d := DigitValue(s[0]), DigitValue(s[1]), DigitValue(s[2]), DigitValue(s[3]);
      Encode([FirstByte(a, b), SecondByte(b, c), ThirdByte(c, d)] + rest) == s
  {
    var a, b, c, d := DigitValue(s[0]), DigitValue(s[1]), DigitValue(s[2]), DigitValue(s[3]);
    EncodeGroupFirst(FirstByte(a, b), SecondByte(b, c), ThirdByte(c, d), rest);
    DigitsOfGroup(s[0], s[1], s[2], s[3]);
    assert s == [s[0], s[1], s[2], s[3]] + s[4..];
  }

  lemma {:induction false} EncodeOfStrictDecode(s: string)
    requires DecodeDigits(s, true).Some?
    ensures Encode(DecodeDigits(s, true).value) == s
  {
    if |s| < 4 {
      EncodeOfStrictTail(s);
    } else {
      DecodeOfGroup(s);
      EncodeOfStrictDecode(s[4..]);
      EncodeGroupInFront(s, DecodeDigits(s[4..], true).value);
    }
  }

  /** Strict decoding is one-to-one but for line breaks: a text decodes only from its encoding. */
  lemma StrictDecodeIsInverse(s: string, bytes: seq<Byte>)
    ensures Decode(s, true) == Some(bytes) <==> Strip(s) == Encode(bytes)
  {
    if Decode(s, true) == Some(bytes) {
      EncodeOfStrictDecode(Strip(s));
    } else {
      DecodeDigitsOfEncode(bytes, true);
    }
  }

  // --- What the lenient decoder reads alike ---

  /** A sextet of which only the bits above `used` are a byte's, the rest made zero. */
  function ClearedSextet(v: Sextet, used: int): (w: Sextet)
    requires used == 4 || used == 16
    ensures w % used == 0 && w <= v < w + used
  {
    v / used * used
  }

  function ClearedDigit(c: char, used: int): char
    requires used == 4 || used == 16
  {
    if IsDigit(c) then Digit(ClearedSextet(DigitValue(c), used)) else c
  }

  /** The text with its last digit's leftover bits, if it has any, made zero. */
  function Cleared(s: string): (t: string)
    ensures |t| == |s|
  {
    if |s| % 4 == 2 then s[..|s| - 1] + [ClearedDigit(s[|s| - 1], 16)]
    else if |s| % 4 == 3 then s[..|s| - 1] + [ClearedDigit(s[|s| - 1], 4)]
    else s
  }

  lemma LeftoversAreNoBytes(a: Sextet, b: Sextet, c: Sextet)
    ensures FirstByte(a, ClearedSextet(b, 16)) == FirstByte(a, b)
    ensures SecondByte(b, ClearedSextet(c, 4)) == SecondByte(b, c)
  {
  }

  lemma ValueOfClearedDigit(c: char, used: int)
    requires used == 4 || used == 16
    ensures IsDigit(ClearedDigit(c, used)) <==> IsDigit(c)
    ensures IsDigit(c) ==> DigitValue(ClearedDigit(c, used)) == ClearedSextet(DigitValue(c), used)
  {
    if IsDigit(c) {
      ValueOfDigit(ClearedSextet(DigitValue(c), used));
    }
  }

  lemma DecodeTwo(c: char, d: char, strict: bool)
    ensures DecodeDigits([c, d], strict) ==
      if IsDigit(c) && IsDigit(d) && !(strict && DigitValue(d) % 16 != 0) then
        Some([FirstByte(DigitValue(c), DigitValue(d))])
      else None
  {
  }

  lemma ClearedTwoDecodeStrictly(c: char, d: char)
    ensures DecodeDigits([c, d], false) == DecodeDigits([c, ClearedDigit(d, 16)], true)
  {
    DecodeTwo(c, d, false);
    DecodeTwo(c, ClearedDigit(d, 16), true);
    ValueOfClearedDigit(d, 16);
    if IsDigit(c) && IsDigit(d) {
      LeftoversAreNoBytes(DigitValue(c), DigitValue(d), 0);
    }
  }

  lemma DecodeThree(c: char, d: char, e: char, strict: bool)
    ensures DecodeDigits([c, d, e], strict) ==
      if IsDigit(c) && IsDigit(d) && IsDigit(e) && !(strict && DigitValue(e) % 4 != 0) then
        Some([FirstByte(DigitValue(c), DigitValue(d)), SecondByte(DigitValue(d), DigitValue(e))])
      else None
  {
  }

  lemma ClearedThreeDecodeStrictly(c: char, d: char, e: char)
    ensures DecodeDigits([c, d, e], false) == DecodeDigits([c, d, ClearedDigit(e, 4)], true)
  {
    DecodeThree(c, d, e, false);
    DecodeThree(c, d, ClearedDigit(e, 4), true);
    ValueOfClearedDigit(e, 4);
    if IsDigit(c) && IsDigit(d) && IsDigit(e) {
      LeftoversAreNoBytes(DigitValue(c), DigitValue(d), DigitValue(e));
    }
  }

  lemma ClearedGroupwise(s: string)
    requires |s| >= 4
    ensures Cleared(s)[..4] == s[..4] && Cleared(s)[4..] == Cleared(s[4..])
  {
    var n := |s| - 1;
    assert |s[4..]| % 4 == |s| % 4;
    if |s| % 4 == 2 || |s| % 4 == 3 {
      assert n >= 5 && s[4..][n - 4] == s[n];
      assert s[..n][4..] == s[4..][..n - 4];
    }
  }

  lemma DecodeGroup(s: string, t: string, strict: bool)
    requires |s| >= 4 && |t| >= 4 && s[..4] == t[..4]
    requires DecodeDigits(s[4..], false) == DecodeDigits(t[4..], strict)
    ensures DecodeDigits(s, false) == DecodeDigits(t, strict)
  {
    assert forall i :: 0 <= i < 4 ==> s[i] == s[..4][i] && t[i] == t[..4][i];
  }

  /** The lenient decoder reads a text as the strict one reads it cleared. */
  lemma {:induction false} LenientIsStrictOnceCleared(s: string)
    ensures DecodeDigits(s, false) == DecodeDigits(Cleared(s), true)
  {
    if |s| == 2 {
      assert s == [s[0], s[1]] && Cleared(s) == [s[0], ClearedDigit(s[1], 16)];
      ClearedTwoDecodeStrictly(s[0], s[1]);
    } else if |s| == 3 {
      assert s == [s[0], s[1], s[2]] && Cleared(s) == [s[0], s[1], ClearedDigit(s[2], 4)];
      ClearedThreeDecodeStrictly(s[0], s[1], s[2]);
    } else if |s| >= 4 {
      LenientIsStrictOnceCleared(s[4..]);
      ClearedGroupwise(s);
      DecodeGroup(s, Cleared(s), true);
    }
  }

  /**
  Every text that decodes leniently, and what to: line breaks left out and leftover bits cleared, it is the
  encoding.
  */
  lemma LenientDecodeReads(s: string, bytes: seq<Byte>)
    ensures Decode(s, false) == Some(bytes) <==> Cleared(Strip(s)) == Encode(bytes)
  {
    var cleared := Cleared(Strip(s));
    LenientIsStrictOnceCleared(Strip(s));
    if DecodeDigits(cleared, true).Some? {
      EncodeOfStrictDecode(cleared);
    }
    DecodeDigitsOfEncode(bytes, true);
  }

  /** Two texts decode leniently to the same bytes exactly when they differ in line breaks and leftover bits alone. */
  lemma ReadAlikeExactlyWhenClearedAlike(s: string, t: string)
    requires Decode(s, false).Some?
    ensures Decode(t, false) == Decode(s, false) <==> Cleared(Strip(t)) == Cleared(Strip(s))
  {
    LenientDecodeReads(s, Decode(s, false).value);
    LenientDecodeReads(t, Decode(s, false).value);
  }

  lemma EncodingIsCleared(bytes: seq<Byte>)
    ensures Strip(Encode(bytes)) == Encode(bytes) && Cleared(Encode(bytes)) == Encode(bytes)
  {
    EncodedDigits(bytes);
    DecodeOfEncode(bytes, false);
    LenientDecodeReads(Encode(bytes), bytes);
  }

  predicate AllDigits(s: string) {
    forall i :: 0 <= i < |s| ==> IsDigit(s[i])
  }

  lemma NextSextetClears(v: Sextet, used: int) returns (w: Sextet)
    requires (used == 4 || used == 16) && v % used == 0
    ensures w != v && ClearedSextet(w, used) == v
  {
    var i: int := v;
    w := i + 1;
  }

  /** Where the last digit has leftover bits, and they are zero, the next digit is cleared to it. */
  lemma NextDigitClearsAlike(c: char, used: int) returns (d: char)
    requires (used == 4 || used == 16) && IsDigit(c) && ClearedDigit(c, used) == c
    ensures d != c && IsDigit(d) && ClearedDigit(d, used) == c
  {
    ValueOfClearedDigit(c, used);
    var w := NextSextetClears(DigitValue(c), used);
    ValueOfDigit(w);
    DigitOfValue(c);
    d := Digit(w);
  }

  lemma AnotherTextClearsAlike(t: string) returns (s: string)
    requires AllDigits(t) && Cleared(t) == t && (|t| % 4 == 2 || |t| % 4 == 3)
    ensures AllDigits(s) && Cleared(s) == t && s != t
  {
    var n := |t| - 1;
    var used := if |t| % 4 == 2 then 16 else 4;
    assert t[n] == Cleared(t)[n];
    var d := NextDigitClearsAlike(t[n], used);
    s := t[..n] + [d];
    assert s[..n] == t[..n] && s[n] == d;
    assert t == t[..n] + [t[n]];
  }

  lemma RestOfFours(q: int, r: int)
    requires 0 <= r < 4
    ensures (q * 4 + r) % 4 == r
  {
  }

  lemma LeftoverDigits(bytes: seq<Byte>)
    ensures |Encode(bytes)| % 4 == (if |bytes| % 3 == 0 then 0 else |bytes| % 3 + 1)
  {
    EncodedDigits(bytes);
    RestOfFours(|bytes| / 3, if |bytes| % 3 == 0 then 0 else |bytes| % 3 + 1);
  }

  /** Whole groups of bytes have one text each, line breaks aside. */
  lemma WholeGroupsReadOneToOne(s: string, bytes: seq<Byte>)
    requires |bytes| % 3 == 0
    ensures Decode(s, false) == Some(bytes) <==> Strip(s) == Encode(bytes)
  {
    LenientDecodeReads(s, bytes);
    LeftoverDigits(bytes);
  }

  lemma PartGroupsDoNot(bytes: seq<Byte>) returns (s: string)
    requires |bytes| % 3 != 0
    ensures Decode(s, false) == Some(bytes) && Strip(s) != Encode(bytes)
  {
    LeftoverDigits(bytes);
    EncodedDigits(bytes);
    EncodingIsCleared(bytes);
    s := AnotherTextClearsAlike(Encode(bytes));
    assert Strip(s) == s;
    LenientDecodeReads(s, bytes);
  }

  /** Line breaks aside, a text other than the encoding is read for the bytes exactly when they leave bits over. */
  lemma LenientDecodeIsNotOneToOne(bytes: seq<Byte>)
    ensures (exists s :: Decode(s, false) == Some(bytes) && Strip(s) != Encode(bytes)) <==> |bytes| % 3 != 0
  {
    if |bytes| % 3 == 0 {
      forall s | Decode(s, false) == Some(bytes) ensures Strip(s) == Encode(bytes) {
        WholeGroupsReadOneToOne(s, bytes);
      }
    } else {
      var s := PartGroupsDoNot(bytes);
    }
  }

  lemma {:induction false} BreaksAfter(s: string, breaks: string)
    requires forall i :: 0 <= i < |breaks| ==> IsLineBreak(breaks[i])
    ensures Strip(s + breaks) == Strip(s)
    decreases |s|, |breaks|
  {
    if s != "" {
      assert (s + breaks)[1..] == s[1..] + breaks;
      BreaksAfter(s[1..], breaks);
    } else {
      assert s + breaks == breaks;
      if breaks != "" {
        assert "" + breaks[1..] == breaks[1..];
        BreaksAfter("", breaks[1..]);
      }
    }
  }

  lemma BreaksAfterEncoding(bytes: seq<Byte>, breaks: string)
    requires forall i :: 0 <= i < |breaks| ==> IsLineBreak(breaks[i])
    ensures Cleared(Strip(Encode(bytes) + breaks)) == Encode(bytes)
  {
    var text := Encode(bytes);
    BreaksAfter(text, breaks);
    EncodingIsCleared(bytes);
    assert Strip(text + breaks) == text;
  }

  /** How many bytes a string takes in UTF-8, which is what Go's `len` counts. */
  function ByteLength(s: string): (n: nat)
    ensures |s| <= n
    ensures (forall i :: 0 <= i < |s| ==> s[i] as int < 0x80) ==> n == |s|
  {
    if s == "" then 0
    else
      var u := s[0] as int;
      (if u < 0x80 then 1 else if u < 0x800 then 2 else if u < 0x10000 then 3 else 4) + ByteLength(s[1..])
  }

  /** The bytes of a string are its characters', each one to four by the ranges of UTF-8. */
  lemma {:induction false} BytesOf(s: string, c: char, t: string)
    ensures ByteLength(s + [c] + t) == ByteLength(s) + ByteLength([c]) + ByteLength(t)
    ensures ByteLength([c]) <= 4 && (ByteLength([c]) == 1 <==> c as int <= 127)
    ensures (ByteLength([c]) <= 2 <==> c as int <= 2047) && (ByteLength([c]) <= 3 <==> c as int <= 65535)
    ensures ByteLength("") == 0
  {
    assert ByteLength([c][1..]) == 0;
    if s == "" {
      assert ("" + [c] + t)[1..] == t;
    } else {
      BytesOf(s[1..], c, t);
      assert (s + [c] + t)[1..] == s[1..] + [c] + t;
    }
  }
}
