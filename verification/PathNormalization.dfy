/**
Syntax-based normalisation of an escaped path (sections 6.2.2.1 and 6.2.2.2 of RFC 3986), as a
proof's target is compared by. A path is a string of bytes, one character each.
*/
module PathNormalization {

  predicate IsHex(c: char) {
    '0' <= c <= '9' || 'a' <= c <= 'f' || 'A' <= c <= 'F'
  }

  function HexValue(c: char): (v: int)
    requires IsHex(c)
    ensures 0 <= v < 16
  {
    if '0' <= c <= '9' then c as int - '0' as int
    else if 'a' <= c <= 'f' then c as int - 'a' as int + 10
    else c as int - 'A' as int + 10
  }

  function Upper(c: char): (u: char)
    requires IsHex(c)
    ensures IsHex(u) && HexValue(u) == HexValue(c)
  {
    if 'a' <= c <= 'f' then (c as int - 'a' as int + 'A' as int) as char else c
  }

  predicate IsUnreserved(octet: int) {
    || 'a' as int <= octet <= 'z' as int || 'A' as int <= octet <= 'Z' as int || '0' as int <= octet <= '9' as int
    || octet == '-' as int || octet == '.' as int || octet == '_' as int || octet == '~' as int
  }

  predicate StartsWithEncoding(s: string) {
    |s| > 2 && s[0] == '%' && IsHex(s[1]) && IsHex(s[2])
  }

  function Octet(high: char, low: char): (o: int)
    requires IsHex(high) && IsHex(low)
    ensures 0 <= o < 256
  {
    HexValue(high) * 16 + HexValue(low)
  }

  /** What an encoding is written as: decoded if it need not have been encoded, else in upper case. */
  function Rewritten(high: char, low: char): string
    requires IsHex(high) && IsHex(low)
  {
    var octet := Octet(high, low);
    if IsUnreserved(octet) then [octet as char] else ['%', Upper(high), Upper(low)]
  }

  function Normal(s: string): string {
    if s == "" then ""
    else if StartsWithEncoding(s) then Rewritten(s[1], s[2]) + Normal(s[3..])
    else [s[0]] + Normal(s[1..])
  }

  function NormalPath(escapedPath: string): string {
    if escapedPath == "" then "/" else Normal(escapedPath)
  }

  method NormalizePath(escapedPath: string) returns (path: string)
    ensures path == NormalPath(escapedPath)
  {
    if escapedPath == "" {
      return "/";
    }
    path := "";
    var i := 0;
    while i < |escapedPath|
      invariant 0 <= i <= |escapedPath|
      invariant path + Normal(escapedPath[i..]) == Normal(escapedPath)
    {
      NormalAt(escapedPath, i);
      if escapedPath[i] == '%' && i + 2 < |escapedPath| && IsHex(escapedPath[i + 1]) && IsHex(escapedPath[i + 2]) {
        var octet := Octet(escapedPath[i + 1], escapedPath[i + 2]);
        var piece := if IsUnreserved(octet) then [octet as char] else ['%', Upper(escapedPath[i + 1]),
          Upper(escapedPath[i + 2])];
        Joined(path, piece, Normal(escapedPath[i + 3..]));
        path := path + piece;
        i := i + 3;
      } else {
        Joined(path, [escapedPath[i]], Normal(escapedPath[i + 1..]));
        path := path + [escapedPath[i]];
        i := i + 1;
      }
    }
  }

  lemma Joined(a: string, b: string, c: string)
    ensures (a + b) + c == a + (b + c)
  {
  }

  lemma NormalAt(s: string, i: nat)
    requires i < |s|
    ensures if i + 2 < |s| && s[i] == '%' && IsHex(s[i + 1]) && IsHex(s[i + 2]) then
        Normal(s[i..]) == Rewritten(s[i + 1], s[i + 2]) + Normal(s[i + 3..])
      else
        Normal(s[i..]) == [s[i]] + Normal(s[i + 1..])
  {
    var rest := s[i..];
    assert rest[1..] == s[i + 1..];
    if |rest| > 2 {
      assert rest[3..] == s[i + 3..];
    }
  }

  /** The unreserved characters of section 2.3 of RFC 3986, by their octets: letters, digits, and `-`, `.`, `_` and `~`. */
  lemma UnreservedAre(octet: int)
    ensures IsUnreserved(octet) <==>
      48 <= octet <= 57 || 65 <= octet <= 90 || 97 <= octet <= 122 || octet in {45, 46, 95, 126}
  {
  }

  /** A hexadecimal digit stands in the list of them, in either case, at its value. */
  lemma DigitsAre(c: char)
    ensures IsHex(c) <==> c in "0123456789abcdef" || c in "0123456789ABCDEF"
    ensures IsHex(c) ==>
      && ("0123456789abcdef"[HexValue(c)] == c || "0123456789ABCDEF"[HexValue(c)] == c)
      && "0123456789ABCDEF"[HexValue(c)] == Upper(c)
  {
    var lower, upper := "0123456789abcdef", "0123456789ABCDEF";
    if IsHex(c) {
      var i := HexValue(c);
      assert lower[i] == (if i < 10 then 48 + i else 87 + i) as char;
      assert upper[i] == (if i < 10 then 48 + i else 55 + i) as char;
    }
  }

  /** An encoding is written as the character it need not have been for, or else as it was, in upper case. */
  lemma EncodingIsRewritten(high: char, low: char)
    requires IsHex(high) && IsHex(low)
    ensures var octet := 16 * HexValue(high) + HexValue(low);
      Rewritten(high, low) ==
        if 48 <= octet <= 57 || 65 <= octet <= 90 || 97 <= octet <= 122 || octet in {45, 46, 95, 126} then
          [octet as char]
        else ['%', "0123456789ABCDEF"[HexValue(high)], "0123456789ABCDEF"[HexValue(low)]]
  {
    UnreservedAre(16 * HexValue(high) + HexValue(low));
    DigitsAre(high);
    DigitsAre(low);
  }

  // --- Paths as units ---

  /** A character written as itself, or an octet written as `%` and two digits. */
  datatype Unit = Literal(c: char) | Encoded(high: char, low: char)

  predicate ValidUnit(u: Unit) {
    match u
    case Literal(c) => c != '%'
    case Encoded(high, low) => IsHex(high) && IsHex(low)
  }

  predicate ValidUnits(us: seq<Unit>) {
    forall i :: 0 <= i < |us| ==> ValidUnit(us[i])
  }

  /** Every `%` begins an encoding, as it does in the escaped path of a parsed URL. */
  predicate WellFormed(s: string) {
    if s == "" then true
    else if s[0] == '%' then StartsWithEncoding(s) && WellFormed(s[3..])
    else WellFormed(s[1..])
  }

  function Units(s: string): (us: seq<Unit>)
    requires WellFormed(s)
    ensures ValidUnits(us)
  {
    if s == "" then []
    else if s[0] == '%' then [Encoded(s[1], s[2])] + Units(s[3..])
    else [Literal(s[0])] + Units(s[1..])
  }

  function OctetOf(u: Unit): int
    requires ValidUnit(u)
  {
    match u
    case Literal(c) => c as int
    case Encoded(high, low) => Octet(high, low)
  }

  /** The bytes a path stands for. */
  function Decoded(us: seq<Unit>): seq<int>
    requires ValidUnits(us)
  {
    seq(|us|, i requires 0 <= i < |us| => OctetOf(us[i]))
  }

  /**
  Two units the normalisations make one: the same character, the same octet encoded (6.2.2.1), or
  an unreserved character and its encoding (6.2.2.2).
  */
  predicate Equivalent(u: Unit, v: Unit)
    requires ValidUnit(u) && ValidUnit(v)
  {
    OctetOf(u) == OctetOf(v) && (u.Literal? == v.Literal? || IsUnreserved(OctetOf(u)))
  }

  predicate AllEquivalent(us: seq<Unit>, vs: seq<Unit>)
    requires ValidUnits(us) && ValidUnits(vs)
  {
    |us| == |vs| && forall i :: 0 <= i < |us| ==> Equivalent(us[i], vs[i])
  }

  function NormalUnit(u: Unit): (v: Unit)
    requires ValidUnit(u)
    ensures ValidUnit(v) && Equivalent(u, v)
  {
    match u
    case Literal(_) => u
    case Encoded(high, low) =>
      if IsUnreserved(Octet(high, low)) then Literal(Octet(high, low) as char) else Encoded(Upper(high), Upper(low))
  }

  function NormalUnits(us: seq<Unit>): (vs: seq<Unit>)
    requires ValidUnits(us)
    ensures ValidUnits(vs) && |vs| == |us| && forall i :: 0 <= i < |us| ==> vs[i] == NormalUnit(us[i])
  {
    seq(|us|, i requires 0 <= i < |us| => NormalUnit(us[i]))
  }

  function Written(u: Unit): string {
    match u
    case Literal(c) => [c]
    case Encoded(high, low) => ['%', high, low]
  }

  function Print(us: seq<Unit>): string {
    if us == [] then "" else Written(us[0]) + Print(us[1..])
  }

  lemma UpperDigitsAreTheirValues(c: char, d: char)
    requires IsHex(c) && IsHex(d) && HexValue(c) == HexValue(d)
    ensures Upper(c) == Upper(d)
  {
  }

  /** One unit's normal form tells exactly whether two units are equivalent, and is its own. */
  lemma NormalUnitDecides(u: Unit, v: Unit)
    requires ValidUnit(u) && ValidUnit(v)
    ensures NormalUnit(u) == NormalUnit(v) <==> Equivalent(u, v)
    ensures NormalUnit(NormalUnit(u)) == NormalUnit(u)
  {
    if Equivalent(u, v) && u.Encoded? && v.Encoded? {
      UpperDigitsAreTheirValues(u.high, v.high);
      UpperDigitsAreTheirValues(u.low, v.low);
    }
  }

  lemma {:induction false} UnitsOfPrint(us: seq<Unit>)
    requires ValidUnits(us)
    ensures WellFormed(Print(us)) && Units(Print(us)) == us
  {
    if us != [] {
      UnitsOfPrint(us[1..]);
      assert Print(us)[|Written(us[0])|..] == Print(us[1..]);
    }
  }

  lemma {:induction false} NormalPrintsNormalUnits(s: string)
    requires WellFormed(s)
    ensures Normal(s) == Print(NormalUnits(Units(s)))
    decreases |s|
  {
    if s != "" {
      var us := Units(s);
      var rest := if s[0] == '%' then s[3..] else s[1..];
      NormalPrintsNormalUnits(rest);
      assert us[1..] == Units(rest);
      assert NormalUnits(us)[1..] == NormalUnits(us[1..]);
    }
  }

  /** Normalising keeps a path well-formed, and the octets it stands for; its units are the normal ones. */
  lemma NormalKeepsMeaning(s: string)
    requires WellFormed(s)
    ensures WellFormed(Normal(s))
    ensures Units(Normal(s)) == NormalUnits(Units(s))
    ensures Decoded(Units(Normal(s))) == Decoded(Units(s))
  {
    NormalPrintsNormalUnits(s);
    UnitsOfPrint(NormalUnits(Units(s)));
  }

  /** Normalising a second time changes nothing. */
  lemma NormalPathIsIdempotent(s: string)
    requires WellFormed(s)
    ensures WellFormed(NormalPath(s)) && NormalPath(NormalPath(s)) == NormalPath(s)
  {
    if s != "" {
      var us := Units(s);
      NormalKeepsMeaning(s);
      NormalPrintsNormalUnits(s);
      NormalPrintsNormalUnits(Normal(s));
      forall i | 0 <= i < |us| ensures NormalUnit(NormalUnit(us[i])) == NormalUnit(us[i]) {
        NormalUnitDecides(us[i], us[i]);
      }
      assert NormalUnits(NormalUnits(us)) == NormalUnits(us);
      assert Normal(s) != "";
    } else {
      assert NormalPath("/") == "/";
    }
  }

  /** Without well-formedness it may: the first pass of `%%341` writes an encoding for the second to decode. */
  lemma MalformedIsNotIdempotent()
    ensures !WellFormed("%%341")
    ensures NormalPath("%%341") == "%41" && NormalPath(NormalPath("%%341")) == "A"
  {
    var s := "%%341";
    assert !StartsWithEncoding(s);
    assert s[1..] == "%341" && "%341"[3..] == "1";
    assert Normal("1") == "1";
    assert Octet('3', '4') == '4' as int;
    assert Normal("%341") == "41";
    assert Octet('4', '1') == 'A' as int;
    assert "%41"[3..] == "";
  }

  function SlashIfEmpty(s: string): string {
    if s == "" then "/" else s
  }

  /**
  Two paths normalise alike exactly when they are, unit by unit, equivalent under sections 6.2.2.1
  and 6.2.2.2 of RFC 3986, the empty path being "/".
  */
  lemma AlikeExactlyWhenEquivalent(s: string, t: string)
    requires WellFormed(s) && WellFormed(t)
    ensures WellFormed(SlashIfEmpty(s)) && WellFormed(SlashIfEmpty(t))
    ensures NormalPath(s) == NormalPath(t) <==> AllEquivalent(Units(SlashIfEmpty(s)), Units(SlashIfEmpty(t)))
  {
    assert Normal("/") == "/" && WellFormed("/");
    var us, vs := Units(SlashIfEmpty(s)), Units(SlashIfEmpty(t));
    NormalPrintsNormalUnits(SlashIfEmpty(s));
    NormalPrintsNormalUnits(SlashIfEmpty(t));
    UnitsOfPrint(NormalUnits(us));
    UnitsOfPrint(NormalUnits(vs));
    assert NormalPath(s) == NormalPath(t) <==> NormalUnits(us) == NormalUnits(vs);
    forall i | 0 <= i < |us| && i < |vs| ensures NormalUnit(us[i]) == NormalUnit(vs[i]) <==> Equivalent(us[i], vs[i]) {
      NormalUnitDecides(us[i], vs[i]);
    }
    if NormalUnits(us) == NormalUnits(vs) {
      forall i | 0 <= i < |us| ensures Equivalent(us[i], vs[i]) {
        assert NormalUnits(us)[i] == NormalUnits(vs)[i];
      }
    }
  }

  lemma {:induction false} SegmentsWellFormedApart(a: string, b: string)
    requires WellFormed(a)
    ensures WellFormed(a + "/" + b) <==> WellFormed(b)
    decreases |a|
  {
    var whole := a + "/" + b;
    if a == "" {
      assert whole[1..] == b;
    } else if a[0] == '%' {
      assert whole[3..] == a[3..] + "/" + b;
      SegmentsWellFormedApart(a[3..], b);
    } else {
      assert whole[1..] == a[1..] + "/" + b;
      SegmentsWellFormedApart(a[1..], b);
    }
  }

  /** Segments normalise apart: a slash neither appears nor goes, whatever is around it. */
  lemma {:induction false} SegmentsNormaliseApart(a: string, b: string)
    requires WellFormed(a)
    ensures Normal(a + "/" + b) == Normal(a) + "/" + Normal(b)
    ensures WellFormed(a + "/" + b) <==> WellFormed(b)
    decreases |a|
  {
    var whole := a + "/" + b;
    SegmentsWellFormedApart(a, b);
    if a == "" {
      assert whole[1..] == b;
    } else if a[0] == '%' {
      assert whole[3..] == a[3..] + "/" + b;
      SegmentsNormaliseApart(a[3..], b);
      assert Normal(whole) == Rewritten(a[1], a[2]) + (Normal(a[3..]) + "/" + Normal(b));
      Joined(Rewritten(a[1], a[2]), Normal(a[3..]), "/");
      Joined(Rewritten(a[1], a[2]), Normal(a[3..]) + "/", Normal(b));
    } else {
      assert whole[1..] == a[1..] + "/" + b;
      SegmentsNormaliseApart(a[1..], b);
      assert Normal(whole) == [a[0]] + (Normal(a[1..]) + "/" + Normal(b));
      Joined([a[0]], Normal(a[1..]), "/");
      Joined([a[0]], Normal(a[1..]) + "/", Normal(b));
    }
  }

  function Slashes(s: string): nat {
    if s == "" then 0 else (if s[0] == '/' then 1 else 0) + Slashes(s[1..])
  }

  lemma {:induction false} SlashesAdd(a: string, b: string)
    ensures Slashes(a + b) == Slashes(a) + Slashes(b)
  {
    if a == "" {
      assert a + b == b;
    } else {
      assert (a + b)[1..] == a[1..] + b;
      SlashesAdd(a[1..], b);
    }
  }

  lemma SlashlessTriple(s: string)
    requires |s| == 3 && s[0] != '/' && s[1] != '/' && s[2] != '/'
    ensures Slashes(s) == 0
  {
    assert Slashes(s[2..]) == 0 by {
      assert s[2..][1..] == "";
    }
    assert Slashes(s[1..]) == 0 by {
      assert s[1..][1..] == s[2..];
    }
  }

  /** A path, well-formed or not, has as many segments after as before. */
  lemma {:induction false} NormalKeepsSegments(s: string)
    ensures Slashes(Normal(s)) == Slashes(s)
    decreases |s|
  {
    if s != "" {
      if StartsWithEncoding(s) {
        NormalKeepsSegments(s[3..]);
        SlashlessTriple(s[..3]);
        SlashesAdd(s[..3], s[3..]);
        assert s == s[..3] + s[3..];
        var rewritten := Rewritten(s[1], s[2]);
        if |rewritten| == 3 {
          SlashlessTriple(rewritten);
        } else {
          assert rewritten[1..] == "";
        }
        SlashesAdd(rewritten, Normal(s[3..]));
      } else {
        NormalKeepsSegments(s[1..]);
        assert Normal(s)[1..] == Normal(s[1..]);
      }
    }
  }

  /**
  Where two paths normalise alike, the one has a slash exactly where the other has: an encoded slash is never taken for one.
  */
  lemma EncodedSlashIsNoSlash(s: string, t: string, i: nat)
    requires WellFormed(s) && WellFormed(t) && NormalPath(s) == NormalPath(t)
    ensures WellFormed(SlashIfEmpty(s)) && WellFormed(SlashIfEmpty(t))
    ensures |Units(SlashIfEmpty(s))| == |Units(SlashIfEmpty(t))|
    ensures i < |Units(SlashIfEmpty(s))| ==>
      (Units(SlashIfEmpty(s))[i] == Literal('/') <==> Units(SlashIfEmpty(t))[i] == Literal('/'))
  {
    AlikeExactlyWhenEquivalent(s, t);
    var us, vs := Units(SlashIfEmpty(s)), Units(SlashIfEmpty(t));
    if i < |us| {
      assert Equivalent(us[i], vs[i]);
    }
  }

  /** `a%2Fb` is one segment and `a/b` two, and no normalisation makes them one. */
  lemma EncodedSlashStaysEncoded()
    ensures NormalPath("a%2fb") == "a%2Fb" && NormalPath("a%2fb") != NormalPath("a/b")
  {
    assert "a%2fb"[1..] == "%2fb" && "%2fb"[3..] == "b" && Octet('2', 'f') == '/' as int;
    assert Normal("b") == "b" && Normal("%2fb") == "%2Fb";
    assert NormalPath("a/b")[1] != '%' by {
      assert "a/b"[1..] == "/b" && Normal("/b")[0] == '/';
    }
  }
}
