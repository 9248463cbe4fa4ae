/** Text as Unicode code points: what the parser takes for UTF-8 and trims as white space
    (src/multipart.rs) is what RFC 3629 encodes and Unicode calls white space. */
module Texts {
  import opened MultipartScans
  import opened Multiparts
  import opened MultipartForms

  // ----- The encoding

  /** A Unicode scalar value: a code point that is no surrogate. */
  predicate IsScalar(c: nat) {
    c < 0xD800 || 0xE000 <= c < 0x11_0000
  }

  predicate AreScalars(cs: seq<nat>) {
    forall i | 0 <= i < |cs| :: IsScalar(cs[i])
  }

  /** The encoding of one character (section 3 of RFC 3629): its bits, six to each further byte. */
  function EncodeOne(c: nat): (s: Bytes)
    requires IsScalar(c)
    ensures 1 <= |s| <= 4
  {
    if c < 0x80 then [c as char]
    else if c < 0x800 then [(0xC0 + c / 0x40) as char, (0x80 + c % 0x40) as char]
    else if c < 0x1_0000 then
      [(0xE0 + c / 0x1000) as char, (0x80 + c / 0x40 % 0x40) as char, (0x80 + c % 0x40) as char]
    else
      [(0xF0 + c / 0x4_0000) as char, (0x80 + c / 0x1000 % 0x40) as char, (0x80 + c / 0x40 % 0x40) as char,
       (0x80 + c % 0x40) as char]
  }

  function Encode(cs: seq<nat>): Bytes
    requires AreScalars(cs)
  {
    if cs == [] then [] else EncodeOne(cs[0]) + Encode(cs[1..])
  }

  /** The bytes encode some characters. */
  ghost predicate IsText(s: Bytes) {
    exists cs: seq<nat> :: AreScalars(cs) && Encode(cs) == s
  }

  // ----- One character

  /** The character that `n` well-formed bytes encode. */
  function DecodeOne(s: Bytes, n: nat): nat
    requires 1 <= n <= 4 && n <= |s| && n == CharLength(s)
  {
    if n == 1 then s[0] as int
    else if n == 2 then (s[0] as int - 0xC0) * 0x40 + (s[1] as int - 0x80)
    else if n == 3 then (s[0] as int - 0xE0) * 0x1000 + (s[1] as int - 0x80) * 0x40 + (s[2] as int - 0x80)
    else (s[0] as int - 0xF0) * 0x4_0000 + (s[1] as int - 0x80) * 0x1000 + (s[2] as int - 0x80) * 0x40
         + (s[3] as int - 0x80)
  }

  lemma Digit(high: nat, low: nat)
    requires low < 0x40
    ensures (high * 0x40 + low) / 0x40 == high && (high * 0x40 + low) % 0x40 == low
  {
  }

  lemma ThreeDigits(a: nat, b: nat, c: nat)
    requires b < 0x40 && c < 0x40
    ensures var n := a * 0x1000 + b * 0x40 + c;
            n / 0x1000 == a && n / 0x40 == a * 0x40 + b && n / 0x40 % 0x40 == b && n % 0x40 == c
  {
    Digit(a * 0x40 + b, c);
    Digit(a, b);
  }

  lemma FourDigits(a: nat, b: nat, c: nat, d: nat)
    requires b < 0x40 && c < 0x40 && d < 0x40
    ensures var n := a * 0x4_0000 + b * 0x1000 + c * 0x40 + d;
            n / 0x4_0000 == a && n / 0x1000 % 0x40 == b && n / 0x40 % 0x40 == c && n % 0x40 == d
  {
    ThreeDigits(a * 0x40 + b, c, d);
    Digit(a, b);
  }

  lemma DecodesTwo(s: Bytes)
    requires CharLength(s) == 2
    ensures var c := DecodeOne(s, 2); 0x80 <= c < 0x800 && EncodeOne(c) == s[..2]
  {
    Digit(s[0] as int - 0xC0, s[1] as int - 0x80);
  }

  lemma DecodesThree(s: Bytes)
    requires CharLength(s) == 3
    ensures var c := DecodeOne(s, 3); 0x800 <= c < 0x1_0000 && IsScalar(c) && EncodeOne(c) == s[..3]
  {
    ThreeDigits(s[0] as int - 0xE0, s[1] as int - 0x80, s[2] as int - 0x80);
  }

  lemma DecodesFour(s: Bytes)
    requires CharLength(s) == 4
    ensures var c := DecodeOne(s, 4); 0x1_0000 <= c && IsScalar(c) && EncodeOne(c) == s[..4]
  {
    FourDigits(s[0] as int - 0xF0, s[1] as int - 0x80, s[2] as int - 0x80, s[3] as int - 0x80);
  }

  lemma DecodedIsScalar(s: Bytes)
    requires CharLength(s) > 0
    ensures CharLength(s) <= 4 && IsScalar(DecodeOne(s, CharLength(s)))
    ensures EncodeOne(DecodeOne(s, CharLength(s))) == s[..CharLength(s)]
  {
    if CharLength(s) == 2 {
      DecodesTwo(s);
    } else if CharLength(s) == 3 {
      DecodesThree(s);
    } else if CharLength(s) == 4 {
      DecodesFour(s);
    }
  }

  /** The bytes of one character. */
  predicate IsOneChar(s: Bytes) {
    s != [] && CharLength(s) == |s|
  }

  lemma EncodesTwo(c: nat)
    requires 0x80 <= c < 0x800
    ensures IsOneChar(EncodeOne(c))
  {
    assert 2 <= c / 0x40 <= 0x1F;
  }

  lemma EncodesThree(c: nat)
    requires 0x800 <= c < 0x1_0000 && IsScalar(c)
    ensures IsOneChar(EncodeOne(c))
  {
    var high := c / 0x40;
    assert high / 0x40 == c / 0x1000 <= 0xF;
  }

  lemma EncodesFour(c: nat)
    requires 0x1_0000 <= c && IsScalar(c)
    ensures IsOneChar(EncodeOne(c))
  {
    var high := c / 0x1000;
    assert 0x10 <= high < 0x110 && high / 0x40 == c / 0x4_0000;
  }

  lemma EncodedIsOne(c: nat)
    requires IsScalar(c)
    ensures IsOneChar(EncodeOne(c))
  {
    if 0x80 <= c < 0x800 {
      EncodesTwo(c);
    } else if 0x800 <= c < 0x1_0000 {
      EncodesThree(c);
    } else if 0x1_0000 <= c {
      EncodesFour(c);
    }
  }

  lemma EncodedIsChar(c: nat, rest: Bytes)
    requires IsScalar(c)
    ensures CharLength(EncodeOne(c) + rest) == |EncodeOne(c)|
  {
    EncodedIsOne(c);
    CharLengthJoined(EncodeOne(c), rest);
  }

  // ----- Text

  lemma {:induction false} EncodedIsUtf8(cs: seq<nat>)
    requires AreScalars(cs)
    ensures ValidUtf8(Encode(cs))
  {
    if cs != [] {
      var first, rest := EncodeOne(cs[0]), Encode(cs[1..]);
      EncodedIsChar(cs[0], rest);
      EncodedIsUtf8(cs[1..]);
      assert (first + rest)[|first|..] == rest;
    }
  }

  lemma Split(s: Bytes, n: nat)
    requires n <= |s|
    ensures s[..n] + s[n..] == s
  {
  }

  lemma OneMore(c: nat, cs: seq<nat>)
    requires IsScalar(c) && AreScalars(cs)
    ensures AreScalars([c] + cs) && Encode([c] + cs) == EncodeOne(c) + Encode(cs)
  {
    assert ([c] + cs)[1..] == cs;
  }

  lemma {:induction false} Utf8IsEncoded(s: Bytes) returns (cs: seq<nat>)
    requires ValidUtf8(s)
    ensures AreScalars(cs) && Encode(cs) == s
    decreases |s|
  {
    if s == [] {
      cs := [];
    } else {
      var n := CharLength(s);
      DecodedIsScalar(s);
      var rest := Utf8IsEncoded(s[n..]);
      cs := [DecodeOne(s, n)] + rest;
      OneMore(DecodeOne(s, n), rest);
      Split(s, n);
    }
  }

  /** What the parser takes for UTF-8 is exactly what encodes Unicode scalar values. */
  lemma Utf8Iff(s: Bytes)
    ensures ValidUtf8(s) <==> IsText(s)
  {
    if ValidUtf8(s) {
      var cs := Utf8IsEncoded(s);
    }
    if cs: seq<nat> :| AreScalars(cs) && Encode(cs) == s {
      EncodedIsUtf8(cs);
    }
  }

  // ----- White space

  /** Unicode's White_Space characters. */
  predicate IsWhite(c: nat) {
    || 0x09 <= c <= 0x0D || c == 0x20 || c == 0x85 || c == 0xA0 || c == 0x1680 || 0x2000 <= c <= 0x200A
    || c == 0x2028 || c == 0x2029 || c == 0x202F || c == 0x205F || c == 0x3000
  }

  predicate AreWhite(cs: seq<nat>) {
    forall i | 0 <= i < |cs| :: IsWhite(cs[i])
  }

  /** A character's bytes are those of a white space, if it is one; of which kind depends on how many
      they are. */
  predicate IsSpaceOf(s: Bytes) {
    if |s| == 1 then IsAsciiSpace(s[0]) else IsWideSpace(s)
  }

  lemma SpaceOfTwo(c: nat)
    requires 0x80 <= c < 0x800
    ensures IsWideSpace(EncodeOne(c)) <==> IsWhite(c)
  {
    if EncodeOne(c)[0] as int == 0xC2 {
      assert c == 0x80 + c % 0x40;
    }
  }

  lemma SpaceOfThree(c: nat)
    requires 0x800 <= c < 0x1_0000 && IsScalar(c)
    ensures IsWideSpace(EncodeOne(c)) <==> IsWhite(c)
  {
    var high := c / 0x40;
    assert c == high * 0x40 + c % 0x40 && high == c / 0x1000 * 0x40 + high % 0x40;
  }

  lemma SpaceIff(c: nat)
    requires IsScalar(c)
    ensures IsSpaceOf(EncodeOne(c)) <==> IsWhite(c)
  {
    if 0x80 <= c < 0x800 {
      SpaceOfTwo(c);
    } else if 0x800 <= c < 0x1_0000 {
      SpaceOfThree(c);
    }
  }

  lemma OneAtStart(first: Bytes, rest: Bytes)
    requires IsOneChar(first)
    ensures TrimStart(first + rest) == if IsSpaceOf(first) then TrimStart(rest) else first + rest
  {
    var s := first + rest;
    assert s[..|first|] == first && s[|first|..] == rest;
  }

  lemma WideSpaces(s: Bytes)
    requires IsWideSpace(s)
    ensures |s| == 2 ==> s[0] as int == 0xC2
    ensures |s| == 3 ==> 0xE1 <= s[0] as int <= 0xE3 && 0x80 <= s[1] as int <= 0x9A
    ensures |s| == 2 || |s| == 3
  {
  }

  /** The last bytes of two characters are no white space, unless the last character is. */
  lemma SpaceIsLast(pre: Bytes, last: Bytes, n: nat)
    requires IsOneChar(last) && |last| != n && (n == 2 || n == 3) && n <= |pre + last|
    ensures !IsWideSpace((pre + last)[|pre + last| - n..])
  {
    var s := pre + last;
    var end := s[|s| - n..];
    assert end[n - 1] == last[|last| - 1];
    assert |last| >= 2 ==> end[n - 2] == last[|last| - 2];
    assert n >= 3 && |last| >= 3 ==> end[n - 3] == last[|last| - 3];
    if IsWideSpace(end) {
      WideSpaces(end);
    }
  }

  /** The last `k` bytes are a wide white space. */
  predicate EndsInWide(s: Bytes, k: nat) {
    k <= |s| && IsWideSpace(s[|s| - k..])
  }

  lemma {:induction false} TrimEndStep(s: Bytes)
    requires s != []
    ensures var n := |s|;
            TrimEnd(s) ==
              if IsAsciiSpace(s[n - 1]) then TrimEnd(s[..n - 1])
              else if EndsInWide(s, 2) then TrimEnd(s[..n - 2])
              else if EndsInWide(s, 3) then TrimEnd(s[..n - 3])
              else s
  {
  }

  lemma LastByte(s: Bytes)
    requires IsOneChar(s)
    ensures IsAsciiSpace(s[|s| - 1]) <==> |s| == 1 && IsSpaceOf(s)
  {
  }

  lemma SpaceIsShort(s: Bytes)
    requires IsOneChar(s) && IsSpaceOf(s)
    ensures |s| <= 3
  {
  }

  /** How the bytes of one character end a text tells whether it is a wide white space. */
  lemma EndsLike(pre: Bytes, last: Bytes, n: nat)
    requires IsOneChar(last) && (n == 2 || n == 3)
    ensures EndsInWide(pre + last, n) <==> |last| == n && IsSpaceOf(last)
  {
    var s := pre + last;
    if |last| == n {
      assert s[|s| - n..] == last;
    } else if n <= |s| {
      SpaceIsLast(pre, last, n);
    }
  }

  lemma {:induction false} OneAtEnd(pre: Bytes, last: Bytes)
    requires IsOneChar(last)
    ensures TrimEnd(pre + last) == if IsSpaceOf(last) then TrimEnd(pre) else pre + last
  {
    var s := pre + last;
    EndsLike(pre, last, 2);
    EndsLike(pre, last, 3);
    LastByte(last);
    assert s[|s| - 1] == last[|last| - 1];
    TrimEndStep(s);
    if IsSpaceOf(last) {
      SpaceIsShort(last);
      assert s[..|s| - |last|] == pre;
    }
  }

  lemma StartIsTrimmed(c: nat, rest: Bytes)
    requires IsScalar(c)
    ensures TrimStart(EncodeOne(c) + rest) == if IsWhite(c) then TrimStart(rest) else EncodeOne(c) + rest
  {
    SpaceIff(c);
    EncodedIsOne(c);
    OneAtStart(EncodeOne(c), rest);
  }

  lemma EndIsTrimmed(pre: Bytes, c: nat)
    requires IsScalar(c)
    ensures TrimEnd(pre + EncodeOne(c)) == if IsWhite(c) then TrimEnd(pre) else pre + EncodeOne(c)
  {
    SpaceIff(c);
    EncodedIsOne(c);
    OneAtEnd(pre, EncodeOne(c));
  }

  lemma Regroup(a: Bytes, b: Bytes, c: Bytes)
    ensures a + (b + c) == (a + b) + c
  {
  }

  lemma {:induction false} EncodeJoins(a: seq<nat>, b: seq<nat>)
    requires AreScalars(a) && AreScalars(b)
    ensures AreScalars(a + b) && Encode(a + b) == Encode(a) + Encode(b)
  {
    if a == [] {
      assert a + b == b;
    } else {
      var ab := a + b;
      EncodeJoins(a[1..], b);
      assert ab[0] == a[0] && ab[1..] == a[1..] + b;
      Regroup(EncodeOne(a[0]), Encode(a[1..]), Encode(b));
    }
  }

  lemma {:induction false} LeadIsTrimmed(lead: seq<nat>, rest: Bytes)
    requires AreScalars(lead) && AreWhite(lead)
    ensures TrimStart(Encode(lead) + rest) == TrimStart(rest)
  {
    if lead == [] {
      assert Encode(lead) + rest == rest;
    } else {
      var more := Encode(lead[1..]) + rest;
      StartIsTrimmed(lead[0], more);
      LeadIsTrimmed(lead[1..], rest);
      assert Encode(lead) + rest == EncodeOne(lead[0]) + more;
    }
  }

  lemma LastIsApart(cs: seq<nat>)
    requires cs != [] && AreScalars(cs)
    ensures AreScalars(cs[..|cs| - 1])
    ensures Encode(cs) == Encode(cs[..|cs| - 1]) + EncodeOne(cs[|cs| - 1])
  {
    var n := |cs| - 1;
    EncodeJoins(cs[..n], [cs[n]]);
    assert cs[..n] + [cs[n]] == cs && Encode([cs[n]]) == EncodeOne(cs[n]);
  }

  lemma {:induction false} TrailIsTrimmed(pre: Bytes, trail: seq<nat>)
    requires AreScalars(trail) && AreWhite(trail)
    ensures TrimEnd(pre + Encode(trail)) == TrimEnd(pre)
  {
    if trail == [] {
      assert pre + Encode(trail) == pre;
    } else {
      var n := |trail| - 1;
      LastIsApart(trail);
      Regroup(pre, Encode(trail[..n]), EncodeOne(trail[n]));
      EndIsTrimmed(pre + Encode(trail[..n]), trail[n]);
      TrailIsTrimmed(pre, trail[..n]);
    }
  }

  lemma MiddleStays(mid: seq<nat>, rest: Bytes)
    requires mid != [] && AreScalars(mid) && !IsWhite(mid[0]) && !IsWhite(mid[|mid| - 1])
    ensures TrimStart(Encode(mid) + rest) == Encode(mid) + rest
    ensures TrimEnd(Encode(mid)) == Encode(mid)
  {
    StartIsTrimmed(mid[0], Encode(mid[1..]) + rest);
    Regroup(EncodeOne(mid[0]), Encode(mid[1..]), rest);
    LastIsApart(mid);
    EndIsTrimmed(Encode(mid[..|mid| - 1]), mid[|mid| - 1]);
  }

  /** Trimming gives what lies between the first and the last character that is no white space. */
  lemma TrimIsBetweenSpaces(lead: seq<nat>, mid: seq<nat>, trail: seq<nat>)
    requires AreScalars(lead) && AreScalars(mid) && AreScalars(trail)
    requires AreWhite(lead) && AreWhite(trail)
    requires mid != [] ==> !IsWhite(mid[0]) && !IsWhite(mid[|mid| - 1])
    ensures Trim(Encode(lead) + Encode(mid) + Encode(trail)) == Encode(mid)
  {
    var text, end := Encode(mid), Encode(trail);
    Regroup(Encode(lead), text, end);
    LeadIsTrimmed(lead, text + end);
    if mid == [] {
      assert text + end == end + [];
      LeadIsTrimmed(trail, []);
    } else {
      MiddleStays(mid, end);
      TrailIsTrimmed(text, trail);
    }
  }

  // ----- Case

  /** Equal but for the case of ASCII letters. */
  predicate DifferInCase(a: Byte, b: Byte) {
    || a == b
    || ('A' <= a <= 'Z' && b as int == a as int + 32)
    || ('A' <= b <= 'Z' && a as int == b as int + 32)
  }

  lemma EqIgnoreCaseIff(a: Bytes, b: Bytes)
    ensures EqIgnoreCase(a, b) <==> |a| == |b| && forall i | 0 <= i < |a| :: DifferInCase(a[i], b[i])
  {
    forall i | 0 <= i < |a| && i < |b|
      ensures LowerByte(a[i]) == LowerByte(b[i]) <==> DifferInCase(a[i], b[i])
    {
    }
  }
}
