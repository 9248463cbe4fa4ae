/** What the multipart parser promises of forms: it undoes a printer of parts. */
module MultipartForms {
  import opened Wrappers
  import opened MultipartScans
  import opened Multiparts

  // ----- Delimiters

  /** With no CR in the boundary a delimiter cannot overlap itself, so data is clear of it
      exactly when it does not contain it. */
  lemma ClearOfDelimiterIff(data: Bytes, boundary: Bytes)
    requires '\r' !in boundary
    ensures IsClear(data, Between(boundary)) <==>
              forall i: nat :: !OccursAt(data, Between(boundary), i)
  {
    var between := Between(boundary);
    var text := data + between;
    assert text[0..|data|] == data;
    forall i: nat | i < |data|
      ensures OccursAt(text, between, i) <==> OccursAt(data, between, i)
    {
      if i + |between| <= |data| {
        SliceOccurs(text, between, 0, |data|, i);
      } else if i + |between| <= |text| {
        var k := |data| - i;
        assert text[i..i + |between|][k] == text[|data|] == '\r';
        assert k >= 4 ==> between[k] == boundary[k - 4];
        assert between[k] != '\r';
      }
    }
    assert forall i: nat | i >= |data| :: !OccursAt(data, between, i);
  }

  /** Likewise a line is clear of CRLF exactly when it contains none. */
  lemma ClearOfCrlfIff(pad: Bytes)
    ensures IsClear(pad, CRLF) <==> forall i: nat :: !OccursAt(pad, CRLF, i)
  {
    var text := pad + CRLF;
    assert text[0..|pad|] == pad;
    forall i: nat | i < |pad|
      ensures OccursAt(text, CRLF, i) <==> OccursAt(pad, CRLF, i)
    {
      if i + 2 <= |pad| {
        SliceOccurs(text, CRLF, 0, |pad|, i);
      } else {
        assert text[i..i + 2][1] == text[|pad|] == '\r';
      }
    }
    assert forall i: nat | i >= |pad| :: !OccursAt(pad, CRLF, i);
  }

  // ----- UTF-8

  lemma CharLengthJoined(a: Bytes, b: Bytes)
    requires CharLength(a) > 0
    ensures CharLength(a + b) == CharLength(a)
  {
    assert |a| >= 1 ==> (a + b)[0] == a[0];
    assert |a| >= 2 ==> (a + b)[1] == a[1];
    assert |a| >= 3 ==> (a + b)[2] == a[2];
    assert |a| >= 4 ==> (a + b)[3] == a[3];
  }

  lemma {:induction false} Utf8Joins(a: Bytes, b: Bytes)
    requires ValidUtf8(a) && ValidUtf8(b)
    ensures ValidUtf8(a + b)
    decreases |a|
  {
    if a == [] {
      assert a + b == b;
    } else {
      var n := CharLength(a);
      CharLengthJoined(a, b);
      Utf8Joins(a[n..], b);
      DropJoined(a, b, n);
    }
  }

  lemma DropJoined(a: Bytes, b: Bytes, n: nat)
    requires n <= |a|
    ensures (a + b)[n..] == a[n..] + b
  {
  }

  predicate IsAscii(a: Bytes) {
    forall i | 0 <= i < |a| :: a[i] as int < 0x80
  }

  lemma AsciiJoins(a: Bytes, b: Bytes)
    requires IsAscii(a) && IsAscii(b)
    ensures IsAscii(a + b)
  {
  }

  lemma {:induction false} AsciiIsUtf8(a: Bytes)
    requires IsAscii(a)
    ensures ValidUtf8(a)
  {
    if a != [] {
      AsciiIsUtf8(a[1..]);
    }
  }

  // ----- Quoting

  predicate NeedsEscape(c: Byte) {
    c == '"' || c == '\\' || c == '\n'
  }

  /** Backslash before quotes and backslashes, and before LF so that no value breaks its line. */
  function Escape(v: Bytes): Bytes {
    if v == [] then []
    else (if NeedsEscape(v[0]) then ['\\', v[0]] else [v[0]]) + Escape(v[1..])
  }

  const QUOTE: Bytes := "\""

  lemma {:induction false} UnquoteUndoesEscape(v: Bytes, rest: Bytes)
    ensures Unquote(Escape(v) + QUOTE + rest) == Taken(v, rest)
  {
    var s := Escape(v) + QUOTE + rest;
    if v == [] {
      assert s[1..] == rest;
    } else {
      UnquoteUndoesEscape(v[1..], rest);
      var more := Escape(v[1..]) + QUOTE + rest;
      assert [v[0]] + v[1..] == v;
      if NeedsEscape(v[0]) {
        assert s == ['\\', v[0]] + more && s[2..] == more;
      } else {
        assert s == [v[0]] + more && s[1..] == more;
      }
    }
  }

  lemma {:induction false} EscapeOfAll(v: Bytes, n: nat)
    requires n <= |v| && forall i | 0 <= i < n :: !NeedsEscape(v[i])
    ensures Escape(v) == v[..n] + Escape(v[n..])
  {
    if n > 0 {
      EscapeOfAll(v[1..], n - 1);
      assert v[1..][n - 1..] == v[n..];
      assert v[..n] == [v[0]] + v[1..][..n - 1];
    }
  }

  lemma {:induction false} EscapeIsUtf8(v: Bytes)
    requires ValidUtf8(v)
    ensures ValidUtf8(Escape(v))
    decreases |v|
  {
    if v != [] {
      var n := CharLength(v);
      EscapeIsUtf8(v[n..]);
      if n == 1 {
        var c := if NeedsEscape(v[0]) then ['\\', v[0]] else [v[0]];
        AsciiIsUtf8(c);
        Utf8Joins(c, Escape(v[1..]));
      } else {
        EscapeOfAll(v, n);
        assert CharLength(v[..n]) == n && v[..n][n..] == [];
        Utf8Joins(v[..n], Escape(v[n..]));
      }
    }
  }

  // ----- Parameters

  /** A key that reads back as itself: it holds no `=`, and neither starts with a separator nor
      has white space around it. */
  predicate IsKey(k: Bytes) {
    && '=' !in k
    && (k != [] ==> !IsSeparator(k[0]))
    && Trim(k) == k
  }

  function PrintParam(p: Param): Bytes {
    p.key + "=" + QUOTE + Escape(p.value) + QUOTE
  }

  function PrintParams(ps: seq<Param>): Bytes {
    if ps == [] then []
    else if |ps| == 1 then PrintParam(ps[0])
    else PrintParam(ps[0]) + "; " + PrintParams(ps[1..])
  }

  lemma OccursByte(text: Bytes, c: Byte, j: nat)
    ensures OccursAt(text, [c], j) <==> j < |text| && text[j] == c
  {
    if j < |text| {
      assert text[j..j + 1] == [text[j]];
    }
  }

  lemma {:induction false} FindByte(text: Bytes, c: Byte, from: nat, i: nat)
    requires from <= i < |text| && text[i] == c && forall j | from <= j < i :: text[j] != c
    ensures Find(text, [c], from) == FoundAt(i)
    decreases i - from
  {
    OccursByte(text, c, from);
    if from < i {
      FindByte(text, c, from + 1, i);
    }
  }

  lemma QuoteIsNotTrimmed(text: Bytes)
    requires text != [] && text[0] == '"'
    ensures TrimStart(text) == text
  {
  }

  lemma TakesQuoted(text: Bytes)
    requires text != [] && text[0] == '"'
    ensures TakeValue(text) == Unquote(text[1..])
  {
  }

  lemma ReadsQuotedValue(v: Bytes, rest: Bytes)
    ensures TakeValue(TrimStart(QUOTE + (Escape(v) + QUOTE + rest))) == Taken(v, rest)
  {
    var inner := Escape(v) + QUOTE + rest;
    var after := QUOTE + inner;
    assert after[0] == '"';
    assert after[1..] == inner;
    QuoteIsNotTrimmed(after);
    TakesQuoted(after);
    UnquoteUndoesEscape(v, rest);
  }

  lemma FirstParamAt(text: Bytes, k: nat, p: Param, rest: Bytes)
    requires Find(text, "=", 0) == FoundAt(k)
    requires Trim(text[..k]) == p.key
    requires TakeValue(TrimStart(text[k + 1..])) == Taken(p.value, rest)
    ensures FirstParam(text) == First(p, rest)
  {
  }

  /** Where the pieces of a printed parameter lie. */
  lemma ParamText(p: Param, rest: Bytes)
    requires '=' !in p.key
    ensures var text, k := PrintParam(p) + rest, |p.key|;
            && k < |text| && text[k] == '='
            && text[..k] == p.key
            && (forall j | 0 <= j < k :: text[j] != '=')
            && text[k + 1..] == QUOTE + (Escape(p.value) + QUOTE + rest)
  {
    var text, k := PrintParam(p) + rest, |p.key|;
    assert forall j | 0 <= j < k :: text[j] == p.key[j];
  }

  lemma ReadsFirstParam(p: Param, rest: Bytes)
    requires IsKey(p.key)
    ensures FirstParam(PrintParam(p) + rest) == First(p, rest)
  {
    var text, k := PrintParam(p) + rest, |p.key|;
    ParamText(p, rest);
    FindByte(text, '=', 0, k);
    ReadsQuotedValue(p.value, rest);
    FirstParamAt(text, k, p, rest);
  }

  lemma ParamIsNoSeparator(p: Param, rest: Bytes)
    requires IsKey(p.key)
    ensures TrimSeparators(PrintParam(p) + rest) == PrintParam(p) + rest
  {
    var text := PrintParam(p) + rest;
    assert text[0] == (if p.key == [] then '=' else p.key[0]);
  }

  lemma {:induction false} SeparatorsAreSkipped(lead: Bytes, text: Bytes)
    requires forall i | 0 <= i < |lead| :: IsSeparator(lead[i])
    ensures TrimSeparators(lead + text) == TrimSeparators(text)
  {
    if lead == [] {
      assert lead + text == text;
    } else {
      assert (lead + text)[1..] == lead[1..] + text;
      SeparatorsAreSkipped(lead[1..], text);
    }
  }

  lemma ReadsOnFirst(p: Param, rest: Bytes)
    requires IsKey(p.key)
    ensures Parameters(PrintParam(p) + rest) == [p] + Parameters(rest)
  {
    ReadsFirstParam(p, rest);
    ParamIsNoSeparator(p, rest);
  }

  lemma LeadIsSkipped(lead: Bytes, text: Bytes)
    requires forall i | 0 <= i < |lead| :: IsSeparator(lead[i])
    ensures Parameters(lead + text) == Parameters(text)
  {
    SeparatorsAreSkipped(lead, text);
  }

  lemma Associates(a: Bytes, b: Bytes, c: Bytes)
    ensures a + b + c == a + (b + c)
  {
  }

  lemma SeparatorIsSkipped(more: Bytes)
    ensures Parameters("; " + more) == Parameters(more)
  {
    LeadIsSkipped("; ", more);
  }

  lemma ReadsThenSkips(p: Param, more: Bytes)
    requires IsKey(p.key)
    ensures Parameters(PrintParam(p) + "; " + more) == [p] + Parameters(more)
  {
    SeparatorIsSkipped(more);
    ReadsOnFirst(p, "; " + more);
    Associates(PrintParam(p), "; ", more);
  }

  lemma ReadsLast(p: Param)
    requires IsKey(p.key)
    ensures Parameters(PrintParam(p)) == [p]
  {
    assert PrintParam(p) + [] == PrintParam(p);
    ReadsOnFirst(p, []);
  }

  lemma {:induction false} PrintedAreRead(ps: seq<Param>)
    requires forall i | 0 <= i < |ps| :: IsKey(ps[i].key)
    ensures Parameters(PrintParams(ps)) == ps
  {
    if |ps| == 1 {
      ReadsLast(ps[0]);
    } else if |ps| > 1 {
      PrintedAreRead(ps[1..]);
      ReadsThenSkips(ps[0], PrintParams(ps[1..]));
    }
  }

  /** For any keys that read back as themselves and any values at all, reading the printed
      parameters answers exactly the list, whatever separators precede it. */
  lemma ParametersUndoPrinting(lead: Bytes, ps: seq<Param>)
    requires forall i | 0 <= i < |lead| :: IsSeparator(lead[i])
    requires forall i | 0 <= i < |ps| :: IsKey(ps[i].key)
    ensures Parameters(lead + PrintParams(ps)) == ps
  {
    LeadIsSkipped(lead, PrintParams(ps));
    PrintedAreRead(ps);
  }

  // ----- Text that is not trimmed

  /** Printable ASCII: no white space, and no part of any. */
  predicate IsPlain(c: Byte) {
    0x20 < c as int < 0x80
  }

  lemma PlainStart(s: Bytes)
    requires s != [] && IsPlain(s[0])
    ensures TrimStart(s) == s
  {
  }

  lemma WideEndsHigh(t: Bytes)
    ensures IsWideSpace(t) ==> t != [] && t[|t| - 1] as int >= 0x80
  {
  }

  /** No tail of `s` is white space. */
  lemma NoWideTail(s: Bytes, k: nat)
    requires k < |s| && IsPlain(s[|s| - 1])
    ensures !IsWideSpace(s[k..])
  {
    WideEndsHigh(s[k..]);
    assert s[k..][|s| - k - 1] == s[|s| - 1];
  }

  lemma NoTrimEnd(s: Bytes)
    requires s != [] && !IsAsciiSpace(s[|s| - 1])
    requires |s| >= 2 ==> !IsWideSpace(s[|s| - 2..])
    requires |s| >= 3 ==> !IsWideSpace(s[|s| - 3..])
    ensures TrimEnd(s) == s
  {
  }

  lemma PlainEnd(s: Bytes)
    requires s != [] && IsPlain(s[|s| - 1])
    ensures TrimEnd(s) == s
  {
    if |s| >= 2 {
      NoWideTail(s, |s| - 2);
    }
    if |s| >= 3 {
      NoWideTail(s, |s| - 3);
    }
    NoTrimEnd(s);
  }

  /** Text with printable ends is not trimmed. */
  lemma PlainIsTrimmed(s: Bytes)
    requires s != [] && IsPlain(s[0]) && IsPlain(s[|s| - 1])
    ensures Trim(s) == s
  {
    PlainStart(s);
    PlainEnd(s);
  }

  // ----- Bare values

  /** A value that reads as itself without quotes. */
  predicate IsBare(v: Bytes) {
    ';' !in v && Trim(v) == v && (v != [] ==> v[0] != '"')
  }

  /** What may follow a bare value: nothing, or the next semicolon. */
  predicate EndsValue(rest: Bytes) {
    rest == [] || rest[0] == ';'
  }

  lemma {:induction false} TrimEndIsShorter(s: Bytes)
    ensures |TrimEnd(s)| <= |s|
    decreases |s|
  {
    var n := |s|;
    if n >= 1 && IsAsciiSpace(s[n - 1]) {
      TrimEndIsShorter(s[..n - 1]);
    } else if n >= 2 && IsWideSpace(s[n - 2..]) {
      TrimEndIsShorter(s[..n - 2]);
    } else if n >= 3 && IsWideSpace(s[n - 3..]) {
      TrimEndIsShorter(s[..n - 3]);
    }
  }

  predicate StartsWithSpace(s: Bytes) {
    || (|s| >= 1 && IsAsciiSpace(s[0]))
    || (|s| >= 2 && IsWideSpace(s[..2]))
    || (|s| >= 3 && IsWideSpace(s[..3]))
  }

  lemma TrimmedStarts(v: Bytes)
    requires Trim(v) == v
    ensures !StartsWithSpace(v)
  {
    TrimEndIsShorter(TrimStart(v));
  }

  lemma NoSpaceNoTrim(s: Bytes)
    requires !StartsWithSpace(s)
    ensures TrimStart(s) == s
  {
  }

  /** A semicolon does not complete any white space. */
  lemma SemicolonIsNoSpace(v: Bytes, rest: Bytes)
    requires !StartsWithSpace(v) && EndsValue(rest)
    ensures !StartsWithSpace(v + rest)
  {
    var s := v + rest;
    if rest == [] {
      assert s == v;
    } else {
      assert s[|v|] == ';';
      assert |v| >= 1 ==> s[0] == v[0];
      assert |v| >= 2 ==> s[..2] == v[..2];
      assert |v| >= 3 ==> s[..3] == v[..3];
    }
  }

  lemma {:induction false} FindsNoByte(text: Bytes, c: Byte, from: nat)
    requires forall j | from <= j < |text| :: text[j] != c
    ensures Find(text, [c], from) == Nowhere
    decreases |text| - from
  {
    OccursByte(text, c, from);
    if from < |text| {
      FindsNoByte(text, c, from + 1);
    }
  }

  lemma FindsEndOfBare(v: Bytes, rest: Bytes)
    requires ';' !in v && EndsValue(rest)
    ensures var s := v + rest;
            Find(s, [';'], 0) == if rest == [] then Nowhere else FoundAt(|v|)
  {
    var s := v + rest;
    assert forall j | 0 <= j < |v| :: s[j] == v[j];
    if rest == [] {
      FindsNoByte(s, ';', 0);
    } else {
      FindByte(s, ';', 0, |v|);
    }
  }

  lemma ReadsBareValue(v: Bytes, rest: Bytes)
    requires IsBare(v) && EndsValue(rest)
    ensures TakeValue(TrimStart(v + rest)) == Taken(v, rest)
  {
    var s := v + rest;
    TrimmedStarts(v);
    SemicolonIsNoSpace(v, rest);
    NoSpaceNoTrim(s);
    FindsEndOfBare(v, rest);
    assert s != [] ==> s[0] != '"';
    assert s[..|v|] == v && s[|v|..] == rest;
    assert rest == [] ==> s == v;
  }

  lemma BareText(p: Param, rest: Bytes, text: Bytes)
    requires '=' !in p.key && text == p.key + ['='] + (p.value + rest)
    ensures var k := |p.key|;
            && k < |text| && text[..k] == p.key && text[k + 1..] == p.value + rest
            && Find(text, ['='], 0) == FoundAt(k)
  {
    var k := |p.key|;
    assert forall j | 0 <= j < k :: text[j] == p.key[j];
    FindByte(text, '=', 0, k);
  }

  /** A bare parameter is read as it stands, up to the semicolon or the end. */
  lemma BareParamIsRead(p: Param, rest: Bytes, text: Bytes)
    requires IsKey(p.key) && IsBare(p.value) && EndsValue(rest)
    requires text == p.key + ['='] + (p.value + rest)
    ensures FirstParam(text) == First(p, rest)
  {
    BareText(p, rest, text);
    ReadsBareValue(p.value, rest);
    FirstParamAt(text, |p.key|, p, rest);
  }

  /** A parameter, printed bare or quoted. */
  datatype Styled = Styled(param: Param, bare: bool)

  predicate IsStyled(s: Styled) {
    IsKey(s.param.key) && (s.bare ==> IsBare(s.param.value))
  }

  function PrintStyled(s: Styled): Bytes {
    if s.bare then s.param.key + ['='] + s.param.value else PrintParam(s.param)
  }

  function PrintAll(ss: seq<Styled>): Bytes {
    if ss == [] then []
    else if |ss| == 1 then PrintStyled(ss[0])
    else PrintStyled(ss[0]) + "; " + PrintAll(ss[1..])
  }

  function ParamsIn(ss: seq<Styled>): seq<Param> {
    if ss == [] then [] else [ss[0].param] + ParamsIn(ss[1..])
  }

  lemma StyledStartsPlain(s: Styled, rest: Bytes)
    requires IsStyled(s)
    ensures TrimSeparators(PrintStyled(s) + rest) == PrintStyled(s) + rest
  {
    var text := PrintStyled(s) + rest;
    assert text[0] == (if s.param.key == [] then '=' else s.param.key[0]);
  }

  lemma ReadsFirstStyled(s: Styled, rest: Bytes)
    requires IsStyled(s) && EndsValue(rest)
    ensures FirstParam(PrintStyled(s) + rest) == First(s.param, rest)
  {
    if s.bare {
      Associates(s.param.key + ['='], s.param.value, rest);
      BareParamIsRead(s.param, rest, PrintStyled(s) + rest);
    } else {
      ReadsFirstParam(s.param, rest);
    }
  }

  lemma ReadsOnStyled(s: Styled, rest: Bytes)
    requires IsStyled(s) && EndsValue(rest)
    ensures Parameters(PrintStyled(s) + rest) == [s.param] + Parameters(rest)
  {
    ReadsFirstStyled(s, rest);
    StyledStartsPlain(s, rest);
  }

  lemma ReadsStyledThenSkips(s: Styled, more: Bytes)
    requires IsStyled(s)
    ensures Parameters(PrintStyled(s) + "; " + more) == [s.param] + Parameters(more)
  {
    SeparatorIsSkipped(more);
    ReadsOnStyled(s, "; " + more);
    Associates(PrintStyled(s), "; ", more);
  }

  lemma ReadsLastStyled(s: Styled)
    requires IsStyled(s)
    ensures Parameters(PrintStyled(s)) == [s.param]
  {
    assert PrintStyled(s) + [] == PrintStyled(s);
    ReadsOnStyled(s, []);
  }

  /** For any list of parameters, each printed bare where it can be or quoted, reading gives back
      exactly the list. */
  lemma {:induction false} MixedParametersAreRead(ss: seq<Styled>)
    requires forall i | 0 <= i < |ss| :: IsStyled(ss[i])
    ensures Parameters(PrintAll(ss)) == ParamsIn(ss)
  {
    if |ss| == 1 {
      ReadsLastStyled(ss[0]);
      assert ParamsIn(ss[1..]) == [];
    } else if |ss| > 1 {
      MixedParametersAreRead(ss[1..]);
      ReadsStyledThenSkips(ss[0], PrintAll(ss[1..]));
    }
  }

  /** `Lookup` answers the first parameter of that name, whatever its case, or that none has it. */
  lemma {:induction false} LookupIsFirst(ps: seq<Param>, key: Bytes)
    ensures Lookup(ps, key) == None <==> forall i | 0 <= i < |ps| :: !EqIgnoreCase(ps[i].key, key)
    ensures forall i | 0 <= i < |ps| && EqIgnoreCase(ps[i].key, key)
                       && (forall j | 0 <= j < i :: !EqIgnoreCase(ps[j].key, key)) ::
              Lookup(ps, key) == Some(ps[i].value)
  {
    if ps != [] {
      LookupIsFirst(ps[1..], key);
      assert forall i | 1 <= i < |ps| :: ps[i] == ps[1..][i - 1];
    }
  }

  /** The last parameter named `name` or `filename`, whatever its case, counts. */
  lemma {:induction false} LastNameCounts(f: Fields, ps: seq<Param>, i: nat, key: Bytes)
    requires i < |ps| && EqIgnoreCase(ps[i].key, key)
    requires forall j | i < j < |ps| :: !EqIgnoreCase(ps[j].key, key)
    ensures key == "name" ==> TakeParams(f, ps).name == Some(ps[i].value)
    ensures key == "filename" ==> TakeParams(f, ps).filename == Some(ps[i].value)
    decreases ps
  {
    if i > 0 {
      LastNameCounts(TakeParam(f, ps[0]), ps[1..], i - 1, key);
    } else {
      OthersKeep(TakeParam(f, ps[0]), ps[1..], key);
      if key == "filename" {
        assert |ps[0].key| == 8;
      }
    }
  }

  lemma {:induction false} OthersKeep(f: Fields, ps: seq<Param>, key: Bytes)
    requires forall j | 0 <= j < |ps| :: !EqIgnoreCase(ps[j].key, key)
    ensures key == "name" ==> TakeParams(f, ps).name == f.name
    ensures key == "filename" ==> TakeParams(f, ps).filename == f.filename
    decreases ps
  {
    if ps != [] {
      assert !EqIgnoreCase(ps[0].key, key);
      OthersKeep(TakeParam(f, ps[0]), ps[1..], key);
    }
  }

  // ----- The boundary

  const FORM_DATA: Bytes := "multipart/form-data"
  const BOUNDARY: Bytes := "boundary"

  lemma FormDataIsForm()
    ensures Trim(FORM_DATA) == FORM_DATA
    ensures ';' !in FORM_DATA
  {
    PlainIsTrimmed(FORM_DATA);
  }

  lemma BoundaryAt(text: Bytes, k: nat, boundary: Bytes)
    requires Find(text, ";", 0) == FoundAt(k)
    requires EqIgnoreCase(Trim(text[..k]), FORM_DATA)
    requires Lookup(Parameters(text[k + 1..]), BOUNDARY) == Some(boundary) && boundary != []
    ensures Boundary(text) == Some(boundary)
  {
  }

  lemma KindText(params: Bytes)
    ensures var text, k := FORM_DATA + "; " + params, |FORM_DATA|;
            && text[k] == ';'
            && text[..k] == FORM_DATA
            && text[k + 1..] == " " + params
            && forall j | 0 <= j < k :: text[j] != ';'
  {
    var text, k := FORM_DATA + "; " + params, |FORM_DATA|;
    FormDataIsForm();
    assert forall j | 0 <= j < k :: text[j] == FORM_DATA[j];
  }

  lemma KindIsFormData(text: Bytes, k: nat)
    requires k <= |text| && text[..k] == FORM_DATA
    ensures EqIgnoreCase(Trim(text[..k]), FORM_DATA)
  {
    FormDataIsForm();
  }

  lemma BoundaryOfText(text: Bytes, k: nat, boundary: Bytes)
    requires boundary != []
    requires k < |text| && text[k] == ';' && text[..k] == FORM_DATA && forall j | 0 <= j < k :: text[j] != ';'
    requires Lookup(Parameters(text[k + 1..]), BOUNDARY) == Some(boundary)
    ensures Boundary(text) == Some(boundary)
  {
    FindByte(text, ';', 0, k);
    KindIsFormData(text, k);
    BoundaryAt(text, k, boundary);
  }

  lemma {:induction false} LooksUpLast(before: seq<Param>, last: Param)
    requires forall i | 0 <= i < |before| :: !EqIgnoreCase(before[i].key, last.key)
    ensures Lookup(before + [last], last.key) == Some(last.value)
  {
    if before != [] {
      LooksUpLast(before[1..], last);
      assert (before + [last])[1..] == before[1..] + [last];
    }
  }

  lemma {:induction false} ParamsInJoin(ss: seq<Styled>, s: Styled)
    ensures ParamsIn(ss + [s]) == ParamsIn(ss) + [s.param]
  {
    if ss == [] {
      assert ss + [s] == [s] && [s][1..] == [];
    } else {
      ParamsInJoin(ss[1..], s);
      assert (ss + [s])[1..] == ss[1..] + [s];
    }
  }

  lemma {:induction false} ParamsInAt(ss: seq<Styled>)
    ensures |ParamsIn(ss)| == |ss| && forall i | 0 <= i < |ss| :: ParamsIn(ss)[i] == ss[i].param
  {
    if ss != [] {
      ParamsInAt(ss[1..]);
    }
  }

  lemma ReadsBoundary(before: seq<Styled>, boundary: Styled, all: seq<Styled>)
    requires IsStyled(boundary) && boundary.param.key == BOUNDARY && all == before + [boundary]
    requires forall i | 0 <= i < |before| :: IsStyled(before[i]) && !EqIgnoreCase(before[i].param.key, BOUNDARY)
    ensures Lookup(Parameters(" " + PrintAll(all)), BOUNDARY) == Some(boundary.param.value)
  {
    LeadIsSkipped(" ", PrintAll(all));
    MixedParametersAreRead(all);
    ParamsInJoin(before, boundary);
    ParamsInAt(before);
    LooksUpLast(ParamsIn(before), boundary.param);
  }

  /** The boundary is read back from a content type that carries it, quoted or bare, among any
      other parameters before it that are not named so. */
  lemma BoundaryUndoesPrinting(text: Bytes, before: seq<Styled>, boundary: Styled)
    requires IsStyled(boundary) && boundary.param.key == BOUNDARY && boundary.param.value != []
    requires forall i | 0 <= i < |before| :: IsStyled(before[i]) && !EqIgnoreCase(before[i].param.key, BOUNDARY)
    requires text == FORM_DATA + "; " + PrintAll(before + [boundary])
    ensures Boundary(text) == Some(boundary.param.value)
  {
    KindText(PrintAll(before + [boundary]));
    ReadsBoundary(before, boundary, before + [boundary]);
    BoundaryOfText(text, |FORM_DATA|, boundary.param.value);
  }
}
