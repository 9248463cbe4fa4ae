/** `multipart/form-data` bodies (src/multipart.rs).  The functions say what is read; the methods
    are the source's scanning loops, proved to read exactly that on every input. */
module Multiparts {
  import opened Wrappers
  import opened MultipartScans

  const CRLF: Bytes := "\r\n"
  const BLANK: Bytes := "\r\n\r\n"
  const DASHES: Bytes := "--"

  /** Where `needle` first occurs in `text` at or after `from`. */
  function Find(text: Bytes, needle: Bytes, from: nat): (found: Found)
    ensures found.FoundAt? ==> from <= found.index && found.index + |needle| <= |text|
    decreases |text| - from
  {
    if needle == [] || from + |needle| > |text| then Nowhere
    else if OccursAt(text, needle, from) then FoundAt(from)
    else Find(text, needle, from + 1)
  }

  lemma {:induction false} FindIsFirst(text: Bytes, needle: Bytes, from: nat)
    requires needle != []
    ensures FindsFirst(Find, text, needle, from)
    decreases |text| - from
  {
    if from + |needle| <= |text| && !OccursAt(text, needle, from) {
      FindIsFirst(text, needle, from + 1);
    }
  }

  /** `Find` answers the first occurrence, or that there is none. */
  lemma FindIsSearch()
    ensures IsSearch(Find)
  {
    forall text, needle, from: nat | needle != []
      ensures FindsFirst(Find, text, needle, from)
    {
      FindIsFirst(text, needle, from);
    }
  }

  // ----- Text: ASCII case, white space, UTF-8

  function LowerByte(c: Byte): Byte {
    if 'A' <= c <= 'Z' then (c as int + 32) as char else c
  }

  predicate EqIgnoreCase(a: Bytes, b: Bytes) {
    |a| == |b| && forall i | 0 <= i < |a| :: LowerByte(a[i]) == LowerByte(b[i])
  }

  predicate IsAsciiSpace(c: Byte) {
    c == ' ' || 9 <= c as int <= 13
  }

  /** The two- and three-byte encodings of Unicode's other white space. */
  predicate IsWideSpace(s: Bytes) {
    || (|s| == 2 && s[0] as int == 0xC2 && (s[1] as int == 0x85 || s[1] as int == 0xA0))
    || (|s| == 3 && s[0] as int == 0xE1 && s[1] as int == 0x9A && s[2] as int == 0x80)
    || (|s| == 3 && s[0] as int == 0xE2 && s[1] as int == 0x80
        && (0x80 <= s[2] as int <= 0x8A || s[2] as int == 0xA8 || s[2] as int == 0xA9 || s[2] as int == 0xAF))
    || (|s| == 3 && s[0] as int == 0xE2 && s[1] as int == 0x81 && s[2] as int == 0x9F)
    || (|s| == 3 && s[0] as int == 0xE3 && s[1] as int == 0x80 && s[2] as int == 0x80)
  }

  function TrimStart(s: Bytes): (t: Bytes)
    ensures |t| <= |s|
  {
    if |s| >= 1 && IsAsciiSpace(s[0]) then TrimStart(s[1..])
    else if |s| >= 2 && IsWideSpace(s[..2]) then TrimStart(s[2..])
    else if |s| >= 3 && IsWideSpace(s[..3]) then TrimStart(s[3..])
    else s
  }

  function TrimEnd(s: Bytes): Bytes {
    var n := |s|;
    if n >= 1 && IsAsciiSpace(s[n - 1]) then TrimEnd(s[..n - 1])
    else if n >= 2 && IsWideSpace(s[n - 2..]) then TrimEnd(s[..n - 2])
    else if n >= 3 && IsWideSpace(s[n - 3..]) then TrimEnd(s[..n - 3])
    else s
  }

  function Trim(s: Bytes): Bytes {
    TrimEnd(TrimStart(s))
  }

  predicate IsBetween(c: Byte, low: int, high: int) {
    low <= c as int <= high
  }

  predicate IsTail(c: Byte) {
    IsBetween(c, 0x80, 0xBF)
  }

  /** Length of the well-formed UTF-8 sequence `s` starts with, or 0. */
  function CharLength(s: Bytes): (n: nat)
    ensures n <= |s|
  {
    if s == [] then 0
    else if IsBetween(s[0], 0, 0x7F) then 1
    else if |s| < 2 then 0
    else if IsBetween(s[0], 0xC2, 0xDF) && IsTail(s[1]) then 2
    else if |s| < 3 then 0
    else if (|| (IsBetween(s[0], 0xE0, 0xE0) && IsBetween(s[1], 0xA0, 0xBF))
             || (IsBetween(s[0], 0xE1, 0xEC) && IsTail(s[1]))
             || (IsBetween(s[0], 0xED, 0xED) && IsBetween(s[1], 0x80, 0x9F))
             || (IsBetween(s[0], 0xEE, 0xEF) && IsTail(s[1])))
            && IsTail(s[2]) then 3
    else if |s| < 4 then 0
    else if (|| (IsBetween(s[0], 0xF0, 0xF0) && IsBetween(s[1], 0x90, 0xBF))
             || (IsBetween(s[0], 0xF1, 0xF3) && IsTail(s[1]))
             || (IsBetween(s[0], 0xF4, 0xF4) && IsBetween(s[1], 0x80, 0x8F)))
            && IsTail(s[2]) && IsTail(s[3]) then 4
    else 0
  }

  predicate ValidUtf8(s: Bytes) {
    s == [] || (CharLength(s) > 0 && ValidUtf8(s[CharLength(s)..]))
  }

  // ----- Parameters

  datatype Param = Param(key: Bytes, value: Bytes)

  /** A value and the text behind it. */
  datatype Taken = Taken(value: Bytes, rest: Bytes)

  /** A parameter and the text behind it, if there is one. */
  datatype Next = NoParam | First(param: Param, rest: Bytes)

  predicate IsSeparator(c: Byte) {
    c == ';' || c == ' ' || c == '\t'
  }

  function TrimSeparators(s: Bytes): (t: Bytes)
    ensures |t| <= |s|
  {
    if s != [] && IsSeparator(s[0]) then TrimSeparators(s[1..]) else s
  }

  /** A quoted value after its opening quote, and what follows its closing one. */
  function Unquote(s: Bytes): (t: Taken)
    ensures |t.rest| <= |s|
  {
    if s == [] then Taken([], [])
    else if s[0] == '\\' then
      if |s| == 1 then Taken([], [])
      else var t := Unquote(s[2..]); Taken([s[1]] + t.value, t.rest)
    else if s[0] == '"' then Taken([], s[1..])
    else var t := Unquote(s[1..]); Taken([s[0]] + t.value, t.rest)
  }

  /** A value, quoted or up to the next semicolon, and what follows it. */
  function TakeValue(text: Bytes): (t: Taken)
    ensures |t.rest| <= |text|
  {
    if text != [] && text[0] == '"' then Unquote(text[1..])
    else
      var end := match Find(text, ";", 0) case FoundAt(i) => i case Nowhere => |text|;
      Taken(Trim(text[..end]), text[end..])
  }

  /** The first parameter of text that starts with no separator, and what follows it. */
  function FirstParam(text: Bytes): (r: Next)
    ensures r.First? ==> |r.rest| < |text|
  {
    match Find(text, "=", 0)
    case Nowhere => NoParam
    case FoundAt(eq) =>
      var t := TakeValue(TrimStart(text[eq + 1..]));
      First(Param(Trim(text[..eq]), t.value), t.rest)
  }

  function Parameters(text: Bytes): seq<Param>
    decreases |text|
  {
    match FirstParam(TrimSeparators(text))
    case NoParam => []
    case First(param, rest) => [param] + Parameters(rest)
  }

  /** `value` and then what is left of `rest` come to the whole of `all`. */
  ghost predicate Unquotes(all: Taken, value: Bytes, rest: Bytes) {
    all == Taken(value + Unquote(rest).value, Unquote(rest).rest)
  }

  lemma UnquoteStep(all: Taken, value: Bytes, s: Bytes)
    requires s != [] && Unquotes(all, value, s)
    ensures s[0] == '\\' && |s| > 1 ==> Unquotes(all, value + [s[1]], s[2..])
    ensures s[0] == '\\' && |s| == 1 ==> all == Taken(value, [])
    ensures s[0] == '"' ==> all == Taken(value, s[1..])
    ensures s[0] != '\\' && s[0] != '"' ==> Unquotes(all, value + [s[0]], s[1..])
  {
    assert value + [] == value;
    assert |s| > 1 ==> value + ([s[1]] + Unquote(s[2..]).value) == (value + [s[1]]) + Unquote(s[2..]).value;
    assert value + ([s[0]] + Unquote(s[1..]).value) == (value + [s[0]]) + Unquote(s[1..]).value;
  }

  method ReadQuoted(quoted: Bytes) returns (value: Bytes, rest: Bytes)
    ensures Taken(value, rest) == Unquote(quoted)
  {
    value := [];
    var i := 0;
    ghost var all := Unquote(quoted);
    assert [] + all.value == all.value;
    while i < |quoted|
      invariant 0 <= i <= |quoted|
      invariant Unquotes(all, value, quoted[i..])
    {
      var c := quoted[i];
      UnquoteStep(all, value, quoted[i..]);
      if c == '\\' {
        i := i + 1;
        if i < |quoted| {
          value := value + [quoted[i]];
          i := i + 1;
        }
      } else if c == '"' {
        return value, quoted[i + 1..];
      } else {
        value := value + [c];
        i := i + 1;
      }
    }
    rest := [];
  }

  method ReadValue(text: Bytes) returns (value: Bytes, rest: Bytes)
    ensures Taken(value, rest) == TakeValue(text)
  {
    if text != [] && text[0] == '"' {
      value, rest := ReadQuoted(text[1..]);
    } else {
      var semicolon := Find(text, ";", 0);
      var end := if semicolon.FoundAt? then semicolon.index else |text|;
      value, rest := Trim(text[..end]), text[end..];
    }
  }

  method ReadParam(text: Bytes) returns (r: Next)
    ensures r == FirstParam(text)
  {
    var eq := Find(text, "=", 0);
    if eq.Nowhere? {
      return NoParam;
    }
    var key := Trim(text[..eq.index]);
    var value, rest := ReadValue(TrimStart(text[eq.index + 1..]));
    r := First(Param(key, value), rest);
  }

  /** What is left to read, after what was read. */
  function After(out: seq<Param>, first: Next): seq<Param> {
    match first
    case NoParam => out
    case First(param, rest) => (out + [param]) + Parameters(rest)
  }

  lemma AfterFirst(out: seq<Param>, first: Next, all: seq<Param>)
    requires first.NoParam? ==> all == []
    requires first.First? ==> all == [first.param] + Parameters(first.rest)
    ensures After(out, first) == out + all
  {
  }

  lemma ParametersStep(out: seq<Param>, text: Bytes)
    ensures After(out, FirstParam(TrimSeparators(text))) == out + Parameters(text)
  {
    AfterFirst(out, FirstParam(TrimSeparators(text)), Parameters(text));
  }

  method ReadParameters(text: Bytes) returns (out: seq<Param>)
    ensures out == Parameters(text)
  {
    out := [];
    var rest := text;
    while true
      invariant out + Parameters(rest) == Parameters(text)
      decreases |rest|
    {
      ghost var before := rest;
      rest := TrimSeparators(rest);
      if rest == [] {
        ParametersStep(out, before);
        return;
      }
      var first := ReadParam(rest);
      ParametersStep(out, before);
      if first.NoParam? {
        return;
      }
      out := out + [first.param];
      rest := first.rest;
    }
  }

  // ----- One part

  datatype Fields = Fields(name: Option<Bytes>, filename: Option<Bytes>, contentType: Option<Bytes>)

  const NO_FIELDS := Fields(None, None, None)

  function TakeParam(f: Fields, p: Param): Fields {
    if EqIgnoreCase(p.key, "name") then f.(name := Some(p.value))
    else if EqIgnoreCase(p.key, "filename") then f.(filename := Some(p.value))
    else f
  }

  function TakeParams(f: Fields, ps: seq<Param>): Fields
    decreases ps
  {
    if ps == [] then f else TakeParams(TakeParam(f, ps[0]), ps[1..])
  }

  /** The value of a Content-Disposition line. */
  function TakeDisposition(f: Fields, value: Bytes): Fields {
    if IsFormData(value) then TakeParams(f, Parameters(value[Find(value, ";", 0).index + 1..])) else f
  }

  function TakeLine(f: Fields, line: Bytes): Fields {
    match Find(line, ":", 0)
    case Nowhere => f
    case FoundAt(colon) =>
      var field, value := Trim(line[..colon]), line[colon + 1..];
      if EqIgnoreCase(field, "content-disposition") then TakeDisposition(f, value)
      else if EqIgnoreCase(field, "content-type") then f.(contentType := Some(Trim(value)))
      else f
  }

  function TakeLines(f: Fields, lines: seq<Bytes>): Fields
    decreases lines
  {
    if lines == [] then f else TakeLines(TakeLine(f, lines[0]), lines[1..])
  }

  /** `text` split at every CRLF. */
  function Lines(text: Bytes): (lines: seq<Bytes>)
    ensures lines != []
    decreases |text|
  {
    match Find(text, CRLF, 0)
    case Nowhere => [text]
    case FoundAt(i) => [text[..i]] + Lines(text[i + 2..])
  }

  function PartOf(index: nat, headers: Bytes, data: Bytes): Result<Part, MultipartError> {
    var f := TakeLines(NO_FIELDS, Lines(headers));
    match f.name
    case None => Err(NoName(index))
    case Some(name) => Ok(Part(name, f.filename, f.contentType, data))
  }

  method ReadParams(f: Fields, ps: seq<Param>) returns (f': Fields)
    ensures f' == TakeParams(f, ps)
  {
    var name, filename := f.name, f.filename;
    var k := 0;
    while k < |ps|
      invariant 0 <= k <= |ps|
      invariant TakeParams(f.(name := name, filename := filename), ps[k..]) == TakeParams(f, ps)
    {
      assert ps[k..][0] == ps[k] && ps[k..][1..] == ps[k + 1..];
      if EqIgnoreCase(ps[k].key, "name") {
        name := Some(ps[k].value);
      } else if EqIgnoreCase(ps[k].key, "filename") {
        filename := Some(ps[k].value);
      }
      k := k + 1;
    }
    f' := f.(name := name, filename := filename);
  }

  /** Whether the value of a Content-Disposition line is of the kind whose parameters count. */
  predicate IsFormData(value: Bytes) {
    match Find(value, ";", 0)
    case Nowhere => false
    case FoundAt(semicolon) => EqIgnoreCase(Trim(value[..semicolon]), "form-data")
  }

  method ReadDisposition(f: Fields, value: Bytes) returns (f': Fields)
    ensures f' == TakeDisposition(f, value)
  {
    if !IsFormData(value) {
      return f;
    }
    var semicolon := Find(value, ";", 0);
    var ps := ReadParameters(value[semicolon.index + 1..]);
    f' := ReadParams(f, ps);
  }

  method ReadLine(f: Fields, line: Bytes) returns (f': Fields)
    ensures f' == TakeLine(f, line)
  {
    var colon := Find(line, ":", 0);
    if colon == Nowhere {
      return f;
    }
    var field, value := Trim(line[..colon.index]), line[colon.index + 1..];
    if EqIgnoreCase(field, "content-disposition") {
      f' := ReadDisposition(f, value);
    } else if EqIgnoreCase(field, "content-type") {
      f' := f.(contentType := Some(Trim(value)));
    } else {
      f' := f;
    }
  }

  method ReadPart(index: nat, headers: Bytes, data: Bytes) returns (r: Result<Part, MultipartError>)
    ensures r == PartOf(index, headers, data)
  {
    var f := NO_FIELDS;
    var lines := Lines(headers);
    var i := 0;
    while i < |lines|
      invariant 0 <= i <= |lines|
      invariant TakeLines(f, lines[i..]) == TakeLines(NO_FIELDS, lines)
    {
      assert lines[i..][0] == lines[i] && lines[i..][1..] == lines[i + 1..];
      f := ReadLine(f, lines[i]);
      i := i + 1;
    }
    r := if f.name.Some? then Ok(Part(f.name.value, f.filename, f.contentType, data)) else Err(NoName(index));
  }

  // ----- The body

  function Opening(boundary: Bytes): Bytes {
    DASHES + boundary
  }

  function Between(boundary: Bytes): Bytes {
    CRLF + DASHES + boundary
  }

  function MarksOf(boundary: Bytes): (m: Marks)
    ensures m.AreProper()
  {
    Marks(DASHES, CRLF, BLANK, Between(boundary))
  }

  function ReadSegment(index: nat, headers: Bytes, data: Bytes): Result<Part, MultipartError> {
    if !ValidUtf8(headers) then Err(HeaderEncoding(index)) else PartOf(index, headers, data)
  }

  function ParseFrom(body: Bytes, boundary: Bytes, at: nat): Parsed
    requires at <= |body|
  {
    FindIsSearch();
    ReadScan(ReadSegment, ScanFrom(Find, body, MarksOf(boundary), at, 1), 1)
  }

  /** Where the first delimiter ends: at the body's start, or after a preamble. */
  function StartOf(body: Bytes, boundary: Bytes): (start: Found)
    ensures start.FoundAt? ==> start.index <= |body|
  {
    if Opening(boundary) <= body then FoundAt(|Opening(boundary)|)
    else
      match Find(body, Between(boundary), 0)
      case Nowhere => Nowhere
      case FoundAt(i) => FoundAt(i + |Between(boundary)|)
  }

  function Parse(body: Bytes, boundary: Bytes): Parsed {
    match StartOf(body, boundary)
    case Nowhere => Failed(NoOpening)
    case FoundAt(at) => ParseFrom(body, boundary, at)
  }

  method ReadBody(body: Bytes, boundary: Bytes) returns (r: Parsed)
    ensures r == Parse(body, boundary)
  {
    FindIsSearch();
    var opening, between := Opening(boundary), Between(boundary);
    var at;
    if opening <= body {
      at := |opening|;
    } else {
      var first := Find(body, between, 0);
      if first.Nowhere? {
        return Failed(NoOpening);
      }
      at := first.index + |between|;
    }
    r := ReadFrom(Find, ReadSegment, body, MarksOf(boundary), at);
  }

  // ----- The boundary parameter

  /** The first parameter of that name (whatever its case). */
  function Lookup(ps: seq<Param>, key: Bytes): Option<Bytes> {
    if ps == [] then None
    else if EqIgnoreCase(ps[0].key, key) then Some(ps[0].value)
    else Lookup(ps[1..], key)
  }

  /** The boundary a form's content type carries; none for other types, and none if it is empty. */
  function Boundary(contentType: Bytes): Option<Bytes> {
    match Find(contentType, ";", 0)
    case Nowhere => None
    case FoundAt(i) =>
      if !EqIgnoreCase(Trim(contentType[..i]), "multipart/form-data") then None
      else
        match Lookup(Parameters(contentType[i + 1..]), "boundary")
        case Some(b) => if b == [] then None else Some(b)
        case None => None
  }
}
