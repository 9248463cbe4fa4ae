/** Forms, printed part by part, and the parser undoing the printer (src/multipart.rs). */
module FormRoundTrips {
  import opened Wrappers
  import opened MultipartScans
  import opened Multiparts
  import opened MultipartForms
  import opened Texts

  const NAME: Bytes := "name"
  const FILENAME: Bytes := "filename"
  const DISPOSITION: Bytes := "Content-Disposition"
  const FORM_KIND: Bytes := " form-data"
  const CONTENT_TYPE: Bytes := "Content-Type"

  // ----- The printer

  function NameParam(name: Bytes): Param {
    Param(NAME, name)
  }

  function FilenameParam(filename: Bytes): Param {
    Param(FILENAME, filename)
  }

  function ParamsOf(p: Part): seq<Param> {
    match p.filename
    case None => [NameParam(p.name)]
    case Some(filename) => [NameParam(p.name), FilenameParam(filename)]
  }

  function DispositionLine(p: Part): Bytes {
    DISPOSITION + ":" + (FORM_KIND + ";" + (" " + PrintParams(ParamsOf(p))))
  }

  const LEAD: Bytes := DISPOSITION + ":" + FORM_KIND + "; "

  lemma DispositionText(p: Part)
    ensures DispositionLine(p) == LEAD + PrintParams(ParamsOf(p))
  {
  }

  function TypeLine(contentType: Bytes): Bytes {
    CONTENT_TYPE + ":" + (" " + contentType)
  }

  function Headers(p: Part): Bytes {
    match p.contentType
    case None => DispositionLine(p)
    case Some(contentType) => DispositionLine(p) + (CRLF + TypeLine(contentType))
  }

  predicate HoldsNoCrlf(s: Bytes) {
    forall i | 0 < i < |s| && s[i] == '\n' :: s[i - 1] != '\r'
  }

  /** Text without white space at its ends. */
  ghost predicate IsTrimmedText(s: Bytes) {
    exists cs: seq<nat> ::
      && AreScalars(cs) && Encode(cs) == s
      && (cs != [] ==> !IsWhite(cs[0]) && !IsWhite(cs[|cs| - 1]))
  }

  /** Any text can be printed as name and file name, and as content type any trimmed line. */
  ghost predicate IsPrintable(p: Part) {
    && IsText(p.name)
    && (p.filename.Some? ==> IsText(p.filename.value))
    && (p.contentType.Some? ==> IsTrimmedText(p.contentType.value) && HoldsNoCrlf(p.contentType.value))
  }

  /** Likewise, as the parser sees it. */
  predicate IsEncoded(p: Part) {
    && ValidUtf8(p.name)
    && (p.filename.Some? ==> ValidUtf8(p.filename.value))
    && (p.contentType.Some? ==>
          && ValidUtf8(p.contentType.value)
          && Trim(p.contentType.value) == p.contentType.value
          && HoldsNoCrlf(p.contentType.value))
  }

  lemma NoSpaceAround(cs: seq<nat>)
    requires AreScalars(cs) && (cs != [] ==> !IsWhite(cs[0]) && !IsWhite(cs[|cs| - 1]))
    ensures Trim(Encode(cs)) == Encode(cs)
  {
    TrimIsBetweenSpaces([], cs, []);
    assert Encode([]) + Encode(cs) + Encode([]) == Encode(cs);
  }

  lemma TrimmedIsTrimmed(s: Bytes)
    requires IsTrimmedText(s)
    ensures ValidUtf8(s) && Trim(s) == s
  {
    var cs: seq<nat> :| && AreScalars(cs) && Encode(cs) == s
                        && (cs != [] ==> !IsWhite(cs[0]) && !IsWhite(cs[|cs| - 1]));
    EncodedIsUtf8(cs);
    NoSpaceAround(cs);
  }

  lemma PrintableIsEncoded(p: Part)
    requires IsPrintable(p)
    ensures IsEncoded(p)
  {
    Utf8Iff(p.name);
    if p.filename.Some? {
      Utf8Iff(p.filename.value);
    }
    if p.contentType.Some? {
      TrimmedIsTrimmed(p.contentType.value);
    }
  }

  // ----- Lines of the headers

  /** Every LF of `s` follows a backslash, as in escaped values; so `s` can be joined to others
      without making up a CRLF. */
  predicate IsGuarded(s: Bytes) {
    forall i | 0 <= i < |s| && s[i] == '\n' :: i > 0 && s[i - 1] == '\\'
  }

  lemma GuardedJoins(a: Bytes, b: Bytes)
    requires IsGuarded(a) && IsGuarded(b)
    ensures IsGuarded(a + b)
  {
    var s := a + b;
    forall i | 0 <= i < |s| && s[i] == '\n'
      ensures i > 0 && s[i - 1] == '\\'
    {
      if i >= |a| {
        assert b[i - |a|] == '\n';
      }
    }
  }

  lemma {:induction false} EscapeIsGuarded(v: Bytes)
    ensures IsGuarded(Escape(v))
  {
    if v != [] {
      EscapeIsGuarded(v[1..]);
      GuardedJoins(if NeedsEscape(v[0]) then ['\\', v[0]] else [v[0]], Escape(v[1..]));
    }
  }

  lemma ParamIsGuarded(p: Param)
    requires IsGuarded(p.key)
    ensures IsGuarded(PrintParam(p))
  {
    EscapeIsGuarded(p.value);
    GuardedJoins(p.key, "=" + QUOTE);
    GuardedJoins(p.key + ("=" + QUOTE), Escape(p.value));
    GuardedJoins(p.key + ("=" + QUOTE) + Escape(p.value), QUOTE);
    assert PrintParam(p) == p.key + ("=" + QUOTE) + Escape(p.value) + QUOTE;
  }

  lemma {:induction false} ParamsAreGuarded(ps: seq<Param>)
    requires forall i | 0 <= i < |ps| :: IsGuarded(ps[i].key)
    ensures IsGuarded(PrintParams(ps))
  {
    if |ps| == 1 {
      ParamIsGuarded(ps[0]);
    } else if |ps| > 1 {
      ParamIsGuarded(ps[0]);
      ParamsAreGuarded(ps[1..]);
      GuardedJoins(PrintParam(ps[0]), "; ");
      GuardedJoins(PrintParam(ps[0]) + "; ", PrintParams(ps[1..]));
    }
  }

  lemma KeysAreGuarded()
    ensures IsGuarded(NAME) && IsGuarded(FILENAME)
    ensures IsGuarded(LEAD)
  {
  }

  lemma DispositionIsOneLine(p: Part)
    ensures HoldsNoCrlf(DispositionLine(p))
  {
    KeysAreGuarded();
    ParamsAreGuarded(ParamsOf(p));
    GuardedJoins(LEAD, PrintParams(ParamsOf(p)));
    DispositionText(p);
  }

  lemma TypeIsOneLine(contentType: Bytes)
    requires HoldsNoCrlf(contentType)
    ensures HoldsNoCrlf(TypeLine(contentType))
  {
    var line, k := TypeLine(contentType), |CONTENT_TYPE| + 2;
    assert line[k..] == contentType;
    assert forall i | 0 <= i < k :: line[i] != '\n';
  }

  /** Where CRLF is in a text: the positions of its two bytes. */
  lemma OccursCrlf(text: Bytes, i: nat)
    ensures OccursAt(text, CRLF, i) <==> i + 1 < |text| && text[i] == '\r' && text[i + 1] == '\n'
  {
    if i + 1 < |text| {
      assert text[i..i + 2] == [text[i], text[i + 1]];
    }
  }

  lemma BlankHasCrlf(text: Bytes, i: nat)
    ensures OccursAt(text, BLANK, i) ==>
              i + 4 <= |text| && text[i] == '\r' && text[i + 1] == '\n' && text[i + 2] == '\r'
  {
    if OccursAt(text, BLANK, i) {
      var s := text[i..i + 4];
      assert s[0] == text[i] && s[1] == text[i + 1] && s[2] == text[i + 2];
    }
  }

  /** A line is all that comes before the CRLF behind it. */
  lemma LineIsClear(line: Bytes)
    requires HoldsNoCrlf(line)
    ensures IsClear(line, CRLF)
  {
    forall i: nat | i < |line|
      ensures !OccursAt(line + CRLF, CRLF, i)
    {
      OccursCrlf(line + CRLF, i);
      assert i + 1 < |line| ==> (line + CRLF)[i + 1] == line[i + 1] && line[i + 1 - 1] == line[i];
      assert i + 1 == |line| ==> (line + CRLF)[i + 1] == '\r';
    }
  }

  lemma LineIsClearOfBlank(line: Bytes)
    requires HoldsNoCrlf(line)
    ensures IsClear(line, BLANK)
  {
    forall i: nat | i < |line|
      ensures !OccursAt(line + BLANK, BLANK, i)
    {
      var text := line + BLANK;
      BlankHasCrlf(text, i);
      assert i + 1 < |line| ==> text[i + 1] == line[i + 1] && line[i + 1 - 1] == text[i];
      assert i + 1 == |line| ==> text[i + 1] == '\r';
    }
  }

  lemma TwoLinesAreClearOfBlank(a: Bytes, b: Bytes)
    requires HoldsNoCrlf(a) && HoldsNoCrlf(b) && b != [] && b[0] != '\r' && b[0] != '\n'
    ensures IsClear(a + (CRLF + b), BLANK)
  {
    var x := a + (CRLF + b);
    var text := x + BLANK;
    var k := |a| + 2;
    assert forall i | 0 <= i < |a| :: text[i] == a[i];
    assert text[|a|] == '\r' && text[|a| + 1] == '\n' && text[k] == b[0];
    assert forall i | k <= i < |x| :: text[i] == b[i - k];
    assert text[|x|] == '\r';
    forall i: nat | i < |x|
      ensures !OccursAt(text, BLANK, i)
    {
      BlankHasCrlf(text, i);
      NoCrlfInLine(text, a, 0, i);
      NoCrlfInLine(text, b, k, i);
    }
  }

  lemma NoCrlfInLine(text: Bytes, line: Bytes, from: nat, i: nat)
    requires HoldsNoCrlf(line) && from + |line| <= |text|
    requires forall j | from <= j < from + |line| :: text[j] == line[j - from]
    ensures from <= i && i + 1 < from + |line| ==> !(text[i] == '\r' && text[i + 1] == '\n')
  {
    if from <= i && i + 1 < from + |line| {
      assert line[i + 1 - from - 1] == text[i];
    }
  }

  lemma HeadersAreClearOfBlank(p: Part)
    requires IsEncoded(p)
    ensures IsClear(Headers(p), BLANK)
  {
    DispositionIsOneLine(p);
    match p.contentType {
      case None =>
        LineIsClearOfBlank(DispositionLine(p));
      case Some(contentType) =>
        TypeIsOneLine(contentType);
        TwoLinesAreClearOfBlank(DispositionLine(p), TypeLine(contentType));
    }
  }

  // ----- Encoding of the headers

  lemma LiteralsAreAscii()
    ensures IsAscii(EQUALS_QUOTE) && IsAscii(QUOTE) && IsAscii(NAME) && IsAscii(FILENAME)
  {
  }

  lemma LiteralsAreUtf8()
    ensures ValidUtf8(EQUALS_QUOTE) && ValidUtf8(QUOTE) && ValidUtf8(NAME) && ValidUtf8(FILENAME)
  {
    LiteralsAreAscii();
    AsciiIsUtf8(EQUALS_QUOTE);
    AsciiIsUtf8(QUOTE);
    AsciiIsUtf8(NAME);
    AsciiIsUtf8(FILENAME);
  }

  lemma Utf8JoinsFour(a: Bytes, b: Bytes, c: Bytes, d: Bytes)
    requires ValidUtf8(a) && ValidUtf8(b) && ValidUtf8(c) && ValidUtf8(d)
    ensures ValidUtf8(a + b + c + d)
  {
    Utf8Joins(a, b);
    Utf8Joins(a + b, c);
    Utf8Joins(a + b + c, d);
  }

  const EQUALS_QUOTE: Bytes := "=\""

  lemma ParamInFour(p: Param)
    ensures PrintParam(p) == p.key + EQUALS_QUOTE + Escape(p.value) + QUOTE
  {
    assert EQUALS_QUOTE == "=" + QUOTE;
  }

  lemma ParamIsUtf8(p: Param)
    requires ValidUtf8(p.key) && ValidUtf8(p.value)
    ensures ValidUtf8(PrintParam(p))
  {
    LiteralsAreUtf8();
    EscapeIsUtf8(p.value);
    Utf8JoinsFour(p.key, EQUALS_QUOTE, Escape(p.value), QUOTE);
    ParamInFour(p);
  }

  predicate IsUtf8(p: Param) {
    ValidUtf8(p.key) && ValidUtf8(p.value)
  }

  lemma {:induction false} ParamsAreUtf8(ps: seq<Param>)
    requires forall i | 0 <= i < |ps| :: IsUtf8(ps[i])
    ensures ValidUtf8(PrintParams(ps))
  {
    if |ps| == 1 {
      ParamIsUtf8(ps[0]);
    } else if |ps| > 1 {
      ParamIsUtf8(ps[0]);
      ParamsAreUtf8(ps[1..]);
      AsciiIsUtf8("; ");
      Utf8Joins(PrintParam(ps[0]), "; ");
      Utf8Joins(PrintParam(ps[0]) + "; ", PrintParams(ps[1..]));
    }
  }

  lemma DispositionIsAscii()
    ensures IsAscii(DISPOSITION) && IsAscii(CONTENT_TYPE) && IsAscii(FORM_KIND)
  {
  }

  lemma LeadIsAscii()
    ensures IsAscii(LEAD)
  {
    DispositionIsAscii();
    AsciiJoins(DISPOSITION, ":");
    AsciiJoins(DISPOSITION + ":", FORM_KIND);
    AsciiJoins(DISPOSITION + ":" + FORM_KIND, "; ");
  }

  lemma LeadIsUtf8()
    ensures ValidUtf8(LEAD)
  {
    LeadIsAscii();
    AsciiIsUtf8(LEAD);
  }

  lemma NamesAreUtf8(name: Bytes, filename: Bytes)
    ensures ValidUtf8(name) ==> IsUtf8(NameParam(name))
    ensures ValidUtf8(filename) ==> IsUtf8(FilenameParam(filename))
  {
    LiteralsAreUtf8();
  }

  lemma ParamsOfAreUtf8(p: Part)
    requires IsEncoded(p)
    ensures ValidUtf8(PrintParams(ParamsOf(p)))
  {
    var ps := ParamsOf(p);
    NamesAreUtf8(p.name, if p.filename.Some? then p.filename.value else []);
    forall i | 0 <= i < |ps|
      ensures IsUtf8(ps[i])
    {
      if i == 0 {
        assert ps[i] == NameParam(p.name);
      } else {
        assert ps[i] == FilenameParam(p.filename.value);
      }
    }
    ParamsAreUtf8(ps);
  }

  lemma DispositionIsUtf8(p: Part)
    requires IsEncoded(p)
    ensures ValidUtf8(DispositionLine(p))
  {
    LeadIsUtf8();
    ParamsOfAreUtf8(p);
    Utf8Joins(LEAD, PrintParams(ParamsOf(p)));
    DispositionText(p);
  }

  const TYPE_LEAD: Bytes := CRLF + CONTENT_TYPE + ": "

  lemma TypeLeadIsAscii()
    ensures IsAscii(TYPE_LEAD)
  {
    DispositionIsAscii();
    AsciiJoins(CRLF, CONTENT_TYPE);
    AsciiJoins(CRLF + CONTENT_TYPE, ": ");
  }

  lemma TypeText(contentType: Bytes)
    ensures CRLF + TypeLine(contentType) == TYPE_LEAD + contentType
  {
  }

  lemma TypeIsUtf8(contentType: Bytes)
    requires ValidUtf8(contentType)
    ensures ValidUtf8(CRLF + TypeLine(contentType))
  {
    TypeLeadIsAscii();
    AsciiIsUtf8(TYPE_LEAD);
    Utf8Joins(TYPE_LEAD, contentType);
    TypeText(contentType);
  }

  lemma HeadersAreUtf8(p: Part)
    requires IsEncoded(p)
    ensures ValidUtf8(Headers(p))
  {
    DispositionIsUtf8(p);
    if p.contentType.Some? {
      TypeIsUtf8(p.contentType.value);
      Utf8Joins(DispositionLine(p), CRLF + TypeLine(p.contentType.value));
    }
  }

  // ----- Reading the headers back

  /** A text is cut at the first `c` of it. */
  lemma CutsAt(a: Bytes, c: Byte, b: Bytes)
    requires c !in a
    ensures var text := a + [c] + b;
            && Find(text, [c], 0) == FoundAt(|a|)
            && text[..|a|] == a && text[|a| + 1..] == b
  {
    var text := a + [c] + b;
    assert forall j | 0 <= j < |a| :: text[j] == a[j];
    FindByte(text, c, 0, |a|);
  }

  lemma DispositionIsTrimmed()
    ensures Trim(DISPOSITION) == DISPOSITION && ':' !in DISPOSITION
  {
    PlainIsTrimmed(DISPOSITION);
  }

  lemma ContentTypeIsTrimmed()
    ensures Trim(CONTENT_TYPE) == CONTENT_TYPE && ':' !in CONTENT_TYPE
  {
    PlainIsTrimmed(CONTENT_TYPE);
  }

  lemma SpaceIsTrimmed(s: Bytes)
    ensures Trim(" " + s) == Trim(s)
  {
    assert (" " + s)[1..] == s;
  }

  lemma KindIsTrimmed()
    ensures Trim(FORM_KIND) == "form-data" && ';' !in FORM_KIND
  {
    assert FORM_KIND == " " + "form-data";
    SpaceIsTrimmed("form-data");
    PlainIsTrimmed("form-data");
  }

  lemma NameIsKey()
    ensures IsKey(NAME)
  {
    PlainIsTrimmed(NAME);
  }

  lemma FilenameIsKey()
    ensures IsKey(FILENAME)
  {
    PlainIsTrimmed(FILENAME);
  }

  lemma TakesDispositionAt(f: Fields, value: Bytes, k: nat, ps: seq<Param>)
    requires Find(value, ";", 0) == FoundAt(k)
    requires EqIgnoreCase(Trim(value[..k]), "form-data")
    requires Parameters(value[k + 1..]) == ps
    ensures TakeDisposition(f, value) == TakeParams(f, ps)
  {
  }

  lemma TakesOneParam(f: Fields, p: Param)
    ensures TakeParams(f, [p]) == TakeParam(f, p)
  {
  }

  lemma TakesTwoParams(f: Fields, p: Param, q: Param)
    ensures TakeParams(f, [p, q]) == TakeParam(TakeParam(f, p), q)
  {
    assert [p, q][1..] == [q];
    TakesOneParam(TakeParam(f, p), q);
  }

  lemma TakesNames(f: Fields, name: Bytes, filename: Bytes)
    ensures TakeParam(f, NameParam(name)) == f.(name := Some(name))
    ensures TakeParam(f, FilenameParam(filename)) == f.(filename := Some(filename))
  {
  }

  lemma TakesParamsOf(p: Part)
    ensures TakeParams(NO_FIELDS, ParamsOf(p)) == Fields(Some(p.name), p.filename, None)
  {
    match p.filename {
      case None =>
        TakesNames(NO_FIELDS, p.name, []);
        TakesOneParam(NO_FIELDS, NameParam(p.name));
      case Some(filename) =>
        TakesNames(NO_FIELDS, p.name, []);
        TakesNames(TakeParam(NO_FIELDS, NameParam(p.name)), p.name, filename);
        TakesTwoParams(NO_FIELDS, NameParam(p.name), FilenameParam(filename));
    }
  }

  lemma ReadsParamsOf(p: Part)
    ensures Parameters(" " + PrintParams(ParamsOf(p))) == ParamsOf(p)
  {
    NameIsKey();
    FilenameIsKey();
    ParametersUndoPrinting(" ", ParamsOf(p));
  }

  lemma TakesDisposition(p: Part, params: Bytes, value: Bytes)
    requires params == " " + PrintParams(ParamsOf(p)) && value == FORM_KIND + [';'] + params
    ensures TakeDisposition(NO_FIELDS, value) == Fields(Some(p.name), p.filename, None)
  {
    KindIsTrimmed();
    CutsAt(FORM_KIND, ';', params);
    ReadsParamsOf(p);
    TakesDispositionAt(NO_FIELDS, value, |FORM_KIND|, ParamsOf(p));
    TakesParamsOf(p);
  }

  lemma TakesLineAt(f: Fields, line: Bytes, k: nat, field: Bytes, value: Bytes)
    requires Find(line, ":", 0) == FoundAt(k)
    requires Trim(line[..k]) == field && line[k + 1..] == value
    ensures EqIgnoreCase(field, "content-disposition") ==> TakeLine(f, line) == TakeDisposition(f, value)
    ensures !EqIgnoreCase(field, "content-disposition") && EqIgnoreCase(field, "content-type") ==>
              TakeLine(f, line) == f.(contentType := Some(Trim(value)))
  {
  }

  lemma FieldNames()
    ensures EqIgnoreCase(DISPOSITION, "content-disposition")
    ensures !EqIgnoreCase(CONTENT_TYPE, "content-disposition") && EqIgnoreCase(CONTENT_TYPE, "content-type")
  {
  }

  lemma DispositionParts(p: Part, params: Bytes, value: Bytes)
    requires params == " " + PrintParams(ParamsOf(p)) && value == FORM_KIND + [';'] + params
    ensures DispositionLine(p) == DISPOSITION + [':'] + value
  {
  }

  lemma ReadsDispositionLine(p: Part)
    ensures TakeLine(NO_FIELDS, DispositionLine(p)) == Fields(Some(p.name), p.filename, None)
  {
    var params := " " + PrintParams(ParamsOf(p));
    var value := FORM_KIND + [';'] + params;
    DispositionIsTrimmed();
    FieldNames();
    DispositionParts(p, params, value);
    CutsAt(DISPOSITION, ':', value);
    TakesLineAt(NO_FIELDS, DispositionLine(p), |DISPOSITION|, DISPOSITION, value);
    TakesDisposition(p, params, value);
  }

  lemma ReadsTypeLine(f: Fields, contentType: Bytes)
    requires Trim(contentType) == contentType
    ensures TakeLine(f, TypeLine(contentType)) == f.(contentType := Some(contentType))
  {
    ContentTypeIsTrimmed();
    FieldNames();
    CutsAt(CONTENT_TYPE, ':', " " + contentType);
    TakesLineAt(f, TypeLine(contentType), |CONTENT_TYPE|, CONTENT_TYPE, " " + contentType);
    SpaceIsTrimmed(contentType);
  }

  lemma NoOccurrenceNoFind(text: Bytes)
    requires HoldsNoCrlf(text)
    ensures Find(text, CRLF, 0) == Nowhere
  {
    forall i: nat
      ensures !OccursAt(text, CRLF, i)
    {
      OccursCrlf(text, i);
      assert i + 1 < |text| && text[i + 1] == '\n' ==> text[i + 1 - 1] != '\r';
    }
    FindIsFirst(text, CRLF, 0);
  }

  lemma OneLine(line: Bytes)
    requires HoldsNoCrlf(line)
    ensures Lines(line) == [line]
  {
    NoOccurrenceNoFind(line);
  }

  lemma TwoLines(a: Bytes, b: Bytes)
    requires HoldsNoCrlf(a) && HoldsNoCrlf(b)
    ensures Lines(a + (CRLF + b)) == [a, b]
  {
    var text := a + (CRLF + b);
    LineIsClear(a);
    FindIsSearch();
    assert text[0..|a| + 2] == a + CRLF;
    FindsEnd(Find, text, a, CRLF, 0);
    assert text[..|a|] == a && text[|a| + 2..] == b;
    OneLine(b);
  }

  lemma ReadsHeaders(p: Part)
    requires IsEncoded(p)
    ensures TakeLines(NO_FIELDS, Lines(Headers(p))) == Fields(Some(p.name), p.filename, p.contentType)
  {
    var line := DispositionLine(p);
    var f := Fields(Some(p.name), p.filename, None);
    DispositionIsOneLine(p);
    ReadsDispositionLine(p);
    match p.contentType {
      case None =>
        OneLine(line);
        TakesOneLine(NO_FIELDS, line);
      case Some(contentType) =>
        TypeIsOneLine(contentType);
        ReadsTypeLine(f, contentType);
        TwoLines(line, TypeLine(contentType));
        TakesTwoLines(NO_FIELDS, line, TypeLine(contentType));
    }
  }

  lemma TakesOneLine(f: Fields, a: Bytes)
    ensures TakeLines(f, [a]) == TakeLine(f, a)
  {
  }

  lemma TakesTwoLines(f: Fields, a: Bytes, b: Bytes)
    ensures TakeLines(f, [a, b]) == TakeLine(TakeLine(f, a), b)
  {
    assert [a, b][1..] == [b];
    TakesOneLine(TakeLine(f, a), b);
  }

  /** A part's printed headers read as the part. */
  lemma ReadsPart(index: nat, p: Part)
    requires IsPrintable(p)
    ensures ReadSegment(index, Headers(p), p.data) == Ok(p)
  {
    PrintableIsEncoded(p);
    HeadersAreUtf8(p);
    ReadsHeaders(p);
  }

  // ----- Whole forms

  /** A part and the transport padding behind the delimiter before it. */
  datatype Printed = Printed(pad: Bytes, part: Part)

  function SegmentOf(p: Printed): Segment {
    Segment(p.pad, Headers(p.part), p.part.data)
  }

  function SegmentsOf(ps: seq<Printed>): (segs: seq<Segment>)
    ensures |segs| == |ps|
  {
    if ps == [] then [] else [SegmentOf(ps[0])] + SegmentsOf(ps[1..])
  }

  function PartsIn(ps: seq<Printed>): seq<Part> {
    if ps == [] then [] else [ps[0].part] + PartsIn(ps[1..])
  }

  /** All of a form behind its first delimiter. */
  function Form(ps: seq<Printed>, boundary: Bytes, epilogue: Bytes): Bytes {
    Rebuild(SegmentsOf(ps), MarksOf(boundary), DASHES + epilogue)
  }

  /** A body: nothing or a preamble, the first delimiter, and the rest of the form. */
  function Body(preamble: Option<Bytes>, form: Bytes, boundary: Bytes): Bytes {
    match preamble
    case None => Opening(boundary) + form
    case Some(before) => before + Between(boundary) + form
  }

  /** Where in the body the form starts. */
  function Start(preamble: Option<Bytes>, boundary: Bytes): nat {
    match preamble
    case None => |Opening(boundary)|
    case Some(before) => |before| + |Between(boundary)|
  }

  ghost predicate HoldsNoDelimiter(s: Bytes, boundary: Bytes) {
    forall i: nat :: !OccursAt(s, Between(boundary), i)
  }

  /** A preamble holds no delimiter and does not open the body itself. */
  ghost predicate IsPreamble(before: Bytes, boundary: Bytes) {
    HoldsNoDelimiter(before, boundary) && !(Opening(boundary) <= before)
  }

  /** Padding ends at its line's end and does not look like the closing delimiter. */
  ghost predicate IsPad(pad: Bytes) {
    !(DASHES <= pad) && forall i: nat :: !OccursAt(pad, CRLF, i)
  }

  ghost predicate ArePrintable(ps: seq<Printed>) {
    forall i | 0 <= i < |ps| :: IsPad(ps[i].pad) && IsPrintable(ps[i].part)
  }

  ghost predicate DataHoldsNoDelimiter(ps: seq<Printed>, boundary: Bytes) {
    forall i | 0 <= i < |ps| :: HoldsNoDelimiter(ps[i].part.data, boundary)
  }

  lemma PrintedIsSegment(p: Printed, boundary: Bytes)
    requires '\r' !in boundary && IsPad(p.pad) && IsPrintable(p.part)
    ensures IsSegment(SegmentOf(p), MarksOf(boundary)) <==> HoldsNoDelimiter(p.part.data, boundary)
  {
    PrintableIsEncoded(p.part);
    ClearOfCrlfIff(p.pad);
    HeadersAreClearOfBlank(p.part);
    ClearOfDelimiterIff(p.part.data, boundary);
  }

  lemma {:induction false} SegmentsAt(ps: seq<Printed>, i: nat)
    requires i < |ps|
    ensures SegmentsOf(ps)[i] == SegmentOf(ps[i])
  {
    if i > 0 {
      SegmentsAt(ps[1..], i - 1);
    }
  }

  lemma PrintedAreSegments(ps: seq<Printed>, boundary: Bytes)
    requires '\r' !in boundary && ArePrintable(ps) && DataHoldsNoDelimiter(ps, boundary)
    ensures AreSegments(SegmentsOf(ps), MarksOf(boundary))
  {
    var segs := SegmentsOf(ps);
    forall s | s in segs
      ensures IsSegment(s, MarksOf(boundary))
    {
      var i :| 0 <= i < |segs| && segs[i] == s;
      SegmentsAt(ps, i);
      PrintedIsSegment(ps[i], boundary);
    }
  }

  lemma {:induction false} ReadsSegments(ps: seq<Printed>, index: nat)
    requires ArePrintable(ps)
    ensures ReadScan(ReadSegment, ScanOf(SegmentsOf(ps)), index) == Parts(PartsIn(ps))
  {
    if ps != [] {
      ReadsPart(index, ps[0].part);
      ReadsSegments(ps[1..], index + 1);
      assert SegmentsOf(ps)[1..] == SegmentsOf(ps[1..]);
    }
  }

  lemma ReadsForm(body: Bytes, at: nat, ps: seq<Printed>, boundary: Bytes, epilogue: Bytes)
    requires '\r' !in boundary && ArePrintable(ps) && DataHoldsNoDelimiter(ps, boundary)
    requires at <= |body| && body[at..] == Form(ps, boundary, epilogue)
    ensures ParseFrom(body, boundary, at) == Parts(PartsIn(ps))
  {
    FindIsSearch();
    PrintedAreSegments(ps, boundary);
    ReadsSegments(ps, 1);
    ScanSeesSegments(Find, body, at, SegmentsOf(ps), MarksOf(boundary), DASHES + epilogue, 1);
  }

  /** A preamble's line break is not in the opening. */
  lemma DoesNotOpen(before: Bytes, boundary: Bytes, rest: Bytes)
    requires '\r' !in boundary && !(Opening(boundary) <= before)
    ensures !(Opening(boundary) <= before + Between(boundary) + rest)
  {
    var body, opening := before + Between(boundary) + rest, Opening(boundary);
    if |opening| <= |before| {
      assert body[..|opening|] == before[..|opening|];
    } else {
      assert body[|before|] == '\r';
      assert opening[|before|] != '\r';
    }
  }

  lemma StartsAt(preamble: Option<Bytes>, form: Bytes, boundary: Bytes)
    ensures var body, at := Body(preamble, form, boundary), Start(preamble, boundary);
            at <= |body| && body[at..] == form
  {
  }

  lemma FindsDelimiter(before: Bytes, form: Bytes, boundary: Bytes)
    requires '\r' !in boundary && IsPreamble(before, boundary)
    ensures Find(before + Between(boundary) + form, Between(boundary), 0) == FoundAt(|before|)
  {
    var between := Between(boundary);
    var body := before + between + form;
    ClearOfDelimiterIff(before, boundary);
    FindIsSearch();
    assert body[0..|before| + |between|] == before + between;
    FindsEnd(Find, body, before, between, 0);
  }

  lemma PreambleEnds(body: Bytes, before: Bytes, form: Bytes, boundary: Bytes)
    requires '\r' !in boundary && IsPreamble(before, boundary)
    requires body == before + Between(boundary) + form
    ensures !(Opening(boundary) <= body) && Find(body, Between(boundary), 0) == FoundAt(|before|)
  {
    DoesNotOpen(before, boundary, form);
    FindsDelimiter(before, form, boundary);
  }

  /** The parser starts where the form does. */
  lemma StartsAtForm(body: Bytes, preamble: Option<Bytes>, form: Bytes, boundary: Bytes)
    requires '\r' !in boundary && (preamble.Some? ==> IsPreamble(preamble.value, boundary))
    requires body == Body(preamble, form, boundary)
    ensures StartOf(body, boundary) == FoundAt(Start(preamble, boundary))
  {
    if preamble.Some? {
      PreambleEnds(body, preamble.value, form, boundary);
    }
  }

  // ----- No parsed part's data holds a delimiter

  lemma ReadKeepsData(index: nat, headers: Bytes, data: Bytes)
    ensures ReadSegment(index, headers, data).Ok? ==> ReadSegment(index, headers, data).value.data == data
  {
  }

  ghost predicate AreClear(parts: seq<Part>, needle: Bytes) {
    forall i | 0 <= i < |parts| :: IsClear(parts[i].data, needle)
  }

  lemma {:induction false} ReadDataIsClear(segs: seq<Segment>, index: nat, m: Marks, parts: seq<Part>)
    requires AreSegments(segs, m) && ReadScan(ReadSegment, ScanOf(segs), index) == Parts(parts)
    ensures AreClear(parts, m.between)
  {
    if segs != [] {
      assert IsSegment(segs[0], m);
      ReadKeepsData(index, segs[0].headers, segs[0].data);
      ReadDataIsClear(segs[1..], index + 1, m, parts[1..]);
      assert forall i | 1 <= i < |parts| :: parts[i] == parts[1..][i - 1];
    }
  }

  lemma ParsedDataIsClear(body: Bytes, boundary: Bytes, at: nat, parts: seq<Part>)
    requires at <= |body| && ParseFrom(body, boundary, at) == Parts(parts)
    ensures AreClear(parts, Between(boundary))
  {
    FindIsSearch();
    var m := MarksOf(boundary);
    ParsesIffRebuilt(Find, ReadSegment, body, m, at, 1, parts);
    var segs, tail :|
      && AreSegments(segs, m) && m.dashes <= tail
      && body[at..] == Rebuild(segs, m, tail)
      && ReadScan(ReadSegment, ScanOf(segs), 1) == Parts(parts);
    ReadDataIsClear(segs, 1, m, parts);
  }

  lemma {:induction false} PartsInAt(ps: seq<Printed>)
    ensures |PartsIn(ps)| == |ps| && forall i | 0 <= i < |ps| :: PartsIn(ps)[i] == ps[i].part
  {
    if ps != [] {
      PartsInAt(ps[1..]);
    }
  }

  lemma ClearPartsHoldNoDelimiter(ps: seq<Printed>, boundary: Bytes)
    requires '\r' !in boundary && AreClear(PartsIn(ps), Between(boundary))
    ensures DataHoldsNoDelimiter(ps, boundary)
  {
    PartsInAt(ps);
    forall i | 0 <= i < |ps|
      ensures HoldsNoDelimiter(ps[i].part.data, boundary)
    {
      assert IsClear(PartsIn(ps)[i].data, Between(boundary));
      ClearOfDelimiterIff(ps[i].part.data, boundary);
    }
  }

  // ----- What the parser accepts

  /** The body is an opening, at its start or behind a preamble that ends at the first delimiter,
      then segments, then a closing delimiter. */
  ghost predicate IsForm(body: Bytes, boundary: Bytes, preamble: Option<Bytes>, segs: seq<Segment>, tail: Bytes) {
    && AreSegments(segs, MarksOf(boundary)) && DASHES <= tail
    && body == Body(preamble, Rebuild(segs, MarksOf(boundary), tail), boundary)
    && (preamble.Some? ==> !(Opening(boundary) <= body) && IsClear(preamble.value, Between(boundary)))
  }

  /** Where the search finds the first delimiter, and what it finds before it. */
  lemma StartSplits(body: Bytes, boundary: Bytes) returns (preamble: Option<Bytes>)
    requires StartOf(body, boundary).FoundAt?
    ensures Start(preamble, boundary) == StartOf(body, boundary).index
    ensures body == Body(preamble, body[StartOf(body, boundary).index..], boundary)
    ensures preamble.Some? ==> !(Opening(boundary) <= body) && IsClear(preamble.value, Between(boundary))
  {
    var at := StartOf(body, boundary).index;
    if Opening(boundary) <= body {
      preamble := None;
    } else {
      var between := Between(boundary);
      FindIsSearch();
      FoundIsClear(Find, body, between, 0);
      var i := Find(body, between, 0).index;
      preamble := Some(body[0..i]);
      assert body == body[0..i + |between|] + body[at..];
    }
  }

  lemma FormStarts(body: Bytes, boundary: Bytes, preamble: Option<Bytes>, form: Bytes)
    requires body == Body(preamble, form, boundary)
    requires preamble.Some? ==> !(Opening(boundary) <= body) && IsClear(preamble.value, Between(boundary))
    ensures StartOf(body, boundary) == FoundAt(Start(preamble, boundary))
  {
    if preamble.Some? {
      var before, between := preamble.value, Between(boundary);
      FindIsSearch();
      assert body[0..0 + |before| + |between|] == before + between;
      FindsEnd(Find, body, before, between, 0);
    }
  }

  ghost predicate ReadsAs(segs: seq<Segment>, parts: seq<Part>) {
    ReadScan(ReadSegment, ScanOf(segs), 1) == Parts(parts)
  }

  lemma AcceptedIsForm(body: Bytes, boundary: Bytes, parts: seq<Part>)
    returns (preamble: Option<Bytes>, segs: seq<Segment>, tail: Bytes)
    requires Parse(body, boundary) == Parts(parts)
    ensures IsForm(body, boundary, preamble, segs, tail) && ReadsAs(segs, parts)
  {
    var at := StartOf(body, boundary).index;
    var m := MarksOf(boundary);
    FindIsSearch();
    preamble := StartSplits(body, boundary);
    ParsesIffRebuilt(Find, ReadSegment, body, m, at, 1, parts);
    segs, tail :| && AreSegments(segs, m) && m.dashes <= tail && body[at..] == Rebuild(segs, m, tail)
                  && ReadScan(ReadSegment, ScanOf(segs), 1) == Parts(parts);
  }

  lemma FormIsParsed(body: Bytes, at: nat, boundary: Bytes, segs: seq<Segment>, tail: Bytes, parts: seq<Part>)
    requires AreSegments(segs, MarksOf(boundary)) && DASHES <= tail && ReadsAs(segs, parts)
    requires at <= |body| && body[at..] == Rebuild(segs, MarksOf(boundary), tail)
    ensures ParseFrom(body, boundary, at) == Parts(parts)
  {
    FindIsSearch();
    ScanSeesSegments(Find, body, at, segs, MarksOf(boundary), tail, 1);
  }

  lemma ParsesFrom(body: Bytes, boundary: Bytes, at: nat)
    requires StartOf(body, boundary) == FoundAt(at)
    ensures Parse(body, boundary) == ParseFrom(body, boundary, at)
  {
  }

  lemma FormIsAccepted(body: Bytes, boundary: Bytes, parts: seq<Part>, preamble: Option<Bytes>, segs: seq<Segment>,
                       tail: Bytes)
    requires IsForm(body, boundary, preamble, segs, tail) && ReadsAs(segs, parts)
    ensures Parse(body, boundary) == Parts(parts)
  {
    var form := Rebuild(segs, MarksOf(boundary), tail);
    FormStarts(body, boundary, preamble, form);
    StartsAt(preamble, form, boundary);
    FormIsParsed(body, Start(preamble, boundary), boundary, segs, tail, parts);
    ParsesFrom(body, boundary, Start(preamble, boundary));
  }

  /** For every body and every boundary: parsing gives these parts if and only if the body is a form
      whose segments read as them. */
  lemma ParsesIffForm(body: Bytes, boundary: Bytes, parts: seq<Part>)
    ensures Parse(body, boundary) == Parts(parts) <==>
              exists preamble, segs, tail :: IsForm(body, boundary, preamble, segs, tail) && ReadsAs(segs, parts)
  {
    if Parse(body, boundary) == Parts(parts) {
      var preamble, segs, tail := AcceptedIsForm(body, boundary, parts);
    }
    if preamble, segs, tail :| IsForm(body, boundary, preamble, segs, tail) && ReadsAs(segs, parts) {
      FormIsAccepted(body, boundary, parts, preamble, segs, tail);
    }
  }

  // ----- The round trip

  /** Parsing undoes printing, whatever the preamble, the paddings and the epilogue: it gives
      exactly the printed parts in order if and only if no part's data holds the delimiter. */
  lemma FormsRoundTripIff(body: Bytes, preamble: Option<Bytes>, ps: seq<Printed>, boundary: Bytes,
                          epilogue: Bytes)
    requires '\r' !in boundary && (preamble.Some? ==> IsPreamble(preamble.value, boundary))
    requires ArePrintable(ps)
    requires body == Body(preamble, Form(ps, boundary, epilogue), boundary)
    ensures Parse(body, boundary) == Parts(PartsIn(ps)) <==> DataHoldsNoDelimiter(ps, boundary)
  {
    var form, at := Form(ps, boundary, epilogue), Start(preamble, boundary);
    StartsAt(preamble, form, boundary);
    StartsAtForm(body, preamble, form, boundary);
    if DataHoldsNoDelimiter(ps, boundary) {
      ReadsForm(body, at, ps, boundary, epilogue);
    }
    if ParseFrom(body, boundary, at) == Parts(PartsIn(ps)) {
      ParsedDataIsClear(body, boundary, at, PartsIn(ps));
      ClearPartsHoldNoDelimiter(ps, boundary);
    }
  }
}
