/** What the headers of one part of a form say (src/multipart.rs): for its name, file name and content
    type, the last line that says so. */
module PartHeaders {
  import opened Wrappers
  import opened MultipartScans
  import opened Multiparts
  import opened MultipartForms
  import opened Texts

  ghost predicate HoldsNone(text: Bytes, needle: Bytes) {
    forall i: nat :: !OccursAt(text, needle, i)
  }

  // ----- Lines

  function Join(lines: seq<Bytes>): Bytes
    requires lines != []
  {
    if |lines| == 1 then lines[0] else lines[0] + CRLF + Join(lines[1..])
  }

  lemma NoneFound(text: Bytes, needle: Bytes)
    requires needle != []
    ensures Find(text, needle, 0).Nowhere? <==> HoldsNone(text, needle)
  {
    FindIsFirst(text, needle, 0);
    assert FindsFirst(Find, text, needle, 0);
  }

  lemma NoneInPrefix(text: Bytes, i: nat)
    requires i <= |text| && forall j: nat | j < i :: !OccursAt(text, CRLF, j)
    ensures HoldsNone(text[..i], CRLF)
  {
    assert text[0..i] == text[..i];
    forall j: nat
      ensures !OccursAt(text[..i], CRLF, j)
    {
      if j + 2 <= i {
        SliceOccurs(text, CRLF, 0, i, j);
      }
    }
  }

  lemma Around(text: Bytes, i: nat)
    requires OccursAt(text, CRLF, i)
    ensures text == text[..i] + CRLF + text[i + 2..]
  {
    assert text[i..i + 2] == CRLF;
  }

  lemma BeforeFirst(text: Bytes, i: nat)
    requires Find(text, CRLF, 0) == FoundAt(i)
    ensures HoldsNone(text[..i], CRLF) && text == text[..i] + CRLF + text[i + 2..]
  {
    FindIsFirst(text, CRLF, 0);
    assert FindsFirst(Find, text, CRLF, 0);
    NoneInPrefix(text, i);
    Around(text, i);
  }

  /** The lines are what CRLFs part the text into. */
  lemma {:induction false} LinesAreParted(text: Bytes)
    ensures Join(Lines(text)) == text
    ensures forall k | 0 <= k < |Lines(text)| :: HoldsNone(Lines(text)[k], CRLF)
    decreases |text|
  {
    NoneFound(text, CRLF);
    match Find(text, CRLF, 0) {
      case Nowhere =>
      case FoundAt(i) =>
        BeforeFirst(text, i);
        LinesAreParted(text[i + 2..]);
        assert Lines(text)[1..] == Lines(text[i + 2..]);
    }
  }

  // ----- What a line says

  datatype Header = Name | Filename | Type

  /** `a` is what comes before the first `c`, `b` what comes after it. */
  ghost predicate IsCut(text: Bytes, c: Byte, a: Bytes, b: Bytes) {
    c !in a && text == a + [c] + b
  }

  predicate HasKey(ps: seq<Param>, key: Bytes) {
    exists k :: 0 <= k < |ps| && EqIgnoreCase(ps[k].key, key)
  }

  /** The last parameter of that name, whatever its case, has this value. */
  ghost predicate IsLastOf(ps: seq<Param>, key: Bytes, v: Bytes) {
    exists before, p, after ::
      ps == before + [p] + after && EqIgnoreCase(p.key, key) && p.value == v && !HasKey(after, key)
  }

  /** The value of a Content-Disposition line is of the form-data kind and its last such parameter has
      this value. */
  ghost predicate ValueGives(value: Bytes, key: Bytes, v: Bytes) {
    exists kind, params ::
      IsCut(value, ';', kind, params) && EqIgnoreCase(Trim(kind), "form-data") && IsLastOf(Parameters(params), key, v)
  }

  ghost predicate LineGives(line: Bytes, key: Bytes, v: Bytes) {
    exists field, value ::
      IsCut(line, ':', field, value) && EqIgnoreCase(Trim(field), "content-disposition") && ValueGives(value, key, v)
  }

  ghost predicate LineTypes(line: Bytes, v: Bytes) {
    exists field, value ::
      IsCut(line, ':', field, value) && EqIgnoreCase(Trim(field), "content-type") && v == Trim(value)
  }

  ghost predicate Says(line: Bytes, what: Header, v: Bytes) {
    match what
    case Name => LineGives(line, "name", v)
    case Filename => LineGives(line, "filename", v)
    case Type => LineTypes(line, v)
  }

  ghost predicate IsSilent(line: Bytes, what: Header) {
    forall v :: !Says(line, what, v)
  }

  function FieldOf(f: Fields, what: Header): Option<Bytes> {
    match what
    case Name => f.name
    case Filename => f.filename
    case Type => f.contentType
  }

  // ----- Parameters

  function KeyField(f: Fields, key: Bytes): Option<Bytes> {
    if key == "name" then f.name else f.filename
  }

  lemma {:induction false} LastOfKey(ps: seq<Param>, key: Bytes) returns (k: nat)
    requires HasKey(ps, key)
    ensures k < |ps| && EqIgnoreCase(ps[k].key, key)
    ensures forall j | k < j < |ps| :: !EqIgnoreCase(ps[j].key, key)
  {
    var n := |ps| - 1;
    if EqIgnoreCase(ps[n].key, key) {
      k := n;
    } else {
      var i :| 0 <= i < |ps| && EqIgnoreCase(ps[i].key, key);
      assert ps[..n][i] == ps[i];
      k := LastOfKey(ps[..n], key);
    }
  }

  lemma LastIsOne(ps: seq<Param>, key: Bytes, k: nat, v: Bytes)
    requires k < |ps| && EqIgnoreCase(ps[k].key, key)
    requires forall j | k < j < |ps| :: !EqIgnoreCase(ps[j].key, key)
    ensures IsLastOf(ps, key, v) <==> v == ps[k].value
  {
    if v == ps[k].value {
      assert ps == ps[..k] + [ps[k]] + ps[k + 1..];
      assert !HasKey(ps[k + 1..], key);
    }
    if before, p, after :|
      ps == before + [p] + after && EqIgnoreCase(p.key, key) && p.value == v && !HasKey(after, key)
    {
      assert ps[|before|] == p;
      assert forall j | |before| < j < |ps| :: ps[j] == after[j - |before| - 1];
    }
  }

  lemma NoneIsLast(ps: seq<Param>, key: Bytes, v: Bytes)
    requires !HasKey(ps, key)
    ensures !IsLastOf(ps, key, v)
  {
    forall before, p, after | ps == before + [p] + after
      ensures !EqIgnoreCase(p.key, key)
    {
      assert ps[|before|] == p;
    }
  }

  /** What the parameters make of a field: the last of its name, or what it was. */
  lemma ParamsGive(f: Fields, ps: seq<Param>, key: Bytes, v: Bytes)
    requires key == "name" || key == "filename"
    ensures KeyField(TakeParams(f, ps), key) == Some(v) <==>
              IsLastOf(ps, key, v) || (!HasKey(ps, key) && KeyField(f, key) == Some(v))
  {
    if HasKey(ps, key) {
      var k := LastOfKey(ps, key);
      LastIsOne(ps, key, k, v);
      LastNameCounts(f, ps, k, key);
    } else {
      NoneIsLast(ps, key, v);
      OthersKeep(f, ps, key);
    }
  }

  lemma {:induction false} ParamsKeepType(f: Fields, ps: seq<Param>)
    ensures TakeParams(f, ps).contentType == f.contentType
    decreases ps
  {
    if ps != [] {
      ParamsKeepType(TakeParam(f, ps[0]), ps[1..]);
    }
  }

  // ----- One line

  lemma PrefixHas(a: Bytes, b: Bytes, text: Bytes)
    requires text == a + b
    ensures forall i | 0 <= i < |a| :: text[i] in a
  {
    assert forall i | 0 <= i < |a| :: text[i] == a[i];
  }

  lemma CutIsOne(text: Bytes, c: Byte, a: Bytes, b: Bytes, a': Bytes, b': Bytes)
    requires IsCut(text, c, a, b) && IsCut(text, c, a', b')
    ensures a == a' && b == b'
  {
    assert text[|a|] == c && text[|a'|] == c;
    PrefixHas(a, [c] + b, text);
    PrefixHas(a', [c] + b', text);
    assert a == text[..|a|] && a' == text[..|a'|];
    assert b == text[|a| + 1..] && b' == text[|a'| + 1..];
  }

  lemma OccursByte(text: Bytes, c: Byte, i: nat)
    ensures OccursAt(text, [c], i) <==> i < |text| && text[i] == c
  {
  }

  lemma FindsByte(text: Bytes, c: Byte)
    ensures match Find(text, [c], 0)
            case FoundAt(i) => i < |text| && text[i] == c && c !in text[..i]
            case Nowhere => c !in text
  {
    FindIsFirst(text, [c], 0);
    assert FindsFirst(Find, text, [c], 0);
    forall i: nat
      ensures OccursAt(text, [c], i) <==> i < |text| && text[i] == c
    {
      OccursByte(text, c, i);
    }
  }

  lemma CutAt(text: Bytes, c: Byte, i: nat)
    requires i < |text| && text[i] == c && c !in text[..i]
    ensures IsCut(text, c, text[..i], text[i + 1..])
  {
    assert text == text[..i] + [c] + text[i + 1..];
  }

  /** The search cuts the text at the first such byte. */
  lemma FindCuts(text: Bytes, c: Byte)
    ensures match Find(text, [c], 0)
            case FoundAt(i) => i < |text| && IsCut(text, c, text[..i], text[i + 1..])
            case Nowhere => c !in text
  {
    FindsByte(text, c);
    match Find(text, [c], 0) {
      case FoundAt(i) => CutAt(text, c, i);
      case Nowhere =>
    }
  }

  lemma NoCut(text: Bytes, c: Byte, a: Bytes, b: Bytes)
    requires c !in text
    ensures !IsCut(text, c, a, b)
  {
    assert (a + [c] + b)[|a|] == c;
  }

  lemma ValueGivesIff(value: Bytes, kind: Bytes, params: Bytes, key: Bytes, v: Bytes)
    requires IsCut(value, ';', kind, params)
    ensures ValueGives(value, key, v) <==>
              EqIgnoreCase(Trim(kind), "form-data") && IsLastOf(Parameters(params), key, v)
  {
    if ValueGives(value, key, v) {
      var k, ps :|
        IsCut(value, ';', k, ps) && EqIgnoreCase(Trim(k), "form-data") && IsLastOf(Parameters(ps), key, v);
      CutIsOne(value, ';', kind, params, k, ps);
    }
  }

  ghost predicate ValueIsSilent(value: Bytes, key: Bytes) {
    forall v :: !ValueGives(value, key, v)
  }

  lemma SilentIff(value: Bytes, kind: Bytes, params: Bytes, key: Bytes)
    requires IsCut(value, ';', kind, params)
    ensures ValueIsSilent(value, key) <==>
              !(EqIgnoreCase(Trim(kind), "form-data") && HasKey(Parameters(params), key))
  {
    var ps := Parameters(params);
    if HasKey(ps, key) {
      var k := LastOfKey(ps, key);
      LastIsOne(ps, key, k, ps[k].value);
      ValueGivesIff(value, kind, params, key, ps[k].value);
    }
    forall v
      ensures ValueGives(value, key, v) ==> EqIgnoreCase(Trim(kind), "form-data") && HasKey(ps, key)
    {
      ValueGivesIff(value, kind, params, key, v);
      if !HasKey(ps, key) {
        NoneIsLast(ps, key, v);
      }
    }
  }

  lemma UncutIsSilent(value: Bytes, key: Bytes)
    requires ';' !in value
    ensures ValueIsSilent(value, key)
  {
    forall kind, params
      ensures !IsCut(value, ';', kind, params)
    {
      NoCut(value, ';', kind, params);
    }
  }

  /** What a Content-Disposition line makes of a field: what its value gives, or what it was. */
  lemma ValueTaken(f: Fields, value: Bytes, key: Bytes, v: Bytes)
    requires key == "name" || key == "filename"
    ensures KeyField(TakeDisposition(f, value), key) == Some(v) <==>
              ValueGives(value, key, v) || (ValueIsSilent(value, key) && KeyField(f, key) == Some(v))
    ensures TakeDisposition(f, value).contentType == f.contentType
  {
    FindCuts(value, ';');
    match Find(value, ";", 0) {
      case FoundAt(i) =>
        var kind, params := value[..i], value[i + 1..];
        ValueGivesIff(value, kind, params, key, v);
        SilentIff(value, kind, params, key);
        ParamsGive(f, Parameters(params), key, v);
        ParamsKeepType(f, Parameters(params));
      case Nowhere =>
        UncutIsSilent(value, key);
    }
  }

  /** A field after a line, by what it was before: what the line says, or unchanged if it says nothing. */
  ghost predicate IsTaken(before: Option<Bytes>, after: Option<Bytes>, line: Bytes, what: Header, v: Bytes) {
    after == Some(v) <==> Says(line, what, v) || (IsSilent(line, what) && before == Some(v))
  }

  lemma LineSaysIff(line: Bytes, field: Bytes, value: Bytes, key: Bytes, v: Bytes)
    requires IsCut(line, ':', field, value)
    ensures LineGives(line, key, v) <==> EqIgnoreCase(Trim(field), "content-disposition") && ValueGives(value, key, v)
    ensures LineTypes(line, v) <==> EqIgnoreCase(Trim(field), "content-type") && v == Trim(value)
  {
    if LineGives(line, key, v) {
      var a, b :|
        IsCut(line, ':', a, b) && EqIgnoreCase(Trim(a), "content-disposition") && ValueGives(b, key, v);
      CutIsOne(line, ':', field, value, a, b);
    }
    if LineTypes(line, v) {
      var a, b :| IsCut(line, ':', a, b) && EqIgnoreCase(Trim(a), "content-type") && v == Trim(b);
      CutIsOne(line, ':', field, value, a, b);
    }
  }

  lemma GivesNothingIff(line: Bytes, field: Bytes, value: Bytes, key: Bytes)
    requires IsCut(line, ':', field, value)
    ensures (forall v :: !LineGives(line, key, v)) <==>
              !EqIgnoreCase(Trim(field), "content-disposition") || ValueIsSilent(value, key)
  {
    forall v
      ensures LineGives(line, key, v) <==>
                EqIgnoreCase(Trim(field), "content-disposition") && ValueGives(value, key, v)
    {
      LineSaysIff(line, field, value, key, v);
    }
  }

  lemma TypesNothingIff(line: Bytes, field: Bytes, value: Bytes)
    requires IsCut(line, ':', field, value)
    ensures (forall v :: !LineTypes(line, v)) <==> !EqIgnoreCase(Trim(field), "content-type")
  {
    LineSaysIff(line, field, value, [], Trim(value));
    forall v
      ensures LineTypes(line, v) ==> EqIgnoreCase(Trim(field), "content-type")
    {
      LineSaysIff(line, field, value, [], v);
    }
  }

  lemma UncutLineIsSilent(line: Bytes, what: Header)
    requires ':' !in line
    ensures IsSilent(line, what)
  {
    forall field, value
      ensures !IsCut(line, ':', field, value)
    {
      NoCut(line, ':', field, value);
    }
  }

  lemma FieldsDiffer(field: Bytes)
    ensures !(EqIgnoreCase(field, "content-disposition") && EqIgnoreCase(field, "content-type"))
  {
  }

  lemma KeyTaken(f: Fields, line: Bytes, key: Bytes, v: Bytes)
    requires key == "name" || key == "filename"
    ensures KeyField(TakeLine(f, line), key) == Some(v) <==>
              LineGives(line, key, v) || ((forall w :: !LineGives(line, key, w)) && KeyField(f, key) == Some(v))
  {
    FindCuts(line, ':');
    match Find(line, ":", 0) {
      case FoundAt(i) =>
        LineSaysIff(line, line[..i], line[i + 1..], key, v);
        GivesNothingIff(line, line[..i], line[i + 1..], key);
        ValueTaken(f, line[i + 1..], key, v);
      case Nowhere =>
        UncutLineIsSilent(line, if key == "name" then Name else Filename);
    }
  }

  lemma TypeTaken(f: Fields, line: Bytes, v: Bytes)
    ensures TakeLine(f, line).contentType == Some(v) <==>
              LineTypes(line, v) || ((forall w :: !LineTypes(line, w)) && f.contentType == Some(v))
  {
    FindCuts(line, ':');
    match Find(line, ":", 0) {
      case FoundAt(i) =>
        LineSaysIff(line, line[..i], line[i + 1..], [], v);
        TypesNothingIff(line, line[..i], line[i + 1..]);
        FieldsDiffer(Trim(line[..i]));
        ValueTaken(f, line[i + 1..], "name", v);
      case Nowhere =>
        UncutLineIsSilent(line, Type);
    }
  }

  lemma SilentIs(line: Bytes)
    ensures IsSilent(line, Name) <==> forall v :: !LineGives(line, "name", v)
    ensures IsSilent(line, Filename) <==> forall v :: !LineGives(line, "filename", v)
    ensures IsSilent(line, Type) <==> forall v :: !LineTypes(line, v)
  {
    assert forall v :: Says(line, Name, v) <==> LineGives(line, "name", v);
    assert forall v :: Says(line, Filename, v) <==> LineGives(line, "filename", v);
    assert forall v :: Says(line, Type, v) <==> LineTypes(line, v);
  }

  lemma TakenIs(line: Bytes, what: Header, before: Option<Bytes>, after: Option<Bytes>, v: Bytes)
    requires after == Some(v) <==>
               match what
               case Name =>
                 LineGives(line, "name", v) || ((forall w :: !LineGives(line, "name", w)) && before == Some(v))
               case Filename =>
                 LineGives(line, "filename", v) || ((forall w :: !LineGives(line, "filename", w)) && before == Some(v))
               case Type => LineTypes(line, v) || ((forall w :: !LineTypes(line, w)) && before == Some(v))
    ensures IsTaken(before, after, line, what, v)
  {
    SilentIs(line);
  }

  lemma NameTaken(f: Fields, line: Bytes, v: Bytes)
    ensures IsTaken(f.name, TakeLine(f, line).name, line, Name, v)
  {
    KeyTaken(f, line, "name", v);
    TakenIs(line, Name, KeyField(f, "name"), KeyField(TakeLine(f, line), "name"), v);
  }

  lemma FilenameTaken(f: Fields, line: Bytes, v: Bytes)
    ensures IsTaken(f.filename, TakeLine(f, line).filename, line, Filename, v)
  {
    KeyTaken(f, line, "filename", v);
    TakenIs(line, Filename, KeyField(f, "filename"), KeyField(TakeLine(f, line), "filename"), v);
  }

  lemma LineTaken(f: Fields, line: Bytes, what: Header, v: Bytes)
    ensures IsTaken(FieldOf(f, what), FieldOf(TakeLine(f, line), what), line, what, v)
  {
    match what {
      case Name => NameTaken(f, line, v);
      case Filename => FilenameTaken(f, line, v);
      case Type =>
        TypeTaken(f, line, v);
        TakenIs(line, Type, f.contentType, TakeLine(f, line).contentType, v);
    }
  }

  // ----- All lines

  ghost predicate AreSilent(lines: seq<Bytes>, what: Header) {
    forall i | 0 <= i < |lines| :: IsSilent(lines[i], what)
  }

  /** The last line that says it says `v`. */
  ghost predicate LastSays(lines: seq<Bytes>, what: Header, v: Bytes) {
    exists i {:trigger lines[i]} :: 0 <= i < |lines| && Says(lines[i], what, v) && AreSilent(lines[i + 1..], what)
  }

  lemma SilentFirst(lines: seq<Bytes>, what: Header)
    requires lines != []
    ensures AreSilent(lines, what) <==> IsSilent(lines[0], what) && AreSilent(lines[1..], what)
  {
    assert forall i | 0 <= i < |lines| - 1 :: lines[1..][i] == lines[i + 1];
    assert forall i | 1 <= i < |lines| :: lines[i] == lines[1..][i - 1];
  }

  lemma LastSaysFirst(lines: seq<Bytes>, what: Header, v: Bytes)
    requires lines != []
    ensures LastSays(lines, what, v) <==>
              LastSays(lines[1..], what, v) || (Says(lines[0], what, v) && AreSilent(lines[1..], what))
  {
    var rest := lines[1..];
    assert forall i | 0 <= i < |rest| :: rest[i] == lines[i + 1] && rest[i + 1..] == lines[i + 2..];
    if i :| 0 <= i < |lines| && Says(lines[i], what, v) && AreSilent(lines[i + 1..], what) {
      if i > 0 {
        assert rest[i - 1] == lines[i] && rest[i..] == lines[i + 1..];
      }
    }
    if i :| 0 <= i < |rest| && Says(rest[i], what, v) && AreSilent(rest[i + 1..], what) {
      assert lines[i + 1] == rest[i];
    }
  }

  lemma {:induction false} LinesTaken(f: Fields, lines: seq<Bytes>, what: Header, v: Bytes)
    ensures FieldOf(TakeLines(f, lines), what) == Some(v) <==>
              LastSays(lines, what, v) || (AreSilent(lines, what) && FieldOf(f, what) == Some(v))
    decreases lines
  {
    if lines != [] {
      LineTaken(f, lines[0], what, v);
      LinesTaken(TakeLine(f, lines[0]), lines[1..], what, v);
      SilentFirst(lines, what);
      LastSaysFirst(lines, what, v);
    }
  }

  // ----- Parts

  /** The field holds exactly what the last line that says it says; nothing, if none does. */
  ghost predicate IsSaid(field: Option<Bytes>, lines: seq<Bytes>, what: Header) {
    && (field.None? <==> AreSilent(lines, what))
    && forall v :: field == Some(v) <==> LastSays(lines, what, v)
  }

  lemma {:induction false} LastIsNotSilent(lines: seq<Bytes>, what: Header)
    requires !AreSilent(lines, what)
    ensures exists v :: LastSays(lines, what, v)
  {
    SilentFirst(lines, what);
    if AreSilent(lines[1..], what) {
      var v :| Says(lines[0], what, v);
      LastSaysFirst(lines, what, v);
      assert LastSays(lines, what, v);
    } else {
      LastIsNotSilent(lines[1..], what);
      var v :| LastSays(lines[1..], what, v);
      LastSaysFirst(lines, what, v);
      assert LastSays(lines, what, v);
    }
  }

  lemma FieldsAreSaid(lines: seq<Bytes>, what: Header)
    ensures IsSaid(FieldOf(TakeLines(NO_FIELDS, lines), what), lines, what)
  {
    var field := FieldOf(TakeLines(NO_FIELDS, lines), what);
    forall v
      ensures field == Some(v) <==> LastSays(lines, what, v)
    {
      LinesTaken(NO_FIELDS, lines, what, v);
    }
    if !AreSilent(lines, what) {
      LastIsNotSilent(lines, what);
    } else if field.Some? {
      LastSaysSome(lines, what, field.value);
    }
  }

  lemma LastSaysSome(lines: seq<Bytes>, what: Header, v: Bytes)
    requires LastSays(lines, what, v)
    ensures !AreSilent(lines, what)
  {
    var i :| 0 <= i < |lines| && Says(lines[i], what, v) && AreSilent(lines[i + 1..], what);
    assert !IsSilent(lines[i], what);
  }

  /** What is read of a part: that its headers are no text; or that none of their lines names it; or
      its data, and name, file name and content type as the last lines that say them say. */
  lemma PartIsSaid(index: nat, headers: Bytes, data: Bytes)
    ensures var r, lines := ReadSegment(index, headers, data), Lines(headers);
            if !IsText(headers) then r == Err(HeaderEncoding(index))
            else if AreSilent(lines, Name) then r == Err(NoName(index))
            else
              && r.Ok? && r.value.data == data
              && IsSaid(Some(r.value.name), lines, Name)
              && IsSaid(r.value.filename, lines, Filename)
              && IsSaid(r.value.contentType, lines, Type)
  {
    Utf8Iff(headers);
    FieldsAreSaid(Lines(headers), Name);
    FieldsAreSaid(Lines(headers), Filename);
    FieldsAreSaid(Lines(headers), Type);
  }

  // ----- The boundary

  /** The first parameter of that name, whatever its case, has this value. */
  ghost predicate IsFirstOf(ps: seq<Param>, key: Bytes, v: Bytes) {
    exists k ::
      && 0 <= k < |ps| && EqIgnoreCase(ps[k].key, key) && ps[k].value == v
      && forall j | 0 <= j < k :: !EqIgnoreCase(ps[j].key, key)
  }

  lemma FirstOfRest(ps: seq<Param>, key: Bytes, v: Bytes)
    requires ps != [] && !EqIgnoreCase(ps[0].key, key)
    ensures IsFirstOf(ps, key, v) <==> IsFirstOf(ps[1..], key, v)
  {
    var rest := ps[1..];
    assert forall j | 0 <= j < |rest| :: rest[j] == ps[j + 1];
    if k :|
      && 0 <= k < |ps| && EqIgnoreCase(ps[k].key, key) && ps[k].value == v
      && forall j | 0 <= j < k :: !EqIgnoreCase(ps[j].key, key)
    {
      assert rest[k - 1] == ps[k];
    }
  }

  lemma {:induction false} LooksUpFirst(ps: seq<Param>, key: Bytes, v: Bytes)
    ensures Lookup(ps, key) == Some(v) <==> IsFirstOf(ps, key, v)
  {
    if ps != [] && !EqIgnoreCase(ps[0].key, key) {
      LooksUpFirst(ps[1..], key, v);
      FirstOfRest(ps, key, v);
    }
  }

  /** Of the form-data kind, with this boundary as the first that is named so. */
  ghost predicate Carries(contentType: Bytes, kind: Bytes, params: Bytes, b: Bytes) {
    && IsCut(contentType, ';', kind, params)
    && EqIgnoreCase(Trim(kind), FORM_DATA)
    && IsFirstOf(Parameters(params), BOUNDARY, b)
  }

  lemma CarriesIff(contentType: Bytes, kind: Bytes, params: Bytes, b: Bytes)
    requires IsCut(contentType, ';', kind, params)
    ensures (exists k, ps :: Carries(contentType, k, ps, b)) <==> Carries(contentType, kind, params, b)
  {
    if k, ps :| Carries(contentType, k, ps, b) {
      CutIsOne(contentType, ';', kind, params, k, ps);
    }
  }

  /** A content type carries a boundary if and only if it is, in any case, `multipart/form-data` with
      parameters, and its first boundary parameter is that and not empty. */
  lemma BoundaryIff(contentType: Bytes, b: Bytes)
    ensures Boundary(contentType) == Some(b) <==>
              b != [] && exists kind, params :: Carries(contentType, kind, params, b)
  {
    FindCuts(contentType, ';');
    match Find(contentType, ";", 0) {
      case FoundAt(i) =>
        var kind, params := contentType[..i], contentType[i + 1..];
        LooksUpFirst(Parameters(params), BOUNDARY, b);
        CarriesIff(contentType, kind, params, b);
      case Nowhere =>
        forall k, ps
          ensures !Carries(contentType, k, ps, b)
        {
          NoCut(contentType, ';', k, ps);
        }
    }
  }

  /** What the parser looks for. */
  lemma DelimitersAre(boundary: Bytes)
    ensures Opening(boundary) == "--" + boundary && Between(boundary) == "\r\n--" + boundary
    ensures MarksOf(boundary) == Marks("--", "\r\n", "\r\n\r\n", "\r\n--" + boundary)
  {
  }
}
