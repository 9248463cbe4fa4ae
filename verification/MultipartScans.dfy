/** Scanning a multipart body (src/multipart.rs): where its parts lie, apart from what is read in
    them.  The scan is written over the search and the reading of one part, which `Multiparts`
    supplies, and is proved to accept exactly the bodies a grammar of segments rebuilds. */
module MultipartScans {
  import opened Wrappers

  /** One byte, written as the character of the same number. */
  type Byte = c: char | c as int < 0x100
  type Bytes = seq<Byte>

  datatype Part = Part(name: Bytes, filename: Option<Bytes>, contentType: Option<Bytes>, data: Bytes)

  datatype MultipartError =
    | NoOpening
    | Unterminated(part: nat)
    | NoHeaderEnd(part: nat)
    | NoName(part: nat)
    | HeaderEncoding(part: nat)

  datatype Parsed = Failed(error: MultipartError) | Parts(parts: seq<Part>)

  // ----- Searching

  predicate OccursAt(text: Bytes, needle: Bytes, i: nat) {
    i + |needle| <= |text| && text[i..i + |needle|] == needle
  }

  datatype Found = Nowhere | FoundAt(index: nat)

  /** A search for a byte string in a text, from a position on. */
  type Finder = (Bytes, Bytes, nat) -> Found

  /** The search answers the first occurrence, or that there is none. */
  ghost predicate FindsFirst(find: Finder, text: Bytes, needle: Bytes, from: nat) {
    match find(text, needle, from)
    case FoundAt(i) =>
      && from <= i && OccursAt(text, needle, i)
      && forall j: nat | from <= j < i :: !OccursAt(text, needle, j)
    case Nowhere =>
      forall j: nat | from <= j :: !OccursAt(text, needle, j)
  }

  ghost predicate IsSearch(find: Finder) {
    forall text, needle, from: nat :: needle != [] ==> FindsFirst(find, text, needle, from)
  }

  // ----- Scanning

  /** The byte strings a body is scanned for. */
  datatype Marks = Marks(dashes: Bytes, crlf: Bytes, blank: Bytes, between: Bytes) {
    /** Scanning moves on, and a line of padding alone never looks like a closing delimiter. */
    predicate AreProper() {
      && |dashes| == 2 && |crlf| == 2 && |blank| == 4 && between != []
      && dashes[0] != crlf[0] && dashes[1] != crlf[0]
    }
  }

  /** Where one part's headers and data lie in the body, or why there is none. */
  datatype Cut =
    | NoCut(error: MultipartError)
    | CutAt(headersStart: nat, headersEnd: nat, dataStart: nat, dataEnd: nat)

  function NextCut(find: Finder, body: Bytes, m: Marks, at: nat, index: nat): (cut: Cut)
    requires m.AreProper() && IsSearch(find)
    ensures cut.CutAt? ==> at < cut.headersStart <= cut.headersEnd < cut.dataStart <= cut.dataEnd
                           && cut.dataEnd + |m.between| <= |body|
  {
    // What follows a delimiter on its line is padding.
    var lineEnd := find(body, m.crlf, at);
    if lineEnd.Nowhere? then NoCut(Unterminated(index)) else
    assert FindsFirst(find, body, m.crlf, at);
    var headersStart := lineEnd.index + |m.crlf|;
    var headersEnd := find(body, m.blank, headersStart);
    if headersEnd.Nowhere? then NoCut(NoHeaderEnd(index)) else
    assert FindsFirst(find, body, m.blank, headersStart);
    var dataStart := headersEnd.index + |m.blank|;
    var dataEnd := find(body, m.between, dataStart);
    if dataEnd.Nowhere? then NoCut(Unterminated(index)) else
    assert FindsFirst(find, body, m.between, dataStart);
    CutAt(headersStart, headersEnd.index, dataStart, dataEnd.index)
  }

  /** A body as its stretches: headers and data of each part, up to the closing delimiter or to
      where the body breaks off. */
  datatype Scan = Closed | Broken(error: MultipartError) | More(headers: Bytes, data: Bytes, rest: Scan)

  /** The stretches from `at`, just behind a delimiter, on; `index` numbers the next part. */
  function ScanFrom(find: Finder, body: Bytes, m: Marks, at: nat, index: nat): Scan
    requires at <= |body| && m.AreProper() && IsSearch(find)
    decreases |body| - at
  {
    if m.dashes <= body[at..] then Closed
    else
      match NextCut(find, body, m, at, index)
      case NoCut(e) => Broken(e)
      case CutAt(headersStart, headersEnd, dataStart, dataEnd) =>
        More(body[headersStart..headersEnd], body[dataStart..dataEnd],
             ScanFrom(find, body, m, dataEnd + |m.between|, index + 1))
  }

  /** Reads the part of a number from its headers and data. */
  type Reader = (nat, Bytes, Bytes) -> Result<Part, MultipartError>

  /** The parts, or the first thing wrong with one of them or with the body behind the last. */
  function ReadScan(read: Reader, scan: Scan, index: nat): Parsed {
    match scan
    case Closed => Parts([])
    case Broken(e) => Failed(e)
    case More(headers, data, rest) =>
      match read(index, headers, data)
      case Err(e) => Failed(e)
      case Ok(part) => Prepend([part], ReadScan(read, rest, index + 1))
  }

  function Prepend(parts: seq<Part>, r: Parsed): Parsed {
    match r case Parts(more) => Parts(parts + more) case Failed(e) => Failed(e)
  }

  lemma PrependTwice(parts: seq<Part>, part: Part, r: Parsed)
    ensures Prepend([], r) == r
    ensures Prepend(parts, Prepend([part], r)) == Prepend(parts + [part], r)
  {
    if r.Parts? {
      assert [] + r.parts == r.parts;
      assert parts + ([part] + r.parts) == (parts + [part]) + r.parts;
    }
  }

  /** What is read from `at` on, after `parts`. */
  function ReadOn(find: Finder, read: Reader, body: Bytes, m: Marks, at: nat, parts: seq<Part>): Parsed
    requires at <= |body| && m.AreProper() && IsSearch(find)
  {
    Prepend(parts, ReadScan(read, ScanFrom(find, body, m, at, |parts| + 1), |parts| + 1))
  }

  lemma ReadOnEnds(find: Finder, read: Reader, body: Bytes, m: Marks, at: nat, parts: seq<Part>)
    requires at <= |body| && m.AreProper() && IsSearch(find)
    ensures m.dashes <= body[at..] ==> ReadOn(find, read, body, m, at, parts) == Parts(parts)
    ensures var cut := NextCut(find, body, m, at, |parts| + 1);
            !(m.dashes <= body[at..]) && cut.NoCut? ==> ReadOn(find, read, body, m, at, parts) == Failed(cut.error)
  {
    assert parts + [] == parts;
  }

  lemma ReadOnSteps(find: Finder, read: Reader, body: Bytes, m: Marks, at: nat, parts: seq<Part>, cut: Cut)
    requires at <= |body| && m.AreProper() && IsSearch(find)
    requires !(m.dashes <= body[at..]) && cut == NextCut(find, body, m, at, |parts| + 1) && cut.CutAt?
    ensures var part := read(|parts| + 1, body[cut.headersStart..cut.headersEnd], body[cut.dataStart..cut.dataEnd]);
            ReadOn(find, read, body, m, at, parts) ==
              if part.Err? then Failed(part.error)
              else ReadOn(find, read, body, m, cut.dataEnd + |m.between|, parts + [part.value])
  {
    var index := |parts| + 1;
    var part := read(index, body[cut.headersStart..cut.headersEnd], body[cut.dataStart..cut.dataEnd]);
    if part.Ok? {
      var rest := ScanFrom(find, body, m, cut.dataEnd + |m.between|, index + 1);
      PrependTwice(parts, part.value, ReadScan(read, rest, index + 1));
    }
  }

  /** The parser's loop, from just behind the first delimiter. */
  method ReadFrom(find: Finder, read: Reader, body: Bytes, m: Marks, start: nat) returns (r: Parsed)
    requires start <= |body| && m.AreProper() && IsSearch(find)
    ensures r == ReadScan(read, ScanFrom(find, body, m, start, 1), 1)
  {
    var at := start;
    var parts := [];
    ghost var whole := ReadOn(find, read, body, m, start, []);
    PrependTwice([], Part([], None, None, []), ReadScan(read, ScanFrom(find, body, m, start, 1), 1));
    while true
      invariant at <= |body|
      invariant ReadOn(find, read, body, m, at, parts) == whole
      decreases |body| - at
    {
      ReadOnEnds(find, read, body, m, at, parts);
      if m.dashes <= body[at..] {
        return Parts(parts);
      }
      var index := |parts| + 1;
      var cut := NextCut(find, body, m, at, index);
      if cut.NoCut? {
        return Failed(cut.error);
      }
      ReadOnSteps(find, read, body, m, at, parts, cut);
      var part := read(index, body[cut.headersStart..cut.headersEnd], body[cut.dataStart..cut.dataEnd]);
      if part.Err? {
        return Failed(part.error);
      }
      parts := parts + [part.value];
      at := cut.dataEnd + |m.between|;
    }
  }

  // ----- First occurrences in context

  /** `needle` first occurs in `x + needle` at its end. */
  ghost predicate IsClear(x: Bytes, needle: Bytes) {
    forall i: nat | i < |x| :: !OccursAt(x + needle, needle, i)
  }

  lemma SliceOccurs(text: Bytes, needle: Bytes, from: nat, to: nat, i: nat)
    requires from <= to <= |text|
    requires i + |needle| <= to - from
    ensures OccursAt(text[from..to], needle, i) <==> OccursAt(text, needle, from + i)
  {
    var a, b := text[from..to][i..i + |needle|], text[from + i..from + i + |needle|];
    assert |a| == |b| && forall k | 0 <= k < |a| :: a[k] == b[k];
    assert a == b;
  }

  /** Searching finds the end of a clear stretch. */
  lemma FindsEnd(find: Finder, text: Bytes, x: Bytes, needle: Bytes, from: nat)
    requires IsSearch(find) && needle != [] && IsClear(x, needle)
    requires from + |x| + |needle| <= |text|
    requires text[from..from + |x| + |needle|] == x + needle
    ensures find(text, needle, from).FoundAt? && find(text, needle, from).index == from + |x|
  {
    var end := from + |x| + |needle|;
    forall j: nat | from <= j < from + |x|
      ensures !OccursAt(text, needle, j)
    {
      if j + |needle| <= end {
        SliceOccurs(text, needle, from, end, j - from);
      }
    }
    assert (x + needle)[|x|..] == needle;
    SliceOccurs(text, needle, from, end, |x|);
    assert FindsFirst(find, text, needle, from);
  }

  /** What is found ends a clear stretch. */
  lemma FoundIsClear(find: Finder, text: Bytes, needle: Bytes, from: nat)
    requires IsSearch(find) && needle != [] && from <= |text| && find(text, needle, from).FoundAt?
    ensures var i := find(text, needle, from).index;
            && from <= i && i + |needle| <= |text|
            && IsClear(text[from..i], needle)
            && text[from..i + |needle|] == text[from..i] + needle
  {
    assert FindsFirst(find, text, needle, from);
    var i := find(text, needle, from).index;
    var x := text[from..i];
    assert x + needle == text[from..i + |needle|];
    forall j: nat | j < |x|
      ensures !OccursAt(x + needle, needle, j)
    {
      if j + |needle| <= |x + needle| {
        SliceOccurs(text, needle, from, i + |needle|, j);
      }
    }
  }

  // ----- The grammar: a body behind its first delimiter

  /** Behind a delimiter: transport padding to the end of its line, headers up to a blank line,
      data up to the next delimiter. */
  datatype Segment = Segment(pad: Bytes, headers: Bytes, data: Bytes)

  ghost predicate IsSegment(s: Segment, m: Marks) {
    && !(m.dashes <= s.pad)
    && IsClear(s.pad, m.crlf)
    && IsClear(s.headers, m.blank)
    && IsClear(s.data, m.between)
  }

  ghost predicate AreSegments(segs: seq<Segment>, m: Marks) {
    forall s | s in segs :: IsSegment(s, m)
  }

  function SegmentText(s: Segment, m: Marks, rest: Bytes): Bytes {
    (s.pad + m.crlf) + ((s.headers + m.blank) + ((s.data + m.between) + rest))
  }

  function Rebuild(segs: seq<Segment>, m: Marks, tail: Bytes): Bytes {
    if segs == [] then tail else SegmentText(segs[0], m, Rebuild(segs[1..], m, tail))
  }

  function ScanOf(segs: seq<Segment>): Scan {
    if segs == [] then Closed else More(segs[0].headers, segs[0].data, ScanOf(segs[1..]))
  }

  lemma StartsWithDashes(pad: Bytes, m: Marks, rest: Bytes)
    requires m.AreProper()
    ensures m.dashes <= (pad + m.crlf) + rest <==> m.dashes <= pad
  {
    var s := (pad + m.crlf) + rest;
    if |pad| >= 2 {
      assert s[0] == pad[0] && s[1] == pad[1];
    } else {
      assert s[|pad|] == m.crlf[0];
    }
  }

  /** `chunk` between two other stretches. */
  lemma Chunk(pre: Bytes, chunk: Bytes, rest: Bytes)
    ensures (pre + (chunk + rest))[|pre|..|pre| + |chunk|] == chunk
    ensures pre + (chunk + rest) == (pre + chunk) + rest
  {
  }

  /** The segment `s` lies in `body` from `at` on. */
  ghost predicate LiesAt(s: Segment, m: Marks, body: Bytes, at: nat)
    requires m.AreProper()
  {
    var h := at + |s.pad| + |m.crlf|;
    var d := h + |s.headers| + |m.blank|;
    && d + |s.data| + |m.between| <= |body|
    && body[at..h] == s.pad + m.crlf
    && body[h..d] == s.headers + m.blank
    && body[d..d + |s.data| + |m.between|] == s.data + m.between
  }

  function CutOf(s: Segment, m: Marks, at: nat): (cut: Cut)
    ensures cut.CutAt?
  {
    var h := at + |s.pad| + |m.crlf|;
    var d := h + |s.headers| + |m.blank|;
    CutAt(h, h + |s.headers|, d, d + |s.data|)
  }

  lemma LiesAtCut(find: Finder, s: Segment, m: Marks, body: Bytes, at: nat, index: nat)
    requires IsSearch(find) && m.AreProper() && IsSegment(s, m) && LiesAt(s, m, body, at)
    ensures NextCut(find, body, m, at, index) == CutOf(s, m, at)
  {
    var cut := CutOf(s, m, at);
    FindsEnd(find, body, s.pad, m.crlf, at);
    FindsEnd(find, body, s.headers, m.blank, cut.headersStart);
    FindsEnd(find, body, s.data, m.between, cut.dataStart);
  }

  lemma LiesAtSlices(s: Segment, m: Marks, body: Bytes, at: nat)
    requires m.AreProper() && LiesAt(s, m, body, at)
    ensures var cut := CutOf(s, m, at);
            body[cut.headersStart..cut.headersEnd] == s.headers && body[cut.dataStart..cut.dataEnd] == s.data
  {
    var cut := CutOf(s, m, at);
    assert body[cut.headersStart..cut.headersEnd] == body[cut.headersStart..cut.dataStart][..|s.headers|];
    assert body[cut.dataStart..cut.dataEnd] == body[cut.dataStart..cut.dataEnd + |m.between|][..|s.data|];
  }

  lemma TextLiesAt(pre: Bytes, s: Segment, m: Marks, rest: Bytes)
    requires m.AreProper()
    ensures LiesAt(s, m, pre + SegmentText(s, m, rest), |pre|)
  {
    var line, headers, data := s.pad + m.crlf, s.headers + m.blank, s.data + m.between;
    Chunk(pre, line, headers + (data + rest));
    Chunk(pre + line, headers, data + rest);
    Chunk(pre + line + headers, data, rest);
  }

  lemma SplitAt(body: Bytes, i: nat, j: nat)
    requires i <= j <= |body|
    ensures body[i..] == body[i..j] + body[j..]
  {
  }

  lemma LiesAtText(s: Segment, m: Marks, body: Bytes, at: nat)
    requires m.AreProper() && LiesAt(s, m, body, at)
    ensures body[at..] == SegmentText(s, m, body[CutOf(s, m, at).dataEnd + |m.between|..])
  {
    var cut := CutOf(s, m, at);
    SplitAt(body, cut.dataStart, cut.dataEnd + |m.between|);
    SplitAt(body, cut.headersStart, cut.dataStart);
    SplitAt(body, at, cut.headersStart);
  }

  lemma TextLies(body: Bytes, at: nat, s: Segment, m: Marks, rest: Bytes)
    requires m.AreProper() && at <= |body| && body[at..] == SegmentText(s, m, rest)
    ensures LiesAt(s, m, body, at) && body[CutOf(s, m, at).dataEnd + |m.between|..] == rest
  {
    SplitAt(body, 0, at);
    assert body[0..] == body && body[0..at] == body[..at];
    TextLiesAt(body[..at], s, m, rest);
    LiesAtText(s, m, body, at);
    SameText(s, m, rest, body[CutOf(s, m, at).dataEnd + |m.between|..]);
  }

  lemma SameText(s: Segment, m: Marks, a: Bytes, b: Bytes)
    requires SegmentText(s, m, a) == SegmentText(s, m, b)
    ensures a == b
  {
    var line, headers, data := s.pad + m.crlf, s.headers + m.blank, s.data + m.between;
    DropFirst(line, headers + (data + a));
    DropFirst(line, headers + (data + b));
    DropFirst(headers, data + a);
    DropFirst(headers, data + b);
    DropFirst(data, a);
    DropFirst(data, b);
  }

  lemma DropFirst(a: Bytes, b: Bytes)
    ensures (a + b)[|a|..] == b
  {
  }

  /** The parser's next stretch is the segment that lies there. */
  lemma ScanSeesSegment(find: Finder, body: Bytes, at: nat, s: Segment, m: Marks, rest: Bytes,
                        index: nat) returns (end: nat)
    requires IsSearch(find) && m.AreProper() && IsSegment(s, m)
    requires at <= |body| && body[at..] == SegmentText(s, m, rest)
    ensures end <= |body| && body[end..] == rest
    ensures ScanFrom(find, body, m, at, index) == More(s.headers, s.data, ScanFrom(find, body, m, end, index + 1))
  {
    StartsWithDashes(s.pad, m, (s.headers + m.blank) + ((s.data + m.between) + rest));
    TextLies(body, at, s, m, rest);
    LiesAtCut(find, s, m, body, at, index);
    LiesAtSlices(s, m, body, at);
    end := CutOf(s, m, at).dataEnd + |m.between|;
  }

  /** Whatever segments a body is built from, the parser sees exactly those. */
  lemma {:induction false} ScanSeesSegments(find: Finder, body: Bytes, at: nat, segs: seq<Segment>, m: Marks,
                                            tail: Bytes, index: nat)
    requires IsSearch(find) && m.AreProper() && AreSegments(segs, m) && m.dashes <= tail
    requires at <= |body| && body[at..] == Rebuild(segs, m, tail)
    ensures ScanFrom(find, body, m, at, index) == ScanOf(segs)
    decreases segs
  {
    if segs != [] {
      assert IsSegment(segs[0], m);
      var end := ScanSeesSegment(find, body, at, segs[0], m, Rebuild(segs[1..], m, tail), index);
      ScanSeesSegments(find, body, end, segs[1..], m, tail, index + 1);
    }
  }

  lemma PadIsNotDashes(body: Bytes, m: Marks, at: nat, lineEnd: nat)
    requires at <= lineEnd <= |body| && !(m.dashes <= body[at..])
    ensures !(m.dashes <= body[at..lineEnd])
  {
    assert body[at..] == body[at..lineEnd] + body[lineEnd..];
  }

  /** The segment the parser cuts. */
  lemma CutIsSegment(find: Finder, body: Bytes, m: Marks, at: nat, index: nat) returns (s: Segment)
    requires IsSearch(find) && m.AreProper() && at <= |body| && !(m.dashes <= body[at..])
    requires NextCut(find, body, m, at, index).CutAt?
    ensures IsSegment(s, m) && LiesAt(s, m, body, at) && NextCut(find, body, m, at, index) == CutOf(s, m, at)
  {
    var cut := NextCut(find, body, m, at, index);
    var lineEnd := cut.headersStart - |m.crlf|;
    FoundIsClear(find, body, m.crlf, at);
    FoundIsClear(find, body, m.blank, cut.headersStart);
    FoundIsClear(find, body, m.between, cut.dataStart);
    PadIsNotDashes(body, m, at, lineEnd);
    s := Segment(body[at..lineEnd], body[cut.headersStart..cut.headersEnd], body[cut.dataStart..cut.dataEnd]);
  }

  predicate Closes(scan: Scan) {
    match scan
    case Closed => true
    case Broken(_) => false
    case More(_, _, rest) => Closes(rest)
  }

  /** A body the parser scans to its closing delimiter is built from segments. */
  lemma {:induction false} ClosedIsRebuilt(find: Finder, body: Bytes, m: Marks, at: nat, index: nat)
    returns (segs: seq<Segment>, tail: Bytes)
    requires IsSearch(find) && m.AreProper() && at <= |body| && Closes(ScanFrom(find, body, m, at, index))
    ensures AreSegments(segs, m) && m.dashes <= tail
    ensures body[at..] == Rebuild(segs, m, tail)
    ensures ScanFrom(find, body, m, at, index) == ScanOf(segs)
    decreases |body| - at
  {
    if m.dashes <= body[at..] {
      segs, tail := [], body[at..];
    } else {
      var s := CutIsSegment(find, body, m, at, index);
      LiesAtText(s, m, body, at);
      LiesAtSlices(s, m, body, at);
      var more;
      more, tail := ClosedIsRebuilt(find, body, m, CutOf(s, m, at).dataEnd + |m.between|, index + 1);
      segs := [s] + more;
      assert segs[1..] == more;
    }
  }

  lemma {:induction false} ReadingCloses(read: Reader, scan: Scan, index: nat)
    requires ReadScan(read, scan, index).Parts?
    ensures Closes(scan)
  {
    if scan.More? {
      ReadingCloses(read, scan.rest, index + 1);
    }
  }

  /** The parser accepts a body with these parts exactly when the body is a list of segments and
      a closing delimiter, the parts being what the segments read as.  So it terminates on every
      input, its parts are consecutive stretches of the body in order, and each part's data ends
      at the first delimiter after its headers. */
  lemma ParsesIffRebuilt(find: Finder, read: Reader, body: Bytes, m: Marks, at: nat, index: nat, parts: seq<Part>)
    requires IsSearch(find) && m.AreProper() && at <= |body|
    ensures ReadScan(read, ScanFrom(find, body, m, at, index), index) == Parts(parts) <==>
              exists segs, tail ::
                && AreSegments(segs, m) && m.dashes <= tail
                && body[at..] == Rebuild(segs, m, tail)
                && ReadScan(read, ScanOf(segs), index) == Parts(parts)
  {
    if ReadScan(read, ScanFrom(find, body, m, at, index), index) == Parts(parts) {
      ReadingCloses(read, ScanFrom(find, body, m, at, index), index);
      var segs, tail := ClosedIsRebuilt(find, body, m, at, index);
    }
    if segs, tail :|
      && AreSegments(segs, m) && m.dashes <= tail
      && body[at..] == Rebuild(segs, m, tail)
      && ReadScan(read, ScanOf(segs), index) == Parts(parts)
    {
      ScanSeesSegments(find, body, at, segs, m, tail, index);
    }
  }
}
