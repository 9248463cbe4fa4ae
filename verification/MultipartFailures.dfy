/** What the multipart parser answers when a body is no form (src/multipart.rs): the first thing
    wrong, and in which part, by the text of the body. */
module MultipartFailures {
  import opened Wrappers
  import opened MultipartScans
  import opened Multiparts
  import opened FormRoundTrips
  import opened PartHeaders

  // ----- A body that breaks off

  /** The stretch of one part lies there whole, and reading it fails with `e`. */
  ghost predicate FailsInPart(read: Reader, rest: Bytes, m: Marks, index: nat, e: MultipartError) {
    exists s, more :: IsSegment(s, m) && rest == SegmentText(s, m, more) && read(index, s.headers, s.data) == Err(e)
  }

  /** Padding and the end of its line, and behind it no end of the headers. */
  ghost predicate LacksHeaderEnd(rest: Bytes, m: Marks) {
    exists pad, after :: IsClear(pad, m.crlf) && rest == pad + m.crlf + after && HoldsNone(after, m.blank)
  }

  /** Padding, headers and the blank line, and behind them no delimiter. */
  ghost predicate LacksDelimiter(rest: Bytes, m: Marks) {
    exists pad, headers, data ::
      && IsClear(pad, m.crlf) && IsClear(headers, m.blank) && HoldsNone(data, m.between)
      && rest == pad + m.crlf + (headers + m.blank + data)
  }

  /** Behind a delimiter comes no closing one but, in the part of this number, the error: the line of
      the delimiter does not end, or the part has no end of its headers or no delimiter behind it, or
      reading it fails. */
  ghost predicate BreaksOff(read: Reader, rest: Bytes, m: Marks, index: nat, e: MultipartError) {
    && !(m.dashes <= rest)
    && (|| (e == Unterminated(index) && HoldsNone(rest, m.crlf))
        || (e == NoHeaderEnd(index) && LacksHeaderEnd(rest, m))
        || (e == Unterminated(index) && LacksDelimiter(rest, m))
        || FailsInPart(read, rest, m, index, e))
  }

  ghost predicate AreRead(read: Reader, segs: seq<Segment>, index: nat) {
    forall i | 0 <= i < |segs| :: read(index + i, segs[i].headers, segs[i].data).Ok?
  }

  // ----- Searching a rest

  lemma NoneFromHere(find: Finder, body: Bytes, needle: Bytes, at: nat)
    requires IsSearch(find) && needle != [] && at <= |body|
    ensures find(body, needle, at).Nowhere? <==> HoldsNone(body[at..], needle)
  {
    assert FindsFirst(find, body, needle, at);
    forall i: nat
      ensures OccursAt(body[at..], needle, i) <==> OccursAt(body, needle, at + i)
    {
      if i + |needle| <= |body| - at {
        SliceOccurs(body, needle, at, |body|, i);
        assert body[at..|body|] == body[at..];
      }
    }
    if find(body, needle, at).FoundAt? {
      var i := find(body, needle, at).index;
      assert OccursAt(body[at..], needle, i - at);
    }
  }

  lemma FindsHere(find: Finder, body: Bytes, needle: Bytes, at: nat, x: Bytes, more: Bytes)
    requires IsSearch(find) && needle != [] && at <= |body| && IsClear(x, needle)
    requires body[at..] == x + needle + more
    ensures find(body, needle, at).FoundAt? && find(body, needle, at).index == at + |x|
    ensures at + |x| + |needle| <= |body| && body[at + |x| + |needle|..] == more
  {
    var n := |x| + |needle|;
    assert |body[at..]| >= n;
    assert body[at..at + n] == body[at..][..n] == x + needle;
    assert body[at + n..] == body[at..][n..] == more;
    FindsEnd(find, body, x, needle, at);
  }

  lemma FoundHere(find: Finder, body: Bytes, needle: Bytes, at: nat)
    returns (x: Bytes, more: Bytes)
    requires IsSearch(find) && needle != [] && at <= |body| && find(body, needle, at).FoundAt?
    ensures IsClear(x, needle) && body[at..] == x + needle + more
    ensures find(body, needle, at).index == at + |x|
    ensures at + |x| + |needle| <= |body| && body[at + |x| + |needle|..] == more
  {
    FoundIsClear(find, body, needle, at);
    var i := find(body, needle, at).index;
    x, more := body[at..i], body[i + |needle|..];
    assert body[at..] == body[at..i + |needle|] + more;
  }

  // ----- One stretch

  lemma CutFails(find: Finder, read: Reader, body: Bytes, m: Marks, at: nat, index: nat)
    requires IsSearch(find) && m.AreProper() && at <= |body| && !(m.dashes <= body[at..])
    requires NextCut(find, body, m, at, index).NoCut?
    ensures BreaksOff(read, body[at..], m, index, NextCut(find, body, m, at, index).error)
  {
    NoneFromHere(find, body, m.crlf, at);
    if find(body, m.crlf, at).FoundAt? {
      var pad, after := FoundHere(find, body, m.crlf, at);
      var headersStart := at + |pad| + |m.crlf|;
      NoneFromHere(find, body, m.blank, headersStart);
      if find(body, m.blank, headersStart).FoundAt? {
        var headers, data := FoundHere(find, body, m.blank, headersStart);
        NoneFromHere(find, body, m.between, headersStart + |headers| + |m.blank|);
        assert LacksDelimiter(body[at..], m);
      } else {
        assert LacksHeaderEnd(body[at..], m);
      }
    }
  }

  lemma NoLineEndFails(find: Finder, body: Bytes, m: Marks, at: nat, index: nat)
    requires IsSearch(find) && m.AreProper() && at <= |body| && HoldsNone(body[at..], m.crlf)
    ensures NextCut(find, body, m, at, index) == NoCut(Unterminated(index))
  {
    NoneFromHere(find, body, m.crlf, at);
  }

  lemma NoHeaderEndFails(find: Finder, body: Bytes, m: Marks, at: nat, index: nat)
    requires IsSearch(find) && m.AreProper() && at <= |body| && LacksHeaderEnd(body[at..], m)
    ensures NextCut(find, body, m, at, index) == NoCut(NoHeaderEnd(index))
  {
    var pad, after :| IsClear(pad, m.crlf) && body[at..] == pad + m.crlf + after && HoldsNone(after, m.blank);
    FindsHere(find, body, m.crlf, at, pad, after);
    NoneFromHere(find, body, m.blank, at + |pad| + |m.crlf|);
  }

  lemma NoDelimiterFails(find: Finder, body: Bytes, m: Marks, at: nat, index: nat)
    requires IsSearch(find) && m.AreProper() && at <= |body| && LacksDelimiter(body[at..], m)
    ensures NextCut(find, body, m, at, index) == NoCut(Unterminated(index))
  {
    var pad, headers, data :|
      && IsClear(pad, m.crlf) && IsClear(headers, m.blank) && HoldsNone(data, m.between)
      && body[at..] == pad + m.crlf + (headers + m.blank + data);
    FindsHere(find, body, m.crlf, at, pad, headers + m.blank + data);
    FindsHere(find, body, m.blank, at + |pad| + |m.crlf|, headers, data);
    NoneFromHere(find, body, m.between, at + |pad| + |m.crlf| + |headers| + |m.blank|);
  }

  lemma PartFails(find: Finder, read: Reader, body: Bytes, m: Marks, at: nat, index: nat, e: MultipartError)
    requires IsSearch(find) && m.AreProper() && at <= |body| && FailsInPart(read, body[at..], m, index, e)
    ensures ReadScan(read, ScanFrom(find, body, m, at, index), index) == Failed(e)
  {
    var s, more :|
      IsSegment(s, m) && body[at..] == SegmentText(s, m, more) && read(index, s.headers, s.data) == Err(e);
    var _ := ScanSeesSegment(find, body, at, s, m, more, index);
  }

  lemma BreakFails(find: Finder, read: Reader, body: Bytes, m: Marks, at: nat, index: nat, e: MultipartError)
    requires IsSearch(find) && m.AreProper() && at <= |body| && BreaksOff(read, body[at..], m, index, e)
    ensures ReadScan(read, ScanFrom(find, body, m, at, index), index) == Failed(e)
  {
    if FailsInPart(read, body[at..], m, index, e) {
      PartFails(find, read, body, m, at, index, e);
    } else if e == Unterminated(index) && HoldsNone(body[at..], m.crlf) {
      NoLineEndFails(find, body, m, at, index);
    } else if e == Unterminated(index) {
      NoDelimiterFails(find, body, m, at, index);
    } else {
      NoHeaderEndFails(find, body, m, at, index);
    }
  }

  // ----- Behind the first delimiter

  lemma ReadMore(read: Reader, s: Segment, more: seq<Segment>, index: nat)
    requires read(index, s.headers, s.data).Ok? && AreRead(read, more, index + 1)
    ensures AreRead(read, [s] + more, index)
  {
    var segs := [s] + more;
    forall i | 0 <= i < |segs|
      ensures read(index + i, segs[i].headers, segs[i].data).Ok?
    {
      if i > 0 {
        assert segs[i] == more[i - 1] && index + i == index + 1 + (i - 1);
      }
    }
  }

  lemma ReadRest(read: Reader, segs: seq<Segment>, index: nat)
    requires segs != [] && AreRead(read, segs, index)
    ensures read(index, segs[0].headers, segs[0].data).Ok? && AreRead(read, segs[1..], index + 1)
  {
    assert read(index + 0, segs[0].headers, segs[0].data).Ok?;
    forall i | 0 <= i < |segs| - 1
      ensures read(index + 1 + i, segs[1..][i].headers, segs[1..][i].data).Ok?
    {
      assert read(index + (i + 1), segs[i + 1].headers, segs[i + 1].data).Ok?;
      assert index + (i + 1) == index + 1 + i;
    }
  }

  /** A stretch scanned whole and read: the failure is behind it. */
  lemma FailsBehind(read: Reader, headers: Bytes, data: Bytes, rest: Scan, index: nat, e: MultipartError)
    requires read(index, headers, data).Ok?
    ensures ReadScan(read, More(headers, data, rest), index) == Failed(e) <==>
              ReadScan(read, rest, index + 1) == Failed(e)
  {
  }

  lemma CutIsScanned(find: Finder, body: Bytes, m: Marks, at: nat, index: nat, s: Segment)
    requires IsSearch(find) && m.AreProper() && at <= |body| && !(m.dashes <= body[at..])
    requires LiesAt(s, m, body, at) && NextCut(find, body, m, at, index) == CutOf(s, m, at)
    ensures var next := CutOf(s, m, at).dataEnd + |m.between|;
            ScanFrom(find, body, m, at, index) == More(s.headers, s.data, ScanFrom(find, body, m, next, index + 1))
  {
    LiesAtSlices(s, m, body, at);
  }

  /** The next stretch, if the scan finds it whole. */
  lemma NextStretch(find: Finder, body: Bytes, m: Marks, at: nat, index: nat) returns (s: Segment, next: nat)
    requires IsSearch(find) && m.AreProper() && at <= |body| && !(m.dashes <= body[at..])
    requires NextCut(find, body, m, at, index).CutAt?
    ensures at < next <= |body| && IsSegment(s, m) && body[at..] == SegmentText(s, m, body[next..])
    ensures ScanFrom(find, body, m, at, index) == More(s.headers, s.data, ScanFrom(find, body, m, next, index + 1))
  {
    s := CutIsSegment(find, body, m, at, index);
    next := CutOf(s, m, at).dataEnd + |m.between|;
    LiesAtText(s, m, body, at);
    CutIsScanned(find, body, m, at, index, s);
  }

  /** Behind so many readable stretches the body breaks off. */
  ghost predicate BreaksBehind(read: Reader, text: Bytes, m: Marks, index: nat, e: MultipartError,
                               segs: seq<Segment>, rest: Bytes) {
    && AreSegments(segs, m) && text == Rebuild(segs, m, rest)
    && AreRead(read, segs, index) && BreaksOff(read, rest, m, index + |segs|, e)
  }

  lemma BreaksHere(find: Finder, read: Reader, body: Bytes, m: Marks, at: nat, index: nat, e: MultipartError)
    requires IsSearch(find) && m.AreProper() && at <= |body| && NextCut(find, body, m, at, index).NoCut?
    requires ReadScan(read, ScanFrom(find, body, m, at, index), index) == Failed(e)
    ensures BreaksBehind(read, body[at..], m, index, e, [], body[at..])
  {
    CutFails(find, read, body, m, at, index);
  }

  lemma BreaksInPart(read: Reader, text: Bytes, m: Marks, index: nat, s: Segment, more: Bytes, e: MultipartError)
    requires m.AreProper() && IsSegment(s, m) && text == SegmentText(s, m, more) && !(m.dashes <= text)
    requires read(index, s.headers, s.data) == Err(e)
    ensures BreaksBehind(read, text, m, index, e, [], text)
  {
    assert FailsInPart(read, text, m, index, e);
  }

  lemma BreaksLater(read: Reader, text: Bytes, s: Segment, m: Marks, next: Bytes, index: nat, e: MultipartError,
                    more: seq<Segment>, rest: Bytes)
    requires IsSegment(s, m) && read(index, s.headers, s.data).Ok? && text == SegmentText(s, m, next)
    requires BreaksBehind(read, next, m, index + 1, e, more, rest)
    ensures BreaksBehind(read, text, m, index, e, [s] + more, rest)
  {
    ReadMore(read, s, more, index);
    assert ([s] + more)[1..] == more;
    assert index + |[s] + more| == index + 1 + |more|;
  }

  lemma {:induction false} FailureBreaks(find: Finder, read: Reader, body: Bytes, m: Marks, at: nat, index: nat,
                                         e: MultipartError)
    returns (segs: seq<Segment>, rest: Bytes)
    requires IsSearch(find) && m.AreProper() && at <= |body|
    requires ReadScan(read, ScanFrom(find, body, m, at, index), index) == Failed(e)
    ensures BreaksBehind(read, body[at..], m, index, e, segs, rest)
    decreases |body| - at
  {
    if NextCut(find, body, m, at, index).NoCut? {
      BreaksHere(find, read, body, m, at, index, e);
      segs, rest := [], body[at..];
    } else {
      var s, next := NextStretch(find, body, m, at, index);
      if read(index, s.headers, s.data).Err? {
        BreaksInPart(read, body[at..], m, index, s, body[next..], e);
        segs, rest := [], body[at..];
      } else {
        FailsBehind(read, s.headers, s.data, ScanFrom(find, body, m, next, index + 1), index, e);
        var more;
        more, rest := FailureBreaks(find, read, body, m, next, index + 1, e);
        BreaksLater(read, body[at..], s, m, body[next..], index, e, more, rest);
        segs := [s] + more;
      }
    }
  }

  lemma BreaksBehindFirst(read: Reader, text: Bytes, m: Marks, index: nat, e: MultipartError, segs: seq<Segment>,
                          rest: Bytes)
    requires segs != [] && BreaksBehind(read, text, m, index, e, segs, rest)
    ensures IsSegment(segs[0], m) && read(index, segs[0].headers, segs[0].data).Ok?
    ensures text == SegmentText(segs[0], m, Rebuild(segs[1..], m, rest))
    ensures BreaksBehind(read, Rebuild(segs[1..], m, rest), m, index + 1, e, segs[1..], rest)
  {
    ReadRest(read, segs, index);
    assert index + |segs| == index + 1 + |segs[1..]|;
  }

  lemma {:induction false} BrokenFails(find: Finder, read: Reader, body: Bytes, m: Marks, at: nat, index: nat,
                                       segs: seq<Segment>, rest: Bytes, e: MultipartError)
    requires IsSearch(find) && m.AreProper() && at <= |body|
    requires BreaksBehind(read, body[at..], m, index, e, segs, rest)
    ensures ReadScan(read, ScanFrom(find, body, m, at, index), index) == Failed(e)
    decreases segs
  {
    if segs == [] {
      BreakFails(find, read, body, m, at, index, e);
    } else {
      var s := segs[0];
      BreaksBehindFirst(read, body[at..], m, index, e, segs, rest);
      var end := ScanSeesSegment(find, body, at, s, m, Rebuild(segs[1..], m, rest), index);
      FailsBehind(read, s.headers, s.data, ScanFrom(find, body, m, end, index + 1), index, e);
      BrokenFails(find, read, body, m, end, index + 1, segs[1..], rest, e);
    }
  }

  // ----- Whole bodies

  /** The body is an opening, at its start or behind a preamble that ends at the first delimiter,
      then segments that read as parts, then something that breaks off with the error, the part
      counted from one. */
  ghost predicate IsCutShort(body: Bytes, boundary: Bytes, e: MultipartError, preamble: Option<Bytes>,
                             segs: seq<Segment>, rest: Bytes)
  {
    var m := MarksOf(boundary);
    && AreSegments(segs, m) && AreRead(ReadSegment, segs, 1)
    && body == Body(preamble, Rebuild(segs, m, rest), boundary)
    && (preamble.Some? ==> !(Opening(boundary) <= body) && IsClear(preamble.value, Between(boundary)))
    && BreaksOff(ReadSegment, rest, m, |segs| + 1, e)
  }

  lemma FailedIsCutShort(body: Bytes, boundary: Bytes, e: MultipartError)
    returns (preamble: Option<Bytes>, segs: seq<Segment>, rest: Bytes)
    requires StartOf(body, boundary).FoundAt? && Parse(body, boundary) == Failed(e)
    ensures IsCutShort(body, boundary, e, preamble, segs, rest)
  {
    FindIsSearch();
    var at := StartOf(body, boundary).index;
    preamble := StartSplits(body, boundary);
    segs, rest := FailureBreaks(Find, ReadSegment, body, MarksOf(boundary), at, 1, e);
  }

  lemma CutShortFails(body: Bytes, boundary: Bytes, e: MultipartError, preamble: Option<Bytes>,
                      segs: seq<Segment>, rest: Bytes)
    requires IsCutShort(body, boundary, e, preamble, segs, rest)
    ensures StartOf(body, boundary).FoundAt? && Parse(body, boundary) == Failed(e)
  {
    var form := Rebuild(segs, MarksOf(boundary), rest);
    FindIsSearch();
    FormStarts(body, boundary, preamble, form);
    StartsAt(preamble, form, boundary);
    BrokenFails(Find, ReadSegment, body, MarksOf(boundary), Start(preamble, boundary), 1, segs, rest, e);
    ParsesFrom(body, boundary, Start(preamble, boundary));
  }

  lemma NoStartIff(body: Bytes, boundary: Bytes)
    ensures StartOf(body, boundary).Nowhere? <==> !(Opening(boundary) <= body) && HoldsNone(body, Between(boundary))
  {
    FindIsSearch();
    NoneFromHere(Find, body, Between(boundary), 0);
    assert body[0..] == body;
  }

  /** For every body and boundary: parsing fails with this error if and only if the body has neither
      an opening nor a delimiter, and the error says so; or it is cut short with it. */
  lemma FailsIff(body: Bytes, boundary: Bytes, e: MultipartError)
    ensures Parse(body, boundary) == Failed(e) <==>
              || (e == NoOpening && !(Opening(boundary) <= body) && HoldsNone(body, Between(boundary)))
              || exists preamble, segs, rest :: IsCutShort(body, boundary, e, preamble, segs, rest)
  {
    NoStartIff(body, boundary);
    if StartOf(body, boundary).FoundAt? && Parse(body, boundary) == Failed(e) {
      var preamble, segs, rest := FailedIsCutShort(body, boundary, e);
    }
    if preamble, segs, rest :| IsCutShort(body, boundary, e, preamble, segs, rest) {
      CutShortFails(body, boundary, e, preamble, segs, rest);
    }
  }
}
