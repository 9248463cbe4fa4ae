/** Binary glTF files (src/glb.rs): the header check, the writer, and the layout of the binary
    buffer; section 4.4 of the glTF 2.0 specification. */
module Glbs {
  import opened Wrappers

  type Byte = b: int | 0 <= b < 0x100
  type Bytes = seq<Byte>

  const TWO_32: nat := 0x1_0000_0000
  const MAGIC: nat := 0x4654_6C67
  const VERSION: nat := 2
  const CHUNK_JSON: nat := 0x4E4F_534A
  const CHUNK_BIN: nat := 0x004E_4942
  const MIN_LEN: nat := 20
  const SPACE: Byte := 0x20
  const ZERO: Byte := 0

  datatype GlbError =
    | TooShort(len: nat)
    | NotMagic
    | NotVersion(version: nat)
    | NotLength(declared: nat, actual: nat)
    | NotFirstChunk

  datatype Checked = Good | Bad(error: GlbError)

  // ----- Words

  function U32At(bytes: Bytes, at: nat): (v: nat)
    requires at + 4 <= |bytes|
    ensures v < TWO_32
  {
    bytes[at] as int + 0x100 * (bytes[at + 1] as int) + 0x1_0000 * (bytes[at + 2] as int)
    + 0x100_0000 * (bytes[at + 3] as int)
  }

  function Low(v: nat): Byte {
    v % 0x100
  }

  /** The four bytes of `v as u32`, least first. */
  function LeBytes(v: nat): (bytes: Bytes)
    ensures |bytes| == 4
  {
    var w := v / 0x100;
    var x := w / 0x100;
    var y := x / 0x100;
    [Low(v), Low(w), Low(x), Low(y)]
  }

  lemma RemainderIs(v: nat, w: nat, k: nat)
    requires w < TWO_32 && v == w + TWO_32 * k
    ensures v % TWO_32 == w
  {
  }

  /** Writing a word keeps it up to 32 bits; reading four bytes and writing them changes nothing. */
  lemma WordOfBytes(v: nat)
    ensures U32At(LeBytes(v), 0) == v % TWO_32
  {
    var w := v / 0x100;
    var x := w / 0x100;
    var y := x / 0x100;
    assert v == 0x100 * w + Low(v) && w == 0x100 * x + Low(w);
    assert x == 0x100 * y + Low(x) && y == 0x100 * (y / 0x100) + Low(y);
    RemainderIs(v, U32At(LeBytes(v), 0), y / 0x100);
  }

  lemma BytesOfWord(bytes: Bytes)
    requires |bytes| == 4
    ensures LeBytes(U32At(bytes, 0)) == bytes
  {
    var v := U32At(bytes, 0);
    var w := bytes[1] as int + 0x100 * (bytes[2] as int) + 0x1_0000 * (bytes[3] as int);
    var x := bytes[2] as int + 0x100 * (bytes[3] as int);
    assert v / 0x100 == w && Low(v) == bytes[0];
    assert w / 0x100 == x && Low(w) == bytes[1];
    assert x / 0x100 == bytes[3] && Low(x) == bytes[2];
    assert Low(bytes[3]) == bytes[3];
  }

  lemma WordInSlice(bytes: Bytes, at: nat)
    requires at + 4 <= |bytes|
    ensures U32At(bytes, at) == U32At(bytes[at..at + 4], 0)
  {
  }

  /** A word stands at a place exactly when its four bytes do. */
  lemma WordAtIff(bytes: Bytes, at: nat, v: nat)
    requires at + 4 <= |bytes| && v < TWO_32
    ensures U32At(bytes, at) == v <==> bytes[at..at + 4] == LeBytes(v)
  {
    WordInSlice(bytes, at);
    WordOfBytes(v);
    BytesOfWord(bytes[at..at + 4]);
  }

  // ----- The check

  function Check(bytes: Bytes): Checked {
    if |bytes| < MIN_LEN then Bad(TooShort(|bytes|))
    else if U32At(bytes, 0) != MAGIC then Bad(NotMagic)
    else if U32At(bytes, 4) != VERSION then Bad(NotVersion(U32At(bytes, 4)))
    else if U32At(bytes, 8) != |bytes| then Bad(NotLength(U32At(bytes, 8), |bytes|))
    else if U32At(bytes, 16) != CHUNK_JSON then Bad(NotFirstChunk)
    else Good
  }

  /** The check passes exactly the files that start with the magic, version 2, their own length
      and a chunk of type JSON (sections 4.4.2 and 4.4.3). */
  lemma ChecksIff(bytes: Bytes)
    ensures Check(bytes).Good? <==>
              && MIN_LEN <= |bytes| < TWO_32
              && bytes[..4] == LeBytes(MAGIC)
              && bytes[4..8] == LeBytes(VERSION)
              && bytes[8..12] == LeBytes(|bytes|)
              && bytes[16..20] == LeBytes(CHUNK_JSON)
  {
    if MIN_LEN <= |bytes| < TWO_32 {
      WordAtIff(bytes, 0, MAGIC);
      assert bytes[0..4] == bytes[..4];
      WordAtIff(bytes, 4, VERSION);
      WordAtIff(bytes, 8, |bytes|);
      WordAtIff(bytes, 16, CHUNK_JSON);
      assert bytes[0..4] == bytes[..4];
    }
  }

  /** A file that does not pass is told the first thing wrong with it, and the numbers are what is
      written there. */
  lemma CheckTellsFirst(bytes: Bytes)
    requires Check(bytes).Bad?
    ensures match Check(bytes).error
            case TooShort(n) => n == |bytes| < MIN_LEN
            case NotMagic => MIN_LEN <= |bytes| && bytes[..4] != LeBytes(MAGIC)
            case NotVersion(v) =>
              && MIN_LEN <= |bytes| && bytes[..4] == LeBytes(MAGIC)
              && v < TWO_32 && bytes[4..8] == LeBytes(v) && v != VERSION
            case NotLength(declared, actual) =>
              && MIN_LEN <= |bytes| && bytes[..4] == LeBytes(MAGIC) && bytes[4..8] == LeBytes(VERSION)
              && declared < TWO_32 && bytes[8..12] == LeBytes(declared) && declared != actual == |bytes|
            case NotFirstChunk =>
              && MIN_LEN <= |bytes| < TWO_32 && bytes[..4] == LeBytes(MAGIC)
              && bytes[4..8] == LeBytes(VERSION) && bytes[8..12] == LeBytes(|bytes|)
              && bytes[16..20] != LeBytes(CHUNK_JSON)
  {
    if MIN_LEN <= |bytes| {
      WordAtIff(bytes, 0, MAGIC);
      WordAtIff(bytes, 4, VERSION);
      WordAtIff(bytes, 4, U32At(bytes, 4));
      WordAtIff(bytes, 8, U32At(bytes, 8));
      WordAtIff(bytes, 16, CHUNK_JSON);
    }
  }

  // ----- Padding

  function Padding(n: nat): (k: nat)
    ensures k < 4 && (n + k) % 4 == 0
  {
    (4 - n % 4) % 4
  }

  function Fill(fill: Byte, n: nat): (s: Bytes)
    ensures |s| == n && forall i | 0 <= i < n :: s[i] == fill
  {
    seq(n, _ => fill)
  }

  function Padded(data: Bytes, fill: Byte): (s: Bytes)
    ensures |s| % 4 == 0 && data <= s && |s| < |data| + 4
    ensures forall i | |data| <= i < |s| :: s[i] == fill
  {
    data + Fill(fill, Padding(|data|))
  }

  method Pad(data: Bytes, fill: Byte) returns (s: Bytes)
    ensures s == Padded(data, fill)
  {
    s := data;
    while |s| % 4 != 0
      invariant data <= s && |s| <= |data| + Padding(|data|)
      invariant forall i | |data| <= i < |s| :: s[i] == fill
      decreases |data| + Padding(|data|) - |s|
    {
      s := s + [fill];
    }
    PaddingIsLeast(|data|, |s| - |data|);
    assert s == data + Fill(fill, Padding(|data|));
  }

  lemma PaddingIsLeast(n: nat, k: nat)
    requires k <= Padding(n) && (n + k) % 4 == 0
    ensures k == Padding(n)
  {
  }

  // ----- The file

  function Chunk(kind: nat, data: Bytes): (s: Bytes)
    ensures |s| == 8 + |data|
  {
    LeBytes(|data|) + (LeBytes(kind) + data)
  }

  /** Header, JSON chunk, binary chunk. */
  function Assembled(json: Bytes, bin: Bytes): Bytes {
    var json, bin := Padded(json, SPACE), Padded(bin, ZERO);
    var total := 12 + 8 + |json| + 8 + |bin|;
    LeBytes(MAGIC) + (LeBytes(VERSION) + (LeBytes(total) + (Chunk(CHUNK_JSON, json) + Chunk(CHUNK_BIN, bin))))
  }

  method Assemble(json: Bytes, bin: Bytes) returns (out: Bytes)
    ensures out == Assembled(json, bin)
  {
    var padJson := Pad(json, SPACE);
    var padBin := Pad(bin, ZERO);
    var total := 12 + 8 + |padJson| + 8 + |padBin|;
    var words: seq<nat> := [MAGIC, VERSION, total, |padJson|, CHUNK_JSON];
    out := [];
    var i := 0;
    while i < |words|
      invariant 0 <= i <= |words|
      invariant out == Words(words[..i])
    {
      assert words[..i + 1][..i] == words[..i];
      out := out + LeBytes(words[i]);
      i := i + 1;
    }
    assert words[..|words|] == words;
    FiveWords(MAGIC, VERSION, total, |padJson|, CHUNK_JSON);
    out := out + padJson;
    out := out + LeBytes(|padBin|);
    out := out + LeBytes(CHUNK_BIN);
    out := out + padBin;
    NineJoin(LeBytes(MAGIC), LeBytes(VERSION), LeBytes(total), LeBytes(|padJson|), LeBytes(CHUNK_JSON), padJson,
             LeBytes(|padBin|), LeBytes(CHUNK_BIN), padBin);
  }

  lemma NineJoin(a: Bytes, b: Bytes, c: Bytes, d: Bytes, e: Bytes, f: Bytes, g: Bytes, h: Bytes, i: Bytes)
    ensures a + b + c + d + e + f + g + h + i == a + (b + (c + ((d + (e + f)) + (g + (h + i)))))
  {
    assert d + e + f == d + (e + f) && g + h + i == g + (h + i);
  }

  function Words(words: seq<nat>): Bytes {
    if words == [] then [] else Words(words[..|words| - 1]) + LeBytes(words[|words| - 1])
  }

  lemma OneMoreWord(words: seq<nat>, w: nat)
    ensures Words(words + [w]) == Words(words) + LeBytes(w)
  {
    assert (words + [w])[..|words|] == words;
  }

  lemma FiveWords(a: nat, b: nat, c: nat, d: nat, e: nat)
    ensures Words([a, b, c, d, e]) == LeBytes(a) + LeBytes(b) + LeBytes(c) + LeBytes(d) + LeBytes(e)
  {
    OneMoreWord([], a);
    OneMoreWord([a], b);
    OneMoreWord([a, b], c);
    OneMoreWord([a, b, c], d);
    OneMoreWord([a, b, c, d], e);
    assert [] + [a] == [a] && [a] + [b] == [a, b] && [a, b] + [c] == [a, b, c];
    assert [a, b, c] + [d] == [a, b, c, d] && [a, b, c, d] + [e] == [a, b, c, d, e];
  }

  // ----- Reading an assembled file back

  /** The bytes of `part` lie in `file` at a place. */
  ghost predicate LiesAt(file: Bytes, at: nat, part: Bytes) {
    at + |part| <= |file| && file[at..at + |part|] == part
  }

  lemma LiesItself(s: Bytes)
    ensures LiesAt(s, 0, s)
  {
    assert s[0..|s|] == s;
  }

  lemma LiesFirst(a: Bytes, b: Bytes)
    ensures LiesAt(a + b, 0, a)
    ensures forall at: nat, part | LiesAt(b, at, part) :: LiesAt(a + b, |a| + at, part)
  {
    forall at: nat, part | LiesAt(b, at, part)
      ensures LiesAt(a + b, |a| + at, part)
    {
      assert (a + b)[|a| + at..|a| + at + |part|] == b[at..at + |part|];
    }
  }

  lemma LiesInside(file: Bytes, at: nat, whole: Bytes, inner: nat, part: Bytes)
    requires LiesAt(file, at, whole) && LiesAt(whole, inner, part)
    ensures LiesAt(file, at + inner, part)
  {
    var found, slice := file[at + inner..at + inner + |part|], file[at..at + |whole|];
    assert forall k | 0 <= k < |part| :: found[k] == slice[inner + k] == slice[inner..inner + |part|][k];
    assert found == part;
  }

  lemma WordLies(file: Bytes, at: nat, v: nat)
    requires LiesAt(file, at, LeBytes(v))
    ensures U32At(file, at) == v % TWO_32
  {
    WordInSlice(file, at);
    WordOfBytes(v);
  }

  lemma HeaderLies(a: Bytes, b: Bytes, c: Bytes, chunks: Bytes)
    requires |a| == |b| == |c| == 4
    ensures var file := a + (b + (c + chunks));
            && |file| == 12 + |chunks|
            && LiesAt(file, 0, a) && LiesAt(file, 4, b) && LiesAt(file, 8, c) && LiesAt(file, 12, chunks)
  {
    LiesFirst(c, chunks);
    LiesFirst(b, c + chunks);
    LiesFirst(a, b + (c + chunks));
    LiesItself(chunks);
    assert LiesAt(c + chunks, 4 + 0, chunks);
  }

  lemma ChunkLies(kind: nat, data: Bytes)
    ensures var chunk := Chunk(kind, data);
            LiesAt(chunk, 0, LeBytes(|data|)) && LiesAt(chunk, 4, LeBytes(kind)) && LiesAt(chunk, 8, data)
  {
    LiesFirst(LeBytes(kind), data);
    LiesFirst(LeBytes(|data|), LeBytes(kind) + data);
    LiesItself(data);
    assert LiesAt(LeBytes(kind) + data, 4 + 0, data);
  }

  /** A chunk as its length field delimits it. */
  datatype ReadChunk = NoChunk | ChunkIs(kind: nat, data: Bytes, next: nat)

  function ChunkAt(file: Bytes, at: nat): ReadChunk {
    if at + 8 > |file| || at + 8 + U32At(file, at) > |file| then NoChunk
    else
      var end := at + 8 + U32At(file, at);
      ChunkIs(U32At(file, at + 4), file[at + 8..end], end)
  }

  lemma ChunkFieldsLie(file: Bytes, at: nat, kind: nat, data: Bytes)
    requires LiesAt(file, at, Chunk(kind, data))
    ensures LiesAt(file, at, LeBytes(|data|)) && LiesAt(file, at + 4, LeBytes(kind)) && LiesAt(file, at + 8, data)
  {
    ChunkLies(kind, data);
    LiesInside(file, at, Chunk(kind, data), 0, LeBytes(|data|));
    LiesInside(file, at, Chunk(kind, data), 4, LeBytes(kind));
    LiesInside(file, at, Chunk(kind, data), 8, data);
  }

  lemma ChunkOfFields(file: Bytes, at: nat, kind: nat, data: Bytes)
    requires at + 8 + |data| <= |file| && file[at + 8..at + 8 + |data|] == data
    requires U32At(file, at) == |data| && U32At(file, at + 4) == kind
    ensures ChunkAt(file, at) == ChunkIs(kind, data, at + 8 + |data|)
  {
  }

  lemma ReadsChunk(file: Bytes, at: nat, kind: nat, data: Bytes)
    requires LiesAt(file, at, Chunk(kind, data)) && |data| < TWO_32 && kind < TWO_32
    ensures ChunkAt(file, at) == ChunkIs(kind, data, at + 8 + |data|)
  {
    ChunkFieldsLie(file, at, kind, data);
    WordLies(file, at, |data|);
    WordLies(file, at + 4, kind);
    ChunkOfFields(file, at, kind, data);
  }

  function TotalOf(json: Bytes, bin: Bytes): nat {
    28 + |Padded(json, SPACE)| + |Padded(bin, ZERO)|
  }

  function ChunksOf(json: Bytes, bin: Bytes): Bytes {
    Chunk(CHUNK_JSON, Padded(json, SPACE)) + Chunk(CHUNK_BIN, Padded(bin, ZERO))
  }

  /** Where everything lies in an assembled file. */
  lemma AssembledLies(json: Bytes, bin: Bytes)
    ensures var file := Assembled(json, bin);
            && |file| == TotalOf(json, bin)
            && LiesAt(file, 0, LeBytes(MAGIC))
            && LiesAt(file, 4, LeBytes(VERSION))
            && LiesAt(file, 8, LeBytes(|file|))
            && LiesAt(file, 12, ChunksOf(json, bin))
  {
    HeaderLies(LeBytes(MAGIC), LeBytes(VERSION), LeBytes(TotalOf(json, bin)), ChunksOf(json, bin));
  }

  lemma ChunksLie(json: Bytes, bin: Bytes)
    ensures var file, padded := Assembled(json, bin), Padded(json, SPACE);
            && LiesAt(file, 12, Chunk(CHUNK_JSON, padded))
            && LiesAt(file, 20 + |padded|, Chunk(CHUNK_BIN, Padded(bin, ZERO)))
  {
    var first, second := Chunk(CHUNK_JSON, Padded(json, SPACE)), Chunk(CHUNK_BIN, Padded(bin, ZERO));
    AssembledLies(json, bin);
    LiesFirst(first, second);
    LiesItself(second);
    assert LiesAt(first + second, |first| + 0, second);
    LiesInside(Assembled(json, bin), 12, ChunksOf(json, bin), 0, first);
    LiesInside(Assembled(json, bin), 12, ChunksOf(json, bin), |first|, second);
  }

  lemma ChecksFile(file: Bytes, length: nat)
    requires |file| >= MIN_LEN
    requires U32At(file, 0) == MAGIC && U32At(file, 4) == VERSION
    requires U32At(file, 8) == length && U32At(file, 16) == CHUNK_JSON
    ensures Check(file) == if length == |file| then Good else Bad(NotLength(length, |file|))
  {
  }

  lemma HeaderWords(json: Bytes, bin: Bytes)
    ensures var file := Assembled(json, bin);
            && |file| >= MIN_LEN
            && U32At(file, 0) == MAGIC && U32At(file, 4) == VERSION
            && U32At(file, 8) == |file| % TWO_32
  {
    AssembledLies(json, bin);
    WordLies(Assembled(json, bin), 0, MAGIC);
    WordLies(Assembled(json, bin), 4, VERSION);
    WordLies(Assembled(json, bin), 8, |Assembled(json, bin)|);
  }

  lemma FirstChunkWord(json: Bytes, bin: Bytes)
    ensures var file := Assembled(json, bin);
            |file| >= MIN_LEN && U32At(file, 16) == CHUNK_JSON
  {
    AssembledLies(json, bin);
    ChunksLie(json, bin);
    ChunkFieldsLie(Assembled(json, bin), 12, CHUNK_JSON, Padded(json, SPACE));
    WordLies(Assembled(json, bin), 16, CHUNK_JSON);
  }

  lemma FitsIff(n: nat)
    ensures n % TWO_32 == n <==> n < TWO_32
  {
  }

  lemma AssembledChecks(json: Bytes, bin: Bytes, file: Bytes)
    requires file == Assembled(json, bin)
    ensures Check(file) == if |file| < TWO_32 then Good else Bad(NotLength(|file| % TWO_32, |file|))
  {
    HeaderWords(json, bin);
    FirstChunkWord(json, bin);
    FitsIff(|file|);
    ChecksFile(file, |file| % TWO_32);
  }

  /** An assembled file passes the check exactly when its length fits the header's 32 bits; if it
      does not, the check finds the length wrong. */
  lemma AssembledChecksIff(json: Bytes, bin: Bytes)
    ensures var file := Assembled(json, bin);
            Check(file) == if |file| < TWO_32 then Good else Bad(NotLength(|file| % TWO_32, |file|))
  {
    AssembledChecks(json, bin, Assembled(json, bin));
  }

  lemma ChunksFit(json: Bytes, bin: Bytes)
    requires |Assembled(json, bin)| < TWO_32
    ensures |Padded(json, SPACE)| < TWO_32 && |Padded(bin, ZERO)| < TWO_32
    ensures |Assembled(json, bin)| == 28 + |Padded(json, SPACE)| + |Padded(bin, ZERO)|
  {
    AssembledLies(json, bin);
  }

  lemma ChunksRead(json: Bytes, bin: Bytes, file: Bytes, padJson: Bytes, padBin: Bytes)
    requires file == Assembled(json, bin) && |file| < TWO_32
    requires padJson == Padded(json, SPACE) && padBin == Padded(bin, ZERO)
    ensures ChunkAt(file, 12) == ChunkIs(CHUNK_JSON, padJson, 20 + |padJson|)
    ensures ChunkAt(file, 20 + |padJson|) == ChunkIs(CHUNK_BIN, padBin, |file|)
  {
    ChunksFit(json, bin);
    ChunksLie(json, bin);
    ReadsChunk(file, 12, CHUNK_JSON, padJson);
    ReadsChunk(file, 20 + |padJson|, CHUNK_BIN, padBin);
  }

  /** Both padded chunks are read back by their length fields, and the second ends the file. */
  lemma ChunksReadBack(json: Bytes, bin: Bytes)
    ensures var file, padJson, padBin := Assembled(json, bin), Padded(json, SPACE), Padded(bin, ZERO);
            |file| < TWO_32 ==>
              && ChunkAt(file, 12) == ChunkIs(CHUNK_JSON, padJson, 20 + |padJson|)
              && ChunkAt(file, 20 + |padJson|) == ChunkIs(CHUNK_BIN, padBin, |file|)
  {
    if |Assembled(json, bin)| < TWO_32 {
      ChunksRead(json, bin, Assembled(json, bin), Padded(json, SPACE), Padded(bin, ZERO));
    }
  }

  // ----- Views of the binary buffer

  datatype Blob = Blob(bytes: Bytes, target: Option<nat>)

  datatype View = View(byteOffset: nat, byteLength: nat, target: Option<nat>)

  function ViewAt(bin: Bytes, blob: Blob): View {
    View(|bin|, |blob.bytes|, blob.target)
  }

  function PushBytes(bin: Bytes, blob: Blob): Bytes {
    Padded(bin + blob.bytes, ZERO)
  }

  /** The buffer after pushing the blobs one by one. */
  function BufferOf(blobs: seq<Blob>): Bytes {
    if blobs == [] then [] else PushBytes(BufferOf(blobs[..|blobs| - 1]), blobs[|blobs| - 1])
  }

  /** And the views: each starts where the buffer before it ended. */
  function ViewsOf(blobs: seq<Blob>): (views: seq<View>)
    ensures |views| == |blobs|
  {
    if blobs == [] then []
    else ViewsOf(blobs[..|blobs| - 1]) + [ViewAt(BufferOf(blobs[..|blobs| - 1]), blobs[|blobs| - 1])]
  }

  /** The view shows the blob, aligned. */
  ghost predicate Shows(bin: Bytes, v: View, blob: Blob) {
    && v.byteOffset % 4 == 0
    && v.byteLength == |blob.bytes| && v.target == blob.target
    && LiesAt(bin, v.byteOffset, blob.bytes)
  }

  lemma GrownStillShows(bin: Bytes, more: Bytes, v: View, blob: Blob)
    requires Shows(bin, v, blob) && bin <= more
    ensures Shows(more, v, blob)
  {
    var end := v.byteOffset + |blob.bytes|;
    assert more[v.byteOffset..end] == bin[v.byteOffset..end];
  }

  lemma PushedShows(bin: Bytes, blob: Blob)
    requires |bin| % 4 == 0
    ensures var bin' := PushBytes(bin, blob);
            |bin'| % 4 == 0 && bin <= bin' && Shows(bin', ViewAt(bin, blob), blob)
  {
    var grown := bin + blob.bytes;
    var bin' := Padded(grown, ZERO);
    assert bin'[..|grown|] == grown;
    assert bin'[|bin|..|grown|] == grown[|bin|..];
  }

  /** For any blobs in any number: the views are aligned, follow one another without overlapping,
      lie within the buffer, and read back as the blobs; and the buffer needs no more padding. */
  lemma {:induction false} ViewsReadBack(blobs: seq<Blob>)
    ensures |BufferOf(blobs)| % 4 == 0
    ensures forall i | 0 <= i < |blobs| :: Shows(BufferOf(blobs), ViewsOf(blobs)[i], blobs[i])
    ensures forall i, j | 0 <= i < j < |blobs| ::
              ViewsOf(blobs)[i].byteOffset + ViewsOf(blobs)[i].byteLength <= ViewsOf(blobs)[j].byteOffset
  {
    if blobs != [] {
      var n := |blobs| - 1;
      var before, bin, bin' := blobs[..n], BufferOf(blobs[..n]), BufferOf(blobs);
      ViewsReadBack(before);
      PushedShows(bin, blobs[n]);
      forall i | 0 <= i < n
        ensures ViewsOf(blobs)[i] == ViewsOf(before)[i]
        ensures Shows(bin', ViewsOf(blobs)[i], blobs[i])
        ensures ViewsOf(blobs)[i].byteOffset + ViewsOf(blobs)[i].byteLength <= |bin|
      {
        assert Shows(bin, ViewsOf(before)[i], before[i]);
        GrownStillShows(bin, bin', ViewsOf(before)[i], blobs[i]);
      }
    }
  }

  lemma PaddedAlready(bin: Bytes, fill: Byte)
    requires |bin| % 4 == 0
    ensures Padded(bin, fill) == bin
  {
  }

  lemma BufferLies(json: Bytes, bin: Bytes, file: Bytes)
    requires file == Assembled(json, bin) && |bin| % 4 == 0
    ensures LiesAt(file, 28 + |Padded(json, SPACE)|, bin)
  {
    PaddedAlready(bin, ZERO);
    ChunksLie(json, bin);
    ChunkFieldsLie(file, 20 + |Padded(json, SPACE)|, CHUNK_BIN, bin);
  }

  lemma BlobLies(file: Bytes, start: nat, bin: Bytes, v: View, blob: Blob)
    requires LiesAt(file, start, bin) && Shows(bin, v, blob)
    ensures LiesAt(file, start + v.byteOffset, blob.bytes)
  {
    LiesInside(file, start, bin, v.byteOffset, blob.bytes);
  }

  lemma BufferIsPadded(blobs: seq<Blob>)
    ensures |BufferOf(blobs)| % 4 == 0
  {
  }

  // The two lemmas below use `ViewsReadBack` for all of `blobs`: no induction is wanted in them.

  /** Wherever the buffer lies in a file, each blob is read back through its view. */
  lemma {:induction false} BlobsLie(file: Bytes, start: nat, blobs: seq<Blob>)
    requires LiesAt(file, start, BufferOf(blobs))
    ensures forall i | 0 <= i < |blobs| :: LiesAt(file, start + ViewsOf(blobs)[i].byteOffset, blobs[i].bytes)
  {
    ViewsReadBack(blobs);
    forall i | 0 <= i < |blobs|
      ensures LiesAt(file, start + ViewsOf(blobs)[i].byteOffset, blobs[i].bytes)
    {
      assert Shows(BufferOf(blobs), ViewsOf(blobs)[i], blobs[i]);
      BlobLies(file, start, BufferOf(blobs), ViewsOf(blobs)[i], blobs[i]);
    }
  }

  /** So it is in the file assembled from any blobs' buffer, behind the binary chunk's header. */
  lemma {:induction false} BlobsReadBackFromFile(json: Bytes, blobs: seq<Blob>)
    ensures var file, start := Assembled(json, BufferOf(blobs)), 28 + |Padded(json, SPACE)|;
            forall i | 0 <= i < |blobs| :: LiesAt(file, start + ViewsOf(blobs)[i].byteOffset, blobs[i].bytes)
  {
    BufferIsPadded(blobs);
    BufferLies(json, BufferOf(blobs), Assembled(json, BufferOf(blobs)));
    BlobsLie(Assembled(json, BufferOf(blobs)), 28 + |Padded(json, SPACE)|, blobs);
  }

  /** The buffer and its views while they are filled. */
  class BufferWriter {
    var bin: Bytes
    var views: seq<View>

    /** The writer has pushed exactly these blobs. */
    ghost predicate Holds(blobs: seq<Blob>)
      reads this
    {
      bin == BufferOf(blobs) && views == ViewsOf(blobs)
    }

    constructor ()
      ensures Holds([])
    {
      bin, views := [], [];
    }

    method Push(blob: Blob) returns (index: nat)
      modifies this
      ensures bin == PushBytes(old(bin), blob)
      ensures views == old(views) + [ViewAt(old(bin), blob)]
      ensures index == |old(views)|
    {
      var offset := |bin|;
      bin := bin + blob.bytes;
      ghost var grown := bin;
      while |bin| % 4 != 0
        invariant grown <= bin && |bin| <= |grown| + Padding(|grown|)
        invariant forall i | |grown| <= i < |bin| :: bin[i] == ZERO
        invariant views == old(views)
        decreases |grown| + Padding(|grown|) - |bin|
      {
        bin := bin + [ZERO];
      }
      PaddingIsLeast(|grown|, |bin| - |grown|);
      assert bin == Padded(grown, ZERO);
      views := views + [View(offset, |blob.bytes|, blob.target)];
      index := |views| - 1;
    }

    /** A view for each blob, as the cube's five are written. */
    method PushAll(blobs: seq<Blob>)
      requires Holds([])
      modifies this
      ensures Holds(blobs)
    {
      var i := 0;
      while i < |blobs|
        invariant 0 <= i <= |blobs|
        invariant Holds(blobs[..i])
      {
        var _ := Push(blobs[i]);
        i := i + 1;
        assert blobs[..i][..i - 1] == blobs[..i - 1];
      }
      assert blobs[..|blobs|] == blobs;
    }
  }
}
