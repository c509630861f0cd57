/** `make_zip` of `evidence_archive.py`: the bytes it writes, their exact length, and that
    `read_zip` under custody returns the very files that were packed. */
module ZipWriter {
  import opened Common
  import opened Tiling
  import opened ZipFormat
  import opened ZipReader

  predicate Writable(f: File) {
    SafePath(f.name) && |f.data| <= FILE_BYTES
  }

  predicate AllWritable(files: seq<File>) {
    forall f | f in files :: Writable(f)
  }

  /** Checksum, packed size and size: equal for a stored member. */
  function Measures(tools: Tools, f: File): (r: Bytes)
    ensures |r| == 12
  {
    var c, n := tools.crc(f.data), |f.data|;
    [B0(c), B1(c), B2(c), B3(c), B0(n), B1(n), B2(n), B3(n), B0(n), B1(n), B2(n), B3(n)]
  }

  /** Version 2.0, no flags, stored, midnight of the first of January 1980. */
  const LOCAL_PREFIX: Bytes := [0x50, 0x4B, 3, 4, 20, 0, 0, 0, 0, 0, 0, 0, 33, 0]

  function NameLength(k: nat): (r: Bytes)
    ensures |r| == 4
  {
    [B0(k), B1(k), 0, 0]
  }

  function LocalHeader(tools: Tools, f: File): (r: Bytes)
    ensures |r| == 30
  {
    LOCAL_PREFIX + Measures(tools, f) + NameLength(|f.name|)
  }

  function LocalRecord(tools: Tools, f: File): (r: Bytes)
    requires Writable(f)
    ensures |r| == 30 + |f.name| + |f.data|
  {
    LocalHeader(tools, f) + Encode(f.name) + f.data
  }

  /** The same, made by version 2.0 on UNIX. */
  const CENTRAL_PREFIX: Bytes := [0x50, 0x4B, 1, 2, 20, 3, 20, 0, 0, 0, 0, 0, 0, 0, 33, 0]

  /** A regular file with mode 0644, and where it begins. */
  function CentralSuffix(k: nat, offset: nat): (r: Bytes)
    ensures |r| == 18
  {
    [B0(k), B1(k), 0, 0, 0, 0, 0, 0, 0, 0, 0, 0, 0xA4, 0x81, B0(offset), B1(offset), B2(offset), B3(offset)]
  }

  function CentralHeader(tools: Tools, f: File, offset: nat): (r: Bytes)
    ensures |r| == 46
  {
    CENTRAL_PREFIX + Measures(tools, f) + CentralSuffix(|f.name|, offset)
  }

  function CentralRecord(tools: Tools, f: File, offset: nat): (r: Bytes)
    requires Writable(f)
    ensures |r| == 46 + |f.name|
  {
    CentralHeader(tools, f, offset) + Encode(f.name)
  }

  function EndRecord(count: nat, size: nat, offset: nat): (r: Bytes)
    ensures |r| == 22
  {
    [0x50, 0x4B, 5, 6, 0, 0, 0, 0, B0(count), B1(count), B0(count), B1(count),
     B0(size), B1(size), B2(size), B3(size), B0(offset), B1(offset), B2(offset), B3(offset), 0, 0]
  }

  /** The members, one after the other. */
  function Body(tools: Tools, files: seq<File>): Bytes
    requires AllWritable(files)
  {
    if files == [] then [] else Body(tools, files[..|files| - 1]) + LocalRecord(tools, files[|files| - 1])
  }

  /** The directory, with the offset of each member. */
  function Index(tools: Tools, files: seq<File>): Bytes
    requires AllWritable(files)
  {
    if files == [] then []
    else
      var before := files[..|files| - 1];
      Index(tools, before) + CentralRecord(tools, files[|files| - 1], |Body(tools, before)|)
  }

  function Zip(tools: Tools, files: seq<File>): Bytes
    requires AllWritable(files)
  {
    var body, index := Body(tools, files), Index(tools, files);
    body + index + EndRecord(|files|, |index|, |body|)
  }

  /** The sum checked before anything is written. */
  function ArchiveSize(files: seq<File>): nat {
    if files == [] then 22
    else
      var f := files[|files| - 1];
      ArchiveSize(files[..|files| - 1]) + |f.data| + 2 * |f.name| + 76
  }

  /** The length of the archive is exactly that sum. */
  lemma {:induction false} ZipSize(tools: Tools, files: seq<File>)
    requires AllWritable(files)
    ensures |Body(tools, files)| + |Index(tools, files)| + 22 == ArchiveSize(files) == |Zip(tools, files)|
  {
    if files != [] {
      assert forall f | f in files[..|files| - 1] :: f in files;
      ZipSize(tools, files[..|files| - 1]);
    }
  }

  // ------------------------------------------------------------ reading it back

  /** What the directory says of a written file. */
  function Written(tools: Tools, f: File, offset: nat): Info
    requires Writable(f)
  {
    Info(3, 20, 0, 0, 0, 33, tools.crc(f.data), |f.data|, |f.data|, Encode(f.name), 0, 0, 33188 * 65536, offset)
  }

  function AllWritten(tools: Tools, files: seq<File>): (r: seq<Info>)
    requires AllWritable(files)
    ensures |r| == |files|
  {
    if files == [] then []
    else
      var before := files[..|files| - 1];
      AllWritten(tools, before) + [Written(tools, files[|files| - 1], |Body(tools, before)|)]
  }

  lemma ThreeParts(a: Bytes, b: Bytes, c: Bytes)
    ensures (a + b + c)[..|a|] == a
    ensures (a + b + c)[|a|..|a| + |b|] == b
    ensures (a + b + c)[|a| + |b|..] == c
  {
    var ab, all := a + b, a + b + c;
    assert all[..|ab|] == ab && all[..|a|] == ab[..|a|];
    assert all[|a|..|ab|] == ab[|a|..] == b;
  }

  /** A slice of a slice. */
  lemma SliceOf(raw: Bytes, p: nat, record: Bytes, lo: nat, hi: nat)
    requires p + |record| <= |raw| && raw[p..p + |record|] == record && lo <= hi <= |record|
    ensures raw[p + lo..p + hi] == record[lo..hi]
  {
    assert forall k :: 0 <= k < |record| ==> raw[p + k] == record[k];
  }

  lemma MeasuresRead(tools: Tools, f: File)
    requires Writable(f)
    ensures var m := Measures(tools, f);
            U32(m, 0) == tools.crc(f.data) && U32(m, 4) == |f.data| && U32(m, 8) == |f.data|
  {
    BytesOfWord(tools.crc(f.data));
    BytesOfWord(|f.data|);
    hide B0, B1, B2, B3;
  }

  lemma SuffixRead(k: nat, offset: word)
    requires k <= PATH_BYTES
    ensures var s := CentralSuffix(k, offset);
            && U16(s, 0) == k && U16(s, 2) == 0 && U16(s, 4) == 0
            && U32(s, 10) == 33188 * 65536 && U32(s, 14) == offset
  {
    BytesOfHalf(k);
    BytesOfWord(offset);
    hide B0, B1, B2, B3;
  }

  lemma PrefixRead()
    ensures CENTRAL_PREFIX[..4] == CENTRAL && CENTRAL_PREFIX[5] == 3 && CENTRAL_PREFIX[6] == 20
    ensures U16(CENTRAL_PREFIX, 8) == 0 && U16(CENTRAL_PREFIX, 10) == 0
    ensures U16(CENTRAL_PREFIX, 12) == 0 && U16(CENTRAL_PREFIX, 14) == 33
    ensures LOCAL_PREFIX[..4] == LOCAL && U16(LOCAL_PREFIX, 6) == 0 && U16(LOCAL_PREFIX, 8) == 0
  {
    Signature(CENTRAL_PREFIX, CENTRAL);
    Signature(LOCAL_PREFIX, LOCAL);
  }

  lemma Signature(h: Bytes, signature: Bytes)
    requires |signature| == 4 <= |h|
    requires h[0] == signature[0] && h[1] == signature[1] && h[2] == signature[2] && h[3] == signature[3]
    ensures h[..4] == signature
  {
  }

  /** A header of three parts, found at `p`, has each part in its place. */
  lemma PartsAt(raw: Bytes, p: nat, a: Bytes, b: Bytes, c: Bytes)
    requires p + |a| + |b| + |c| <= |raw| && raw[p..p + |a| + |b| + |c|] == a + b + c
    ensures raw[p..p + |a|] == a
    ensures raw[p + |a|..p + |a| + |b|] == b
    ensures raw[p + |a| + |b|..p + |a| + |b| + |c|] == c
  {
    var all := a + b + c;
    ThreeParts(a, b, c);
    SliceOf(raw, p, all, 0, |a|);
    SliceOf(raw, p, all, |a|, |a| + |b|);
    SliceOf(raw, p, all, |a| + |b|, |all|);
  }

  /** A central record is parsed back into what was written. */
  lemma CentralParsed(tools: Tools, raw: Bytes, p: nat, stop: nat, f: File, offset: word)
    requires Writable(f) && p + 46 + |f.name| <= stop <= |raw|
    requires raw[p..p + 46 + |f.name|] == CentralRecord(tools, f, offset)
    ensures CentralAt(raw, p, stop) && CentralSize(raw, p) == 46 + |f.name|
    ensures CentralInfo(raw, p) == Written(tools, f, offset)
  {
    hide CentralHeader, Encode, SafePath;
    NameFits(f);
    var record, header, name := CentralRecord(tools, f, offset), CentralHeader(tools, f, offset), Encode(f.name);
    assert record[..46] == header && record[46..] == name;
    SliceOf(raw, p, record, 0, 46);
    SliceOf(raw, p, record, 46, |record|);
    hide U16, U32;
    CentralHeaderRead(tools, raw, p, f, offset);
  }

  lemma CentralHeaderRead(tools: Tools, raw: Bytes, p: nat, f: File, offset: word)
    requires Writable(f) && p + 46 <= |raw| && raw[p..p + 46] == CentralHeader(tools, f, offset)
    ensures raw[p..p + 4] == CENTRAL && raw[p + 5] == 3 && raw[p + 6] == 20
    ensures U16(raw, p + 8) == 0 && U16(raw, p + 10) == 0 && U16(raw, p + 12) == 0 && U16(raw, p + 14) == 33
    ensures U32(raw, p + 16) == tools.crc(f.data) && U32(raw, p + 20) == |f.data| && U32(raw, p + 24) == |f.data|
    ensures U16(raw, p + 28) == |f.name| && U16(raw, p + 30) == 0 && U16(raw, p + 32) == 0
    ensures U32(raw, p + 38) == 33188 * 65536 && U32(raw, p + 42) == offset
  {
    hide U16, U32, Measures, CentralSuffix, SafePath;
    var a, m, s := CENTRAL_PREFIX, Measures(tools, f), CentralSuffix(|f.name|, offset);
    PrefixRead();
    MeasuresRead(tools, f);
    assert |f.name| <= PATH_BYTES by { NameFits(f); }
    SuffixRead(|f.name|, offset);
    PartsAt(raw, p, a, m, s);
    SliceOf(raw, p, a, 0, 4);
    assert raw[p + 5] == raw[p..p + 16][5] && raw[p + 6] == raw[p..p + 16][6];
    FieldAt(raw, p, a, 8);
    FieldAt(raw, p, a, 10);
    FieldAt(raw, p, a, 12);
    FieldAt(raw, p, a, 14);
    FieldAt(raw, p + 16, m, 0);
    FieldAt(raw, p + 16, m, 4);
    FieldAt(raw, p + 16, m, 8);
    FieldAt(raw, p + 28, s, 0);
    FieldAt(raw, p + 28, s, 2);
    FieldAt(raw, p + 28, s, 4);
    FieldAt(raw, p + 28, s, 10);
    FieldAt(raw, p + 28, s, 14);
  }

  lemma NameFits(f: File)
    requires Writable(f)
    ensures 0 < |f.name| <= PATH_BYTES && forall c | c in f.name :: Plain(c)
  {
  }

  lemma LocalHeaderRead(tools: Tools, raw: Bytes, p: nat, f: File)
    requires Writable(f) && p + 30 <= |raw| && raw[p..p + 30] == LocalHeader(tools, f)
    ensures raw[p..p + 4] == LOCAL && U16(raw, p + 6) == 0 && U16(raw, p + 8) == 0
    ensures U32(raw, p + 14) == tools.crc(f.data) && U32(raw, p + 18) == |f.data| && U32(raw, p + 22) == |f.data|
    ensures U16(raw, p + 26) == |f.name| && U16(raw, p + 28) == 0
  {
    var a, m, s := LOCAL_PREFIX, Measures(tools, f), NameLength(|f.name|);
    PrefixRead();
    MeasuresRead(tools, f);
    NameFits(f);
    BytesOfHalf(|f.name|);
    assert U16(s, 0) == |f.name| && U16(s, 2) == 0;
    hide U16, U32, Measures, NameLength, SafePath;
    PartsAt(raw, p, a, m, s);
    SliceOf(raw, p, a, 0, 4);
    FieldAt(raw, p, a, 6);
    FieldAt(raw, p, a, 8);
    FieldAt(raw, p + 14, m, 0);
    FieldAt(raw, p + 14, m, 4);
    FieldAt(raw, p + 14, m, 8);
    FieldAt(raw, p + 26, s, 0);
    FieldAt(raw, p + 26, s, 2);
  }

  /** The reader takes this entry for this file. */
  predicate ReadsAs(tools: Tools, raw: Bytes, info: Info, f: File) {
    && info.offset + 30 <= |raw| && DataStop(raw, info) <= |raw|
    && Plaintext(tools, raw, info) == Some(f.data) && Name(info) == f.name && info.size == |f.data|
  }

  /** A written member passes every test of the reader, and its bytes are the file's. */
  lemma MemberReadBack(tools: Tools, raw: Bytes, start: nat, f: File, offset: word)
    requires Writable(f) && !tools.secret(f.name, f.data)
    requires offset + 30 + |f.name| + |f.data| <= start <= |raw|
    requires raw[offset..offset + 30 + |f.name| + |f.data|] == LocalRecord(tools, f)
    ensures var info := Written(tools, f, offset);
            && MemberOk(tools, raw, start, info, true) && ReadsAs(tools, raw, info, f)
            && Extent(raw, info) == Range(offset, offset + 30 + |f.name| + |f.data|)
  {
    hide LocalHeader, Encode, UpToNul, Text, SafePath, U16, U32;
    NameFits(f);
    TextOfEncoded(f.name);
    NoNul(Encode(f.name));
    PartsAt(raw, offset, LocalHeader(tools, f), Encode(f.name), f.data);
    LocalHeaderRead(tools, raw, offset, f);
  }

  // --------------------------------------------------------- the whole archive

  lemma {:induction false} BodyAt(tools: Tools, files: seq<File>, i: nat)
    requires AllWritable(files) && i < |files|
    ensures AllWritable(files[..i]) && Writable(files[i])
    ensures var lo := |Body(tools, files[..i])|;
            var hi := lo + 30 + |files[i].name| + |files[i].data|;
            hi <= |Body(tools, files)| && Body(tools, files)[lo..hi] == LocalRecord(tools, files[i])
            && (i + 1 == |files| ==> hi == |Body(tools, files)|)
  {
    hide LocalRecord, Writable;
    var before := files[..|files| - 1];
    if i < |files| - 1 {
      assert before[..i] == files[..i] && before[i] == files[i];
      BodyAt(tools, before, i);
    }
  }

  lemma {:induction false} IndexAt(tools: Tools, files: seq<File>, i: nat)
    requires AllWritable(files) && i < |files|
    ensures AllWritable(files[..i]) && Writable(files[i])
    ensures var lo := |Index(tools, files[..i])|;
            var hi := lo + 46 + |files[i].name|;
            hi <= |Index(tools, files)|
            && Index(tools, files)[lo..hi] == CentralRecord(tools, files[i], |Body(tools, files[..i])|)
            && (i + 1 == |files| ==> hi == |Index(tools, files)|)
  {
    hide CentralRecord, Writable;
    var before := files[..|files| - 1];
    if i < |files| - 1 {
      assert before[..i] == files[..i] && before[i] == files[i];
      IndexAt(tools, before, i);
    }
  }

  lemma {:induction false} WrittenAt(tools: Tools, files: seq<File>, i: nat)
    requires AllWritable(files) && i < |files|
    ensures AllWritable(files[..i]) && Writable(files[i])
    ensures AllWritten(tools, files)[i] == Written(tools, files[i], |Body(tools, files[..i])|)
  {
    hide Written, Writable;
    var before := files[..|files| - 1];
    if i < |files| - 1 {
      assert before[..i] == files[..i] && before[i] == files[i];
      WrittenAt(tools, before, i);
    }
  }

  /** Where the next member and the next entry begin. */
  lemma NextPlaces(tools: Tools, files: seq<File>, i: nat)
    requires AllWritable(files) && i < |files|
    ensures AllWritable(files[..i]) && AllWritable(files[..i + 1])
    ensures |Body(tools, files[..i + 1])| == |Body(tools, files[..i])| + 30 + |files[i].name| + |files[i].data|
    ensures |Index(tools, files[..i + 1])| == |Index(tools, files[..i])| + 46 + |files[i].name|
  {
    assert files[..i + 1][..i] == files[..i] && files[..i + 1][i] == files[i];
  }

  /** What `make_zip` demands of a file list before and while it writes. */
  predicate Packable(tools: Tools, files: seq<File>) {
    && 0 < |files| <= MEMBERS
    && AllWritable(files) && ArchiveSize(files) <= ARCHIVE_BYTES
    && (forall f | f in files :: !tools.secret(f.name, f.data))
  }

  predicate AllCompatible(files: seq<File>) {
    forall i, j :: 0 <= i < j < |files| ==> Compatible(files[i].name, files[j].name)
  }

  /** The parts of the archive and how long they are. */
  lemma ZipParts(tools: Tools, files: seq<File>)
    requires Packable(tools, files)
    ensures var raw, body, index := Zip(tools, files), Body(tools, files), Index(tools, files);
            && |files| <= MEMBERS && |raw| == |body| + |index| + 22 <= ARCHIVE_BYTES
            && |body| < 0x1_0000_0000 && |index| < 0x1_0000_0000
            && raw[..|body|] == body && raw[|body|..|body| + |index|] == index
            && raw[|body| + |index|..] == EndRecord(|files|, |index|, |body|)
  {
    hide Body, Index, EndRecord;
    ZipSize(tools, files);
    ThreeParts(Body(tools, files), Index(tools, files), EndRecord(|files|, |Index(tools, files)|, |Body(tools, files)|));
  }

  lemma EndRead(tools: Tools, files: seq<File>)
    requires Packable(tools, files) && AllWritable(files)
    ensures var raw := Zip(tools, files);
            && EndOk(raw) && Count(raw) == |files|
            && DirectoryStart(raw) == |Body(tools, files)|
  {
    hide *;
    var raw, body, index := Zip(tools, files), Body(tools, files), Index(tools, files);
    ZipParts(tools, files);
    EndFields(|files|, |index|, |body|);
    EndFrom(raw, |raw| - 22, EndRecord(|files|, |index|, |body|));
    EndMeans(raw, |files|, |index|, |body|);
  }

  lemma EndMeans(raw: Bytes, count: nat, size: nat, offset: nat)
    requires 22 <= |raw| && size + offset == |raw| - 22
    requires var p := |raw| - 22;
             && raw[p..p + 4] == END && U16(raw, p + 4) == 0 && U16(raw, p + 6) == 0 && U16(raw, p + 20) == 0
             && U16(raw, p + 8) == count && U16(raw, p + 10) == count
             && U32(raw, p + 12) == size && U32(raw, p + 16) == offset
    ensures EndOk(raw) && Count(raw) == count && DirectoryStart(raw) == offset
  {
    hide U16, U32;
  }

  /** The fields of the end record that begins at `p`. */
  lemma EndFrom(raw: Bytes, p: nat, e: Bytes)
    requires |e| == 22 && p + 22 == |raw| && raw[p..] == e
    ensures raw[p..p + 4] == e[..4]
    ensures U16(raw, p + 4) == U16(e, 4) && U16(raw, p + 6) == U16(e, 6) && U16(raw, p + 8) == U16(e, 8)
    ensures U16(raw, p + 10) == U16(e, 10) && U32(raw, p + 12) == U32(e, 12) && U32(raw, p + 16) == U32(e, 16)
    ensures U16(raw, p + 20) == U16(e, 20)
  {
    hide U16, U32;
    assert raw[p..p + 22] == e;
    SliceOf(raw, p, e, 0, 4);
    FieldAt(raw, p, e, 4);
    FieldAt(raw, p, e, 6);
    FieldAt(raw, p, e, 8);
    FieldAt(raw, p, e, 10);
    FieldAt(raw, p, e, 12);
    FieldAt(raw, p, e, 16);
    FieldAt(raw, p, e, 20);
  }

  lemma EndFields(count: nat, size: word, offset: word)
    requires count <= MEMBERS
    ensures var e := EndRecord(count, size, offset);
            && e[..4] == END && U16(e, 4) == 0 && U16(e, 6) == 0 && U16(e, 8) == count && U16(e, 10) == count
            && U32(e, 12) == size && U32(e, 16) == offset && U16(e, 20) == 0
  {
    BytesOfHalf(count);
    BytesOfWord(size);
    BytesOfWord(offset);
    hide B0, B1, B2, B3;
    Signature(EndRecord(count, size, offset), END);
  }

  /** The directory, from its `i`-th entry on, is parsed into what was written. */
  lemma {:induction false} DirectoryRead(tools: Tools, files: seq<File>, i: nat)
    requires Packable(tools, files) && i <= |files|
    ensures AllWritable(files[..i])
    ensures var raw := Zip(tools, files);
            var p := |Body(tools, files)| + |Index(tools, files[..i])|;
            p <= |raw| - 22 && Directory(raw, p, |raw| - 22) == Some(AllWritten(tools, files)[i..])
    decreases |files| - i
  {
    hide Zip, Body, Index, AllWritten, Written, Directory, CentralAt, CentralInfo, CentralSize, ArchiveSize, Writable;
    var raw, written := Zip(tools, files), AllWritten(tools, files);
    ZipParts(tools, files);
    if i == |files| {
      assert files[..i] == files && written[i..] == [];
      DirectoryEnd(raw, |raw| - 22);
    } else {
      DirectoryRead(tools, files, i + 1);
      EntryRead(tools, files, i);
      NextPlaces(tools, files, i);
      WrittenAt(tools, files, i);
      assert written[i..] == [written[i]] + written[i + 1..];
      DirectoryStep(raw, |Body(tools, files)| + |Index(tools, files[..i])|, |raw| - 22, written[i], written[i + 1..]);
    }
  }

  lemma DirectoryEnd(raw: Bytes, stop: nat)
    requires stop <= |raw|
    ensures Directory(raw, stop, stop) == Some([])
  {
  }

  lemma DirectoryStep(raw: Bytes, p: nat, stop: nat, info: Info, rest: seq<Info>)
    requires p < stop <= |raw| && CentralAt(raw, p, stop) && CentralInfo(raw, p) == info
    requires Directory(raw, p + CentralSize(raw, p), stop) == Some(rest)
    ensures Directory(raw, p, stop) == Some([info] + rest)
  {
    hide CentralInfo;
  }

  lemma EntryRead(tools: Tools, files: seq<File>, i: nat)
    requires Packable(tools, files) && i < |files|
    ensures AllWritable(files[..i]) && Writable(files[i])
    ensures var raw := Zip(tools, files);
            var p := |Body(tools, files)| + |Index(tools, files[..i])|;
            && p + 46 + |files[i].name| <= |raw| - 22
            && CentralAt(raw, p, |raw| - 22) && CentralSize(raw, p) == 46 + |files[i].name|
            && CentralInfo(raw, p) == Written(tools, files[i], |Body(tools, files[..i])|)
  {
    hide CentralRecord, Written, CentralAt, CentralSize, CentralInfo, Zip, Body, Index, ArchiveSize;
    var raw, body, index, f := Zip(tools, files), Body(tools, files), Index(tools, files), files[i];
    ZipParts(tools, files);
    IndexAt(tools, files, i);
    BodyAt(tools, files, i);
    var lo, offset := |Index(tools, files[..i])|, |Body(tools, files[..i])|;
    SliceOf(raw, |body|, index, lo, lo + 46 + |f.name|);
    CentralParsed(tools, raw, |body| + lo, |raw| - 22, f, offset);
  }

  /** Every written member is read back, in its own place. */
  lemma WrittenReadBack(tools: Tools, files: seq<File>, i: nat)
    requires Packable(tools, files) && i < |files|
    ensures AllWritable(files[..i]) && AllWritable(files[..i + 1])
    ensures var raw, info := Zip(tools, files), AllWritten(tools, files)[i];
            && |Body(tools, files)| <= |raw|
            && MemberOk(tools, raw, |Body(tools, files)|, info, true) && ReadsAs(tools, raw, info, files[i])
            && Extent(raw, info) == Range(|Body(tools, files[..i])|, |Body(tools, files[..i + 1])|)
  {
    hide LocalRecord, Body, Index, Zip, ArchiveSize, MemberOk, ReadsAs, Extent, Name;
    var raw, body, f := Zip(tools, files), Body(tools, files), files[i];
    ZipParts(tools, files);
    BodyAt(tools, files, i);
    NextPlaces(tools, files, i);
    WrittenAt(tools, files, i);
    var lo := |Body(tools, files[..i])|;
    assert raw[0..|body|] == body;
    SliceOf(raw, 0, body, lo, lo + 30 + |f.name| + |f.data|);
    MemberReadBack(tools, raw, |body|, f, lo);
  }

  /** The extents of the written members, one behind the other, end at the directory. */
  lemma {:induction false} ExtentsSweep(tools: Tools, files: seq<File>, i: nat)
    requires Packable(tools, files) && i <= |files|
    ensures AllWritable(files[..i])
    ensures var all := Extents(Zip(tools, files), AllWritten(tools, files));
            Sweep(all[i..], |Body(tools, files[..i])|) == Some(|Body(tools, files)|)
    decreases |files| - i
  {
    hide Zip, Body, AllWritten, Extent, ArchiveSize, Writable;
    var all := Extents(Zip(tools, files), AllWritten(tools, files));
    if i == |files| {
      assert files[..i] == files && all[i..] == [];
    } else {
      WrittenReadBack(tools, files, i);
      ExtentsSweep(tools, files, i + 1);
      assert all[i..][0] == all[i] && all[i..][1..] == all[i + 1..];
    }
  }

  lemma ExtentsPartition(tools: Tools, files: seq<File>)
    requires Packable(tools, files)
    ensures Partition(Extents(Zip(tools, files), AllWritten(tools, files)), |Body(tools, files)|)
  {
    hide Zip, AllWritten, Extent, ArchiveSize, Writable, Partition, Sweep;
    var body := |Body(tools, files)|;
    var all := Extents(Zip(tools, files), AllWritten(tools, files));
    ExtentsSweep(tools, files, 0);
    assert files[..0] == [] && all[0..] == all;
    forall i | 0 <= i < |files|
      ensures all[i].lo < all[i].hi
    {
      WrittenReadBack(tools, files, i);
      NextPlaces(tools, files, i);
    }
    SweptIsPartition(all, body);
  }

  lemma SweptIsPartition(s: seq<Range>, end: nat)
    requires (forall i :: 0 <= i < |s| ==> s[i].lo < s[i].hi) && Sweep(s, 0) == Some(end)
    ensures Partition(s, end)
  {
    assert Nonempty(s);
    SweepGrows(s, 0, end);
    SweepPartitions(s, 0, end);
  }

  /** Reading what was written gives every file back under its name. */
  lemma {:induction false} ContentsAre(tools: Tools, raw: Bytes, files: seq<File>, infos: seq<Info>)
    requires |infos| == |files|
    requires forall i :: 0 <= i < |files| ==> ReadsAs(tools, raw, infos[i], files[i])
    ensures Contents(tools, raw, infos) == Unpacked(files)
    ensures Sizes(infos) <= ArchiveSize(files)
  {
    hide Plaintext, Name;
    if files != [] {
      var n := |files| - 1;
      assert forall i :: 0 <= i < n ==> infos[..n][i] == infos[i] && files[..n][i] == files[i];
      ContentsAre(tools, raw, files[..n], infos[..n]);
      assert ReadsAs(tools, raw, infos[n], files[n]);
    }
  }

  function Unpacked(files: seq<File>): map<string, Bytes> {
    if files == [] then map[] else Unpacked(files[..|files| - 1])[files[|files| - 1].name := files[|files| - 1].data]
  }

  /** The names of the written directory are the names packed. */
  lemma NamesAre(tools: Tools, files: seq<File>)
    requires Packable(tools, files)
    ensures var infos := AllWritten(tools, files);
            && (NamesOk(infos) <==> AllCompatible(files))
            && (Ascending(seq(|files|, i requires 0 <= i < |files| => files[i].name)) ==> NamesSorted(infos))
  {
    hide Zip, Body, AllWritten, MemberOk, Plaintext, Extent, Name, ArchiveSize, Writable, Compatible;
    var infos := AllWritten(tools, files);
    forall i | 0 <= i < |files|
      ensures Name(infos[i]) == files[i].name
    {
      WrittenReadBack(tools, files, i);
    }
    var names := seq(|files|, i requires 0 <= i < |files| => files[i].name);
    if Ascending(names) {
      forall i, j | 0 <= i < j < |infos|
        ensures !Less(Name(infos[j]), Name(infos[i]))
      {
        assert Less(names[i], names[j]);
        if Less(names[j], names[i]) {
          LessTransitive(names[i], names[j], names[i]);
          LessIrreflexive(names[i]);
        }
      }
    }
  }

  predicate NameOrdered(files: seq<File>) {
    Ascending(seq(|files|, i requires 0 <= i < |files| => files[i].name))
  }

  /** The round trip: what is written for acceptable files, in the order of their names, is
      readable under custody exactly when no names collide, and reads back as those files. */
  lemma RoundTrip(tools: Tools, files: seq<File>)
    requires Packable(tools, files) && NameOrdered(files)
    ensures var raw := Zip(tools, files);
            && LayoutOk(raw) && Infos(raw).value == AllWritten(tools, files)
            && (Readable(tools, raw, true) <==> AllCompatible(files))
            && Contents(tools, raw, Infos(raw).value) == Unpacked(files)
            && Affordable(raw, 0, 0)
  {
    hide Zip, Body, Index, AllWritten, MemberOk, Plaintext, Extents, Extent, Name, ArchiveSize, Writable,
      Compatible, Partition, NamesOk, NamesSorted, Directory, U16, U32, EndOk, Count, DirectoryStart, Contents, Unpacked, Sizes;
    var raw, infos := Zip(tools, files), AllWritten(tools, files);
    ZipParts(tools, files);
    EndRead(tools, files);
    DirectoryRead(tools, files, 0);
    assert files[..0] == [] && infos[0..] == infos;
    IndexOfNone(tools);
    NamesAre(tools, files);
    ExtentsPartition(tools, files);
    forall i | 0 <= i < |files|
      ensures MemberOk(tools, raw, DirectoryStart(raw), infos[i], true) && ReadsAs(tools, raw, infos[i], files[i])
    {
      WrittenReadBack(tools, files, i);
    }
    ContentsAre(tools, raw, files, infos);
  }

  lemma IndexOfNone(tools: Tools)
    ensures Index(tools, []) == [] && Body(tools, []) == []
  {
  }

  // ------------------------------------------------------------------ make_zip

  /** The files of a dictionary in the order of their names. */
  function FilesOf(files: map<string, Bytes>): (r: seq<File>)
    ensures |r| == |files|
    ensures forall i :: 0 <= i < |r| ==> r[i] == File(Sorted(files.Keys)[i], files[Sorted(files.Keys)[i]])
  {
    var names := Sorted(files.Keys);
    assert forall i :: 0 <= i < |names| ==> names[i] in files;
    seq(|names|, i requires 0 <= i < |names| => File(names[i], files[names[i]]))
  }

  lemma FilesOrdered(files: map<string, Bytes>)
    ensures NameOrdered(FilesOf(files))
  {
    var all, names := FilesOf(files), Sorted(files.Keys);
    assert seq(|all|, i requires 0 <= i < |all| => all[i].name) == names;
  }

  lemma {:induction false} UnpackedAt(files: seq<File>)
    requires NameOrdered(files)
    ensures forall f | f in files :: f.name in Unpacked(files) && Unpacked(files)[f.name] == f.data
    ensures forall n | n in Unpacked(files) :: exists f :: f in files && f.name == n
  {
    if files != [] {
      var before, last := files[..|files| - 1], files[|files| - 1];
      var names := seq(|files|, i requires 0 <= i < |files| => files[i].name);
      assert seq(|before|, i requires 0 <= i < |before| => before[i].name) == names[..|before|];
      UnpackedAt(before);
      forall f | f in before
        ensures f.name != last.name
      {
        var i :| 0 <= i < |before| && before[i] == f;
        assert names[i] == f.name && Less(names[i], names[|before|]);
        LessIrreflexive(f.name);
      }
      assert forall f | f in files :: f in before || f == last;
      assert last in files;
    }
  }

  lemma UnpackedIs(files: map<string, Bytes>)
    ensures Unpacked(FilesOf(files)) == files
  {
    hide Unpacked;
    var all, names := FilesOf(files), Sorted(files.Keys);
    FilesOrdered(files);
    UnpackedAt(all);
    forall n | n in files
      ensures n in Unpacked(all) && Unpacked(all)[n] == files[n]
    {
      var i :| 0 <= i < |names| && names[i] == n;
      assert all[i] in all;
    }
    forall n | n in Unpacked(all)
      ensures n in files
    {
      var f :| f in all && f.name == n;
    }
  }

  /** The precheck: the sum of the sizes, refusing an unsafe path or a file that is too large. */
  method CheckSizes(files: seq<File>) returns (ok: bool)
    ensures ok <==> AllWritable(files) && ArchiveSize(files) <= ARCHIVE_BYTES
  {
    var sum: nat := 22;
    for i := 0 to |files|
      invariant AllWritable(files[..i]) && sum == ArchiveSize(files[..i])
    {
      assert files[..i + 1][..i] == files[..i];
      if FILE_BYTES < |files[i].data| || !SafePath(files[i].name) {
        assert !Writable(files[i]) && files[i] in files;
        return false;
      }
      sum := sum + |files[i].data| + 2 * |files[i].name| + 76;
    }
    assert files[..|files|] == files;
    ok := sum <= ARCHIVE_BYTES;
  }

  /** The writing loop: members and directory, or None at a colliding name or a secret. */
  method WriteAll(tools: Tools, files: seq<File>) returns (raw: Option<Bytes>)
    requires AllWritable(files)
    ensures raw.Some? ==> raw.value == Zip(tools, files) && forall f | f in files :: !tools.secret(f.name, f.data)
    ensures raw.None? ==> !AllCompatible(files) || exists f | f in files :: tools.secret(f.name, f.data)
  {
    hide LocalRecord, CentralRecord, EndRecord, Lower, Above, Writable;
    var output: Bytes, index: Bytes, folded: set<string> := [], [], {};
    for i := 0 to |files|
      invariant AllWritable(files[..i]) && output == Body(tools, files[..i]) && index == Index(tools, files[..i])
      invariant forall j :: 0 <= j < i ==> !tools.secret(files[j].name, files[j].data)
      invariant forall f | f in folded :: exists j :: 0 <= j < i && Lower(files[j].name) == f
    {
      var f := files[i];
      assert files[..i + 1][..i] == files[..i] && files[..i + 1][i] == f && f in files;
      if Lower(f.name) in folded || tools.secret(f.name, f.data) {
        return None;
      }
      folded := folded + {Lower(f.name)};
      index := index + CentralRecord(tools, f, |output|);
      output := output + LocalRecord(tools, f);
    }
    assert files[..|files|] == files;
    raw := Some(output + index + EndRecord(|files|, |index|, |output|));
  }

  /** `make_zip`: exactly the acceptable files are packed, into exactly the checked number of
      bytes, and the result is readable under custody as those files. */
  method MakeZip(tools: Tools, files: map<string, Bytes>) returns (r: Result<Bytes, Invalid>)
    ensures r.Ok? <==> Packable(tools, FilesOf(files)) && AllCompatible(FilesOf(files))
    ensures r.Ok? ==> r.value == Zip(tools, FilesOf(files)) && |r.value| == ArchiveSize(FilesOf(files))
    ensures r.Ok? ==> Readable(tools, r.value, true) && Contents(tools, r.value, Infos(r.value).value) == files
  {
    hide Zip, AllWritable, AllCompatible, Readable, Contents, ArchiveSize, Affordable, LayoutOk, Unpacked, FilesOf, Sizes,
      NameOrdered;
    if files == map[] || MEMBERS < |files| {
      return Err(InvalidEvidence);
    }
    var all := FilesOf(files);
    var fits := CheckSizes(all);
    if !fits {
      return Err(InvalidEvidence);
    }
    var raw := WriteAll(tools, all);
    if raw.None? {
      return Err(InvalidEvidence);
    }
    FilesOrdered(files);
    RoundTrip(tools, all);
    UnpackedIs(files);
    ZipSize(tools, all);
    var budget := new ExpansionBudget();
    var read := ReadZip(tools, raw.value, budget, true);
    r := if read.Ok? then Ok(raw.value) else Err(InvalidEvidence);
  }
}
