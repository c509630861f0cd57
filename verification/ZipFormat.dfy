/** The ZIP records of PKWARE's APPNOTE that the evidence archives use: local headers
    (section 4.3.7), data descriptors (4.3.9), central headers (4.3.12) and the end record
    (4.3.16), as bytes; and the member names both readers and the writer allow. */
module ZipFormat {
  import opened Common
  import opened Tiling

  type Bytes = seq<byte>

  type word = n: nat | n < 0x1_0000_0000

  /** CRC-32, raw deflate (None when the stream is invalid or followed by data), the search
      for private keys and the validity of UTF-8: functions of the bytes. */
  datatype Tools = Tools(
    crc: Bytes -> word,
    inflate: Bytes -> Option<Bytes>,
    secret: (string, Bytes) -> bool,
    utf8: Bytes -> bool)

  datatype File = File(name: string, data: Bytes)

  const ARCHIVE_BYTES: nat := 64 * 1024 * 1024
  const FILE_BYTES: nat := 32 * 1024 * 1024
  const EXPANDED_BYTES: nat := 128 * 1024 * 1024
  const MEMBERS: nat := 4096
  const DEPTH: nat := 16
  const PATH_BYTES: nat := 512
  const CHUNK: nat := 64 * 1024

  const LOCAL: Bytes := [0x50, 0x4B, 3, 4]
  const CENTRAL: Bytes := [0x50, 0x4B, 1, 2]
  const END: Bytes := [0x50, 0x4B, 5, 6]
  const DESCRIPTOR: Bytes := [0x50, 0x4B, 7, 8]

  // -------------------------------------------------------------------- numbers

  function B0(n: nat): byte { n % 256 }

  function B1(n: nat): byte { n / 256 % 256 }

  function B2(n: nat): byte { n / 65536 % 256 }

  function B3(n: nat): byte { n / 16777216 % 256 }

  function U16(b: Bytes, p: nat): nat
    requires p + 2 <= |b|
  {
    b[p] as int + 256 * b[p + 1] as int
  }

  function U32(b: Bytes, p: nat): nat
    requires p + 4 <= |b|
  {
    b[p] as int + 256 * b[p + 1] as int + 65536 * b[p + 2] as int + 16777216 * b[p + 3] as int
  }

  lemma BytesOfHalf(n: nat)
    requires n < 0x10000
    ensures B0(n) as int + 256 * B1(n) as int == n
  {
  }

  lemma BytesOfWord(n: word)
    ensures B0(n) as int + 256 * B1(n) as int + 65536 * B2(n) as int + 16777216 * B3(n) as int == n
  {
    var low, high := n % 65536, n / 65536;
    assert n / 256 == 256 * high + low / 256;
    assert B0(n) as int + 256 * B1(n) as int == low;
    assert B2(n) as int + 256 * B3(n) as int == high;
  }

  function Bit(n: nat, weight: nat): bool
    requires 0 < weight
  {
    n / weight % 2 == 1
  }

  /** A field of a record found in a larger sequence is the field of the record. */
  lemma FieldAt(raw: Bytes, base: nat, record: Bytes, p: nat)
    requires base + |record| <= |raw| && raw[base..base + |record|] == record
    ensures p + 2 <= |record| ==> U16(raw, base + p) == U16(record, p)
    ensures p + 4 <= |record| ==> U32(raw, base + p) == U32(record, p)
  {
    assert forall k :: 0 <= k < |record| ==> raw[base + k] == record[k];
  }

  // ---------------------------------------------------------------------- names

  function Split(name: string): (parts: seq<string>)
    ensures parts != []
  {
    if name == [] then [[]]
    else
      var rest := Split(name[1..]);
      if name[0] == '/' then [[]] + rest else [[name[0]] + rest[0]] + rest[1..]
  }

  predicate Plain(c: char) {
    || 'A' <= c <= 'Z' || 'a' <= c <= 'z' || '0' <= c <= '9'
    || c == '_' || c == '.' || c == '/' || c == '+' || c == '-'
  }

  /** `safe_path`. */
  predicate SafePath(name: string) {
    && 0 < |name| <= PATH_BYTES
    && (forall c | c in name :: Plain(c))
    && |Split(name)| <= DEPTH
    && forall part | part in Split(name) :: part != "" && part != "." && part != ".."
  }

  function LowerChar(c: char): char {
    if 'A' <= c <= 'Z' then c - 'A' + 'a' else c
  }

  /** `casefold` on the characters a safe path may hold. */
  function Lower(name: string): (r: string)
    ensures |r| == |name|
  {
    seq(|name|, i requires 0 <= i < |name| => LowerChar(name[i]))
  }

  /** One path is a directory above the other. */
  predicate Above(a: string, b: string) {
    |a| < |b| && b[..|a|] == a && b[|a|] == '/'
  }

  predicate Compatible(a: string, b: string) {
    Lower(a) != Lower(b) && !Above(a, b) && !Above(b, a)
  }

  function Code(c: char): byte
    requires Plain(c)
  {
    c as int
  }

  function Encode(name: string): (r: Bytes)
    requires forall c | c in name :: Plain(c)
    ensures |r| == |name|
    ensures forall i :: 0 <= i < |r| ==> 32 < r[i] < 128 && r[i] as char == name[i]
  {
    if name == [] then [] else [Code(name[0])] + Encode(name[1..])
  }

  /** The text of ASCII bytes; neither code page 437 nor UTF-8 gives a safe path otherwise. */
  function Text(b: Bytes): Option<string> {
    if exists x | x in b :: 128 <= x then None
    else Some(seq(|b|, i requires 0 <= i < |b| => assert b[i] in b; b[i] as char))
  }

  lemma TextOfEncoded(name: string)
    requires forall c | c in name :: Plain(c)
    ensures Text(Encode(name)) == Some(name) && 0 !in Encode(name)
  {
    var b := Encode(name);
    assert forall x | x in b :: 32 < x < 128;
    assert Text(b).Some? && Text(b).value == name;
  }

  /** What the archive library keeps of a stored name: everything before the first NUL. */
  function UpToNul(b: Bytes): Bytes {
    if b == [] || b[0] == 0 then [] else [b[0]] + UpToNul(b[1..])
  }

  lemma {:induction false} NoNul(b: Bytes)
    requires 0 !in b
    ensures UpToNul(b) == b
  {
    if b != [] {
      NoNul(b[1..]);
    }
  }

  // ---------------------------------------------------------- central directory

  datatype Info = Info(
    system: nat, extract: nat, flags: nat, method_: nat, time: nat, date: nat, crc: nat, packed: nat, size: nat,
    stored: Bytes, extra: nat, comment: nat, external: nat, offset: nat)

  function NameOf(info: Info): Option<string> {
    Text(UpToNul(info.stored))
  }

  /** Fixed part, name, extra field and comment. */
  function CentralSize(raw: Bytes, p: nat): nat
    requires p + 46 <= |raw|
  {
    46 + U16(raw, p + 28) + U16(raw, p + 30) + U16(raw, p + 32)
  }

  function CentralInfo(raw: Bytes, p: nat): Info
    requires p + 46 <= |raw| && p + CentralSize(raw, p) <= |raw|
  {
    Info(raw[p + 5], raw[p + 6], U16(raw, p + 8), U16(raw, p + 10), U16(raw, p + 12), U16(raw, p + 14),
         U32(raw, p + 16), U32(raw, p + 20), U32(raw, p + 24),
         raw[p + 46..p + 46 + U16(raw, p + 28)], U16(raw, p + 30), U16(raw, p + 32),
         U32(raw, p + 38), U32(raw, p + 42))
  }

  /** A whole central header begins at `p` and ends by `stop`. */
  predicate CentralAt(raw: Bytes, p: nat, stop: nat)
    requires stop <= |raw|
  {
    p + 46 <= stop && raw[p..p + 4] == CENTRAL && p + CentralSize(raw, p) <= stop
  }

  /** The entries from `p` to exactly `stop`. */
  function Directory(raw: Bytes, p: nat, stop: nat): Option<seq<Info>>
    requires p <= stop <= |raw|
    decreases stop - p
  {
    if p == stop then Some([])
    else if !CentralAt(raw, p, stop) then None
    else
      var rest := Directory(raw, p + CentralSize(raw, p), stop);
      if rest.None? then None else Some([CentralInfo(raw, p)] + rest.value)
  }

  /** The end record: one disk, no comment, and a directory that reaches up to it. */
  predicate EndOk(raw: Bytes) {
    && 22 <= |raw|
    && var base := |raw| - 22;
    && raw[base..base + 4] == END
    && U16(raw, base + 4) == 0 && U16(raw, base + 6) == 0 && U16(raw, base + 20) == 0
    && U16(raw, base + 8) == U16(raw, base + 10)
    && U32(raw, base + 12) + U32(raw, base + 16) == base
  }

  function Count(raw: Bytes): nat
    requires EndOk(raw)
  {
    U16(raw, |raw| - 22 + 10)
  }

  function DirectoryStart(raw: Bytes): (start: nat)
    requires EndOk(raw)
    ensures start <= |raw| - 22
  {
    U32(raw, |raw| - 22 + 16)
  }

  function Infos(raw: Bytes): Option<seq<Info>>
    requires EndOk(raw)
  {
    Directory(raw, DirectoryStart(raw), |raw| - 22)
  }

  // ------------------------------------------------------------- one member

  /** Offsets of the data of a member and of the byte behind it, from its local header. */
  function DataStart(raw: Bytes, info: Info): nat
    requires info.offset + 30 <= |raw|
  {
    info.offset + 30 + U16(raw, info.offset + 26)
  }

  function DataStop(raw: Bytes, info: Info): nat
    requires info.offset + 30 <= |raw|
  {
    DataStart(raw, info) + info.packed
  }

  predicate Signed(raw: Bytes, stop: nat)
    requires stop <= |raw|
  {
    stop + 4 <= |raw| && raw[stop..stop + 4] == DESCRIPTOR
  }

  /** The byte behind the member, with its data descriptor when flag bit 3 announces one. */
  function MemberEnd(raw: Bytes, info: Info): nat
    requires info.offset + 30 <= |raw| && DataStop(raw, info) <= |raw|
  {
    var stop := DataStop(raw, info);
    if !Bit(info.flags, 8) then stop else stop + (if Signed(raw, stop) then 4 else 0) + 12
  }

  /** The descriptor repeats checksum and sizes of the directory. */
  predicate DescriptorOk(raw: Bytes, info: Info)
    requires info.offset + 30 <= |raw| && DataStop(raw, info) <= |raw|
  {
    var end := MemberEnd(raw, info);
    && 12 <= end <= |raw|
    && U32(raw, end - 12) == info.crc && U32(raw, end - 8) == info.packed && U32(raw, end - 4) == info.size
  }

  /** The expanded bytes of a member: as stored, or inflated. */
  function Expanded(tools: Tools, method_: nat, packed: Bytes): Option<Bytes> {
    if method_ == 0 then Some(packed) else tools.inflate(packed)
  }
}
