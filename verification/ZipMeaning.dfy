/** An archive `read_zip` accepts, spelled out on its bytes: where its headers are, what each of
    them says, and which bytes belong to which member. */
module ZipMeaning {
  import opened Common
  import opened Tiling
  import opened ZipFormat
  import opened ZipNames
  import opened ZipReader
  import opened ZipWriter

  /** The end record, and `count` directory headers one after the other from `heads[0]` up to it. */
  predicate Framed(raw: Bytes, heads: seq<nat>) {
    && 22 <= |raw| <= 67108864
    && var end := |raw| - 22;
    && var count := |heads| - 1;
    && raw[end] == 0x50 && raw[end + 1] == 0x4B && raw[end + 2] == 5 && raw[end + 3] == 6
    && U16(raw, end + 4) == 0 && U16(raw, end + 6) == 0 && U16(raw, end + 20) == 0
    && U16(raw, end + 8) == U16(raw, end + 10) == count
    && 0 <= count <= 4096
    && heads[0] == U32(raw, end + 16) && heads[0] + U32(raw, end + 12) == end && heads[count] == end
    && forall i :: 0 <= i < count ==> HeaderAt(raw, heads[i], heads[i + 1])
  }

  /** A directory header from `c` to `next`: 46 bytes, then its name, extra field and comment. */
  predicate HeaderAt(raw: Bytes, c: nat, next: nat) {
    && c + 46 <= next <= |raw| - 22
    && raw[c] == 0x50 && raw[c + 1] == 0x4B && raw[c + 2] == 1 && raw[c + 3] == 2
    && next == c + 46 + U16(raw, c + 28) + U16(raw, c + 30) + U16(raw, c + 32)
  }

  /** The name in the directory header at `c`, up to a NUL if there is one. */
  predicate NamedAt(raw: Bytes, c: nat, name: string)
    requires c + 46 <= |raw| && c + 46 + U16(raw, c + 28) <= |raw|
  {
    && |name| <= U16(raw, c + 28)
    && (forall k :: 0 <= k < |name| ==> raw[c + 46 + k] as int == name[k] as int)
    && (|name| < U16(raw, c + 28) ==> raw[c + 46 + |name|] == 0)
  }

  /** A regular file without encryption, extra field or comment, stored or deflated, no larger than
      32 MiB; under custody exactly as the writer writes it. */
  predicate PermittedAt(tools: Tools, raw: Bytes, c: nat, custody: bool)
    requires c + 46 <= |raw| && c + 46 + U16(raw, c + 28) <= |raw|
  {
    && raw[c + 6] <= 63
    && (U16(raw, c + 8) / 2048 % 2 == 1 ==> tools.utf8(raw[c + 46..c + 46 + U16(raw, c + 28)]))
    && U16(raw, c + 8) % 2 == 0
    && (U16(raw, c + 10) == 0 || U16(raw, c + 10) == 8)
    && U32(raw, c + 24) <= 33554432
    && U16(raw, c + 30) == 0 && U16(raw, c + 32) == 0
    && (U32(raw, c + 38) / 268435456 == 0 || U32(raw, c + 38) / 268435456 == 8)
    && U32(raw, c + 38) / 16 % 2 == 0
    && (custody ==>
          && raw[c + 5] == 3 && U16(raw, c + 10) == 0
          && U16(raw, c + 12) == 0 && U16(raw, c + 14) == 33 && U32(raw, c + 38) / 65536 == 33188)
  }

  /** The local header at `h` repeats the directory header at `c`; its name and `packed` bytes follow,
      and nothing reaches into the directory at `top`. */
  predicate LocalAt(raw: Bytes, c: nat, h: nat, top: nat, name: string)
    requires c + 46 <= |raw| && top <= |raw|
  {
    && h == U32(raw, c + 42)
    && h + 30 <= top
    && raw[h] == 0x50 && raw[h + 1] == 0x4B && raw[h + 2] == 3 && raw[h + 3] == 4
    && U16(raw, h + 6) == U16(raw, c + 8) && U16(raw, h + 8) == U16(raw, c + 10)
    && U16(raw, h + 26) == |name| && U16(raw, h + 28) == 0
    && U32(raw, c + 20) <= 67108864
    && h + 30 + |name| + U32(raw, c + 20) <= top
    && forall k :: 0 <= k < |name| ==> raw[h + 30 + k] as int == name[k] as int
  }

  /** Checksum, packed size and size, where the local header or the data descriptor has them. */
  predicate MeasuredAt(raw: Bytes, c: nat, p: nat)
    requires c + 46 <= |raw| && p + 12 <= |raw|
  {
    U32(raw, p) == U32(raw, c + 16) && U32(raw, p + 4) == U32(raw, c + 20) && U32(raw, p + 8) == U32(raw, c + 24)
  }

  /** Where the member ends: behind its data, or behind the descriptor flag bit 3 announces. */
  predicate EndsAt(raw: Bytes, c: nat, h: nat, top: nat, name: string, end: nat)
    requires c + 46 <= |raw| && top <= |raw| && LocalAt(raw, c, h, top, name)
  {
    var stop := h + 30 + |name| + U32(raw, c + 20);
    if U16(raw, c + 8) / 8 % 2 == 0 then end == stop && MeasuredAt(raw, c, h + 14)
    else
      var signed := stop + 4 <= |raw| && raw[stop] == 0x50 && raw[stop + 1] == 0x4B && raw[stop + 2] == 7 && raw[stop + 3] == 8;
      end == stop + (if signed then 16 else 12) && end <= top && MeasuredAt(raw, c, end - 12)
  }

  /** The bytes that follow are the data, stored or deflated, of the announced size and checksum, and
      hold no secret. */
  predicate DataAt(tools: Tools, raw: Bytes, c: nat, h: nat, top: nat, name: string, data: Bytes)
    requires c + 46 <= |raw| && top <= |raw| && LocalAt(raw, c, h, top, name)
  {
    var packed := raw[h + 30 + |name|..h + 30 + |name| + U32(raw, c + 20)];
    && (if U16(raw, c + 10) == 0 then data == packed else tools.inflate(packed) == Some(data))
    && |data| == U32(raw, c + 24)
    && tools.crc(data) == U32(raw, c + 16)
    && !tools.secret(name, data)
  }

  datatype Member = Member(name: string, data: Bytes, header: nat, end: nat)

  predicate MemberAt(tools: Tools, raw: Bytes, c: nat, top: nat, custody: bool, m: Member) {
    && c + 46 <= |raw| && c + 46 + U16(raw, c + 28) <= |raw| && top <= |raw|
    && GoodName(m.name) && NamedAt(raw, c, m.name) && PermittedAt(tools, raw, c, custody)
    && LocalAt(raw, c, m.header, top, m.name)
    && EndsAt(raw, c, m.header, top, m.name, m.end)
    && DataAt(tools, raw, c, m.header, top, m.name, m.data)
  }

  /** The whole archive. Every byte in front of the directory belongs to exactly one member. */
  predicate IsArchive(tools: Tools, raw: Bytes, custody: bool, heads: seq<nat>, members: seq<Member>) {
    && |heads| == |members| + 1 && Framed(raw, heads)
    && (forall i :: 0 <= i < |members| ==> MemberAt(tools, raw, heads[i], heads[0], custody, members[i]))
    && (forall i, j :: 0 <= i < j < |members| ==> !Collide(members[i].name, members[j].name))
    && (custody ==> forall i, j :: 0 <= i < j < |members| ==> !Less(members[j].name, members[i].name))
    && (forall i :: 0 <= i < |members| ==> members[i].header < members[i].end <= heads[0])
    && (forall i, j :: 0 <= i < j < |members| ==>
          members[i].end <= members[j].header || members[j].end <= members[i].header)
    && forall x :: 0 <= x < heads[0] ==> InMember(members, x)
  }

  predicate InMember(members: seq<Member>, x: nat) {
    exists i :: 0 <= i < |members| && members[i].header <= x < members[i].end
  }

  // ---------------------------------------------------------------------- names

  lemma {:induction false} UpToNulIs(b: Bytes)
    ensures var u := UpToNul(b);
      && |u| <= |b| && (forall k :: 0 <= k < |u| ==> u[k] == b[k] && u[k] != 0) && (|u| < |b| ==> b[|u|] == 0)
  {
    if b != [] && b[0] != 0 {
      UpToNulIs(b[1..]);
    }
  }

  lemma {:induction false} UpToNulUnique(b: Bytes, n: nat)
    requires n <= |b| && (forall k :: 0 <= k < n ==> b[k] != 0) && (n < |b| ==> b[n] == 0)
    ensures UpToNul(b) == b[..n]
  {
    if n > 0 {
      UpToNulUnique(b[1..], n - 1);
      assert b[..n] == [b[0]] + b[1..][..n - 1];
    }
  }

  lemma GoodIsAscii(name: string)
    requires GoodName(name)
    ensures forall k :: 0 <= k < |name| ==> 32 < name[k] as int < 128
  {
    assert forall k :: 0 <= k < |name| ==> Allowed(name[k]);
  }

  /** A stored name is the text read from it, when that is a safe path. */
  lemma NameExactly(raw: Bytes, c: nat, name: string)
    requires c + 46 <= |raw| && c + 46 + U16(raw, c + 28) <= |raw|
    ensures var stored := raw[c + 46..c + 46 + U16(raw, c + 28)];
      Text(UpToNul(stored)) == Some(name) && SafePath(name) <==> NamedAt(raw, c, name) && GoodName(name)
  {
    hide GoodName, U16;
    SafePathExactly(name);
    var stored := raw[c + 46..c + 46 + U16(raw, c + 28)];
    assert forall k :: 0 <= k < |stored| ==> stored[k] == raw[c + 46 + k];
    if GoodName(name) {
      GoodIsAscii(name);
      if Text(UpToNul(stored)) == Some(name) {
        UpToNulIs(stored);
      }
      if NamedAt(raw, c, name) {
        forall k | 0 <= k < |name|
          ensures stored[k] as int == name[k] as int && stored[k] != 0
        {
        }
        UpToNulUnique(stored, |name|);
        TextOfPrefix(stored, name);
      }
    }
  }

  lemma TextOfPrefix(stored: Bytes, name: string)
    requires |name| <= |stored| && forall k :: 0 <= k < |name| ==> stored[k] as int == name[k] as int < 128
    ensures Text(stored[..|name|]) == Some(name)
  {
    var b := stored[..|name|];
    assert forall x | x in b :: x < 128;
    assert |Text(b).value| == |name| && forall k :: 0 <= k < |name| ==> Text(b).value[k] == b[k] as char;
    assert Text(b).value == name;
  }

  lemma EncodedAt(raw: Bytes, p: nat, stop: nat, name: string)
    requires p <= stop <= |raw| && GoodName(name) && SafePath(name)
    ensures raw[p..stop] == Encode(name) <==>
      stop == p + |name| && forall k :: 0 <= k < |name| ==> raw[p + k] as int == name[k] as int
  {
    hide SafePath, Encode, GoodName, Plain;
    PlainNames(name);
    EncodedIs(name);
    var e, part := Encode(name), raw[p..stop];
    assert forall k :: 0 <= k < |part| ==> part[k] == raw[p + k];
    if stop == p + |name| && forall k :: 0 <= k < |name| ==> raw[p + k] as int == name[k] as int {
      forall k | 0 <= k < |part|
        ensures part[k] == e[k]
      {
      }
      assert part == e;
    }
    if part == e {
      forall k | 0 <= k < |name|
        ensures raw[p + k] as int == name[k] as int
      {
        assert raw[p + k] == part[k];
      }
    }
  }

  lemma EncodedIs(name: string)
    requires GoodName(name) && forall c | c in name :: Plain(c)
    ensures |Encode(name)| == |name| && forall k :: 0 <= k < |name| ==> Encode(name)[k] as int == name[k] as int
  {
    hide GoodName, Encode;
    GoodIsAscii(name);
    assert forall k :: 0 <= k < |name| ==> Encode(name)[k] as char == name[k];
  }

  lemma PlainNames(name: string)
    requires SafePath(name)
    ensures forall c | c in name :: Plain(c)
  {
  }

  // -------------------------------------------------------------------- directory

  lemma FourBytes(raw: Bytes, p: nat, a: byte, b: byte, c: byte, d: byte)
    requires p + 4 <= |raw|
    ensures raw[p..p + 4] == [a, b, c, d] <==> raw[p] == a && raw[p + 1] == b && raw[p + 2] == c && raw[p + 3] == d
  {
    var four := raw[p..p + 4];
    assert four[0] == raw[p] && four[1] == raw[p + 1] && four[2] == raw[p + 2] && four[3] == raw[p + 3];
  }

  lemma HeaderExactly(raw: Bytes, c: nat, next: nat)
    requires 22 <= |raw|
    ensures HeaderAt(raw, c, next) <==> CentralAt(raw, c, |raw| - 22) && next == c + CentralSize(raw, c)
  {
    hide U16;
    if c + 46 <= |raw| - 22 {
      FourBytes(raw, c, 0x50, 0x4B, 1, 2);
    }
  }

  /** The entries of a directory are what its headers say. */
  predicate EntriesAt(raw: Bytes, heads: seq<nat>, infos: seq<Info>) {
    && |heads| == |infos| + 1
    && forall i :: 0 <= i < |infos| ==> EntryAt(raw, heads[i], heads[i + 1], infos[i])
  }

  predicate EntryAt(raw: Bytes, c: nat, next: nat, info: Info) {
    22 <= |raw| && HeaderAt(raw, c, next) && info == CentralInfo(raw, c)
  }

  lemma {:induction false} DirectoryHeads(raw: Bytes, p: nat) returns (heads: seq<nat>)
    requires 22 <= |raw| && p <= |raw| - 22 && Directory(raw, p, |raw| - 22).Some?
    ensures EntriesAt(raw, heads, Directory(raw, p, |raw| - 22).value) && heads[0] == p && heads[|heads| - 1] == |raw| - 22
    decreases |raw| - p
  {
    hide U16, U32, HeaderAt, EntryAt;
    if p == |raw| - 22 {
      heads := [p];
    } else {
      var next := p + CentralSize(raw, p);
      EntryIs(raw, p, next);
      var rest := DirectoryHeads(raw, next);
      heads := [p] + rest;
      var infos := Directory(raw, p, |raw| - 22).value;
      forall i | 0 <= i < |infos|
        ensures EntryAt(raw, heads[i], heads[i + 1], infos[i])
      {
        if i > 0 {
          assert heads[i] == rest[i - 1] && heads[i + 1] == rest[i] && infos[i] == infos[1..][i - 1];
        }
      }
    }
  }

  lemma EntryIs(raw: Bytes, c: nat, next: nat)
    requires 22 <= |raw| && CentralAt(raw, c, |raw| - 22) && next == c + CentralSize(raw, c)
    ensures EntryAt(raw, c, next, CentralInfo(raw, c))
  {
    hide U16, U32;
    HeaderExactly(raw, c, next);
  }

  lemma EntryGives(raw: Bytes, c: nat, next: nat, info: Info)
    requires EntryAt(raw, c, next, info)
    ensures 22 <= |raw| && CentralAt(raw, c, |raw| - 22) && next == c + CentralSize(raw, c) && info == CentralInfo(raw, c)
  {
    hide U16, U32;
    HeaderExactly(raw, c, next);
  }

  lemma {:induction false} HeadsDirectory(raw: Bytes, heads: seq<nat>, infos: seq<Info>)
    requires EntriesAt(raw, heads, infos) && 22 <= |raw| && heads[|heads| - 1] == |raw| - 22
    ensures heads[0] <= |raw| - 22 && Directory(raw, heads[0], |raw| - 22) == Some(infos)
  {
    hide U16, U32, EntryAt;
    if infos != [] {
      HeadsDirectory(raw, heads[1..], infos[1..]);
      EntryGives(raw, heads[0], heads[1], infos[0]);
      assert infos == [infos[0]] + infos[1..];
    }
  }

  // ---------------------------------------------------------------------- members

  /** The member an entry is about. */
  function MemberOf(tools: Tools, raw: Bytes, info: Info): Member
    requires info.offset + 30 <= |raw| && DataStop(raw, info) <= |raw|
  {
    var plain := Plaintext(tools, raw, info);
    Member(Name(info), if plain.Some? then plain.value else [], info.offset, MemberEnd(raw, info))
  }

  lemma PermittedExactly(tools: Tools, raw: Bytes, c: nat, custody: bool)
    requires c + 46 <= |raw| && c + CentralSize(raw, c) <= |raw|
    ensures var info := CentralInfo(raw, c);
      EntryOk(tools, info, custody) <==> PermittedAt(tools, raw, c, custody) && NameOf(info).Some? && SafePath(NameOf(info).value)
  {
    hide U16, U32, SafePath, NameOf;
    var external := U32(raw, c + 38);
    assert external / 65536 / 4096 == external / 268435456;
  }

  /** The local header as the code tests it, for a member of a known name. */
  lemma LocalExactly(raw: Bytes, c: nat, top: nat, name: string)
    requires c + 46 <= |raw| && c + CentralSize(raw, c) <= |raw| && top <= |raw|
    requires GoodName(name) && NameOf(CentralInfo(raw, c)) == Some(name) && SafePath(name)
    ensures var info := CentralInfo(raw, c);
      LocalOk(raw, top, info) <==>
        && LocalAt(raw, c, info.offset, top, name)
        && DataStop(raw, info) == info.offset + 30 + |name| + info.packed
        && EndsAt(raw, c, info.offset, top, name, MemberEnd(raw, info))
  {
    hide U16, U32, SafePath, NameOf, Encode, GoodName;
    var info := CentralInfo(raw, c);
    var h := info.offset;
    if h + 30 <= top {
      FourBytes(raw, h, 0x50, 0x4B, 3, 4);
      if DataStop(raw, info) <= top {
        EncodedAt(raw, h + 30, DataStart(raw, info), name);
        EndExactly(raw, c, top, name);
      }
    }
  }

  lemma EndExactly(raw: Bytes, c: nat, top: nat, name: string)
    requires c + 46 <= |raw| && c + CentralSize(raw, c) <= |raw| && top <= |raw|
    requires var info := CentralInfo(raw, c); info.offset + 30 <= top && DataStop(raw, info) <= top
    ensures var info := CentralInfo(raw, c);
      LocalAt(raw, c, info.offset, top, name) ==>
        (EndsAt(raw, c, info.offset, top, name, MemberEnd(raw, info)) <==>
          if Bit(info.flags, 8) then MemberEnd(raw, info) <= top && DescriptorOk(raw, info)
          else U32(raw, info.offset + 14) == info.crc && U32(raw, info.offset + 18) == info.packed
               && U32(raw, info.offset + 22) == info.size)
  {
    hide U16, U32;
    var info := CentralInfo(raw, c);
    var stop := DataStop(raw, info);
    if stop + 4 <= |raw| {
      FourBytes(raw, stop, 0x50, 0x4B, 7, 8);
    }
  }

  /** There is one end for a member. */
  lemma OneEnd(raw: Bytes, c: nat, top: nat, name: string, end: nat)
    requires c + 46 <= |raw| && c + CentralSize(raw, c) <= |raw| && top <= |raw|
    requires var h := U32(raw, c + 42); LocalAt(raw, c, h, top, name) && EndsAt(raw, c, h, top, name, end)
    ensures var info := CentralInfo(raw, c);
      DataStop(raw, info) == info.offset + 30 + |name| + info.packed <= top && end == MemberEnd(raw, info)
  {
    hide U16, U32;
    var info := CentralInfo(raw, c);
    var stop := DataStop(raw, info);
    if stop + 4 <= |raw| {
      FourBytes(raw, stop, 0x50, 0x4B, 7, 8);
    }
  }

  lemma MemberMeans(tools: Tools, raw: Bytes, c: nat, next: nat, top: nat, custody: bool, info: Info)
    requires EntryAt(raw, c, next, info) && top <= |raw| && MemberOk(tools, raw, top, info, custody)
    ensures info.offset + 30 <= |raw| && DataStop(raw, info) <= |raw|
    ensures MemberAt(tools, raw, c, top, custody, MemberOf(tools, raw, info)) && Plaintext(tools, raw, info).Some?
  {
    EntryGives(raw, c, next, info);
    hide U16, U32, SafePath, Encode, GoodName, EntryOk, PermittedAt, LocalOk, LocalAt, EndsAt, UpToNul, Text;
    PermittedExactly(tools, raw, c, custody);
    var name := NameOf(info).value;
    NameExactly(raw, c, name);
    LocalExactly(raw, c, top, name);
    LocalIs(raw, top, info);
    DataMeans(tools, raw, c, top, name);
  }

  lemma LocalIs(raw: Bytes, top: nat, info: Info)
    requires top <= |raw| && NameOf(info).Some? && SafePath(NameOf(info).value) && LocalOk(raw, top, info)
    ensures info.offset + 30 <= |raw| && DataStop(raw, info) <= |raw|
  {
  }

  lemma DataMeans(tools: Tools, raw: Bytes, c: nat, top: nat, name: string)
    requires c + 46 <= |raw| && c + CentralSize(raw, c) <= |raw| && top <= |raw|
    requires var info := CentralInfo(raw, c);
      && LocalAt(raw, c, info.offset, top, name) && NameOf(info) == Some(name)
      && DataStop(raw, info) == info.offset + 30 + |name| + info.packed
    ensures var info := CentralInfo(raw, c);
      && DataStop(raw, info) <= |raw|
      && forall data :: DataAt(tools, raw, c, info.offset, top, name, data) <==>
           DataOk(tools, raw, info) && Plaintext(tools, raw, info) == Some(data)
  {
    hide U16, U32, NameOf;
  }

  lemma MeansMember(tools: Tools, raw: Bytes, c: nat, next: nat, top: nat, custody: bool, info: Info, m: Member)
    requires EntryAt(raw, c, next, info) && top <= |raw| && MemberAt(tools, raw, c, top, custody, m)
    ensures MemberOk(tools, raw, top, info, custody)
    ensures info.offset + 30 <= |raw| && DataStop(raw, info) <= |raw| && m == MemberOf(tools, raw, info)
    ensures Plaintext(tools, raw, info) == Some(m.data)
  {
    EntryGives(raw, c, next, info);
    hide U16, U32, SafePath, Encode, GoodName, EntryOk, PermittedAt, LocalOk, LocalAt, EndsAt, DataOk, DataAt, UpToNul, Text;
    PermittedExactly(tools, raw, c, custody);
    NameExactly(raw, c, m.name);
    HeaderIs(raw, c, m.header, top, m.name);
    OneEnd(raw, c, top, m.name, m.end);
    LocalExactly(raw, c, top, m.name);
    DataMeans(tools, raw, c, top, m.name);
  }

  lemma HeaderIs(raw: Bytes, c: nat, h: nat, top: nat, name: string)
    requires c + 46 <= |raw| && top <= |raw| && LocalAt(raw, c, h, top, name)
    ensures h == U32(raw, c + 42) && h + 30 <= top
  {
  }

  // ------------------------------------------------------------------ whole archives

  lemma FramedExactly(raw: Bytes, heads: seq<nat>, infos: seq<Info>)
    requires EntriesAt(raw, heads, infos)
    ensures Framed(raw, heads) ==> LayoutOk(raw) && Infos(raw) == Some(infos) && DirectoryStart(raw) == heads[0]
    ensures LayoutOk(raw) && Infos(raw) == Some(infos) && heads[0] == DirectoryStart(raw) && heads[|infos|] == |raw| - 22 ==>
      Framed(raw, heads)
  {
    hide U16, U32, HeaderAt, CentralInfo;
    if 22 <= |raw| {
      FourBytes(raw, |raw| - 22, 0x50, 0x4B, 5, 6);
      if heads[|heads| - 1] == |raw| - 22 {
        HeadsDirectory(raw, heads, infos);
      }
    }
    assert forall i :: 0 <= i < |infos| ==> EntryAt(raw, heads[i], heads[i + 1], infos[i]);
  }

  function MembersOf(tools: Tools, raw: Bytes, infos: seq<Info>): (r: seq<Member>)
    requires forall i :: 0 <= i < |infos| ==> infos[i].offset + 30 <= |raw| && DataStop(raw, infos[i]) <= |raw|
    ensures |r| == |infos| && forall i :: 0 <= i < |infos| ==> r[i] == MemberOf(tools, raw, infos[i])
  {
    seq(|infos|, i requires 0 <= i < |infos| => MemberOf(tools, raw, infos[i]))
  }

  /** The members are the dictionary. */
  predicate Holds(result: map<string, Bytes>, members: seq<Member>) {
    && (forall i :: 0 <= i < |members| ==> members[i].name in result && result[members[i].name] == members[i].data)
    && forall n | n in result :: exists i :: 0 <= i < |members| && members[i].name == n
  }

  lemma {:induction false} ContentsHold(tools: Tools, raw: Bytes, infos: seq<Info>, members: seq<Member>)
    requires |members| == |infos|
    requires forall i :: 0 <= i < |infos| ==> infos[i].offset + 30 <= |raw| && DataStop(raw, infos[i]) <= |raw|
    requires forall i :: 0 <= i < |infos| ==>
      members[i].name == Name(infos[i]) && Plaintext(tools, raw, infos[i]) == Some(members[i].data)
    requires forall i, j :: 0 <= i < j < |members| ==> members[i].name != members[j].name
    ensures Holds(Contents(tools, raw, infos), members)
  {
    hide Plaintext, Name, Holds, DataStop;
    if infos == [] {
      NothingHeld();
      assert members == [];
    } else {
      var n := |infos| - 1;
      ContentsHold(tools, raw, infos[..n], members[..n]);
      HoldsMore(Contents(tools, raw, infos[..n]), members[..n], members[n]);
      assert members == members[..n] + [members[n]];
    }
  }

  lemma NothingHeld()
    ensures Holds(map[], [])
  {
  }

  lemma HoldsMore(result: map<string, Bytes>, members: seq<Member>, m: Member)
    requires Holds(result, members) && forall i :: 0 <= i < |members| ==> members[i].name != m.name
    ensures Holds(result[m.name := m.data], members + [m])
  {
    var all := members + [m];
    assert all[|members|] == m && forall i :: 0 <= i < |members| ==> all[i] == members[i];
    forall k | k in result
      ensures exists i :: 0 <= i < |all| && all[i].name == k
    {
      var i :| 0 <= i < |members| && members[i].name == k;
      assert all[i].name == k;
    }
  }

  /** Which bytes of the archive are whose. */
  lemma TilesExactly(raw: Bytes, infos: seq<Info>, members: seq<Member>, top: nat)
    requires |members| == |infos| && forall i :: 0 <= i < |infos| ==> Extent(raw, infos[i]) == Range(members[i].header, members[i].end)
    ensures Partition(Extents(raw, infos), top) <==>
      && (forall i :: 0 <= i < |members| ==> members[i].header < members[i].end <= top)
      && (forall i, j :: 0 <= i < j < |members| ==>
            members[i].end <= members[j].header || members[j].end <= members[i].header)
      && forall x :: 0 <= x < top ==> InMember(members, x)
  {
    hide *;
    RangesTile(Extents(raw, infos), members, top);
  }

  lemma RangesTile(all: seq<Range>, members: seq<Member>, top: nat)
    requires |all| == |members| && forall i :: 0 <= i < |all| ==> all[i] == Range(members[i].header, members[i].end)
    ensures Partition(all, top) <==>
      && (forall i :: 0 <= i < |members| ==> members[i].header < members[i].end <= top)
      && (forall i, j :: 0 <= i < j < |members| ==>
            members[i].end <= members[j].header || members[j].end <= members[i].header)
      && forall x :: 0 <= x < top ==> InMember(members, x)
  {
    hide Disjoint, Covered, InMember;
    PairwiseDisjoint(all);
    BoundsTile(all, members, top);
    ApartTile(all, members);
    forall x: nat
      ensures Covered(all, x) <==> InMember(members, x)
    {
      CoveredTile(all, members, x);
    }
  }

  lemma BoundsTile(all: seq<Range>, members: seq<Member>, top: nat)
    requires |all| == |members| && forall i :: 0 <= i < |all| ==> all[i] == Range(members[i].header, members[i].end)
    ensures (forall r | r in all :: r.lo < r.hi <= top) <==>
      forall i :: 0 <= i < |members| ==> members[i].header < members[i].end <= top
  {
    if forall r | r in all :: r.lo < r.hi <= top {
      forall i | 0 <= i < |members|
        ensures members[i].header < members[i].end <= top
      {
        assert all[i] in all;
      }
    }
  }

  lemma ApartTile(all: seq<Range>, members: seq<Member>)
    requires |all| == |members| && forall i :: 0 <= i < |all| ==> all[i] == Range(members[i].header, members[i].end)
    ensures (forall i, j :: 0 <= i < j < |all| ==> Apart(all[i], all[j])) <==>
      forall i, j :: 0 <= i < j < |members| ==> members[i].end <= members[j].header || members[j].end <= members[i].header
  {
    if forall i, j :: 0 <= i < j < |all| ==> Apart(all[i], all[j]) {
      forall i, j | 0 <= i < j < |members|
        ensures members[i].end <= members[j].header || members[j].end <= members[i].header
      {
        assert Apart(all[i], all[j]);
      }
    }
  }

  lemma CoveredTile(all: seq<Range>, members: seq<Member>, x: nat)
    requires |all| == |members| && forall i :: 0 <= i < |all| ==> all[i] == Range(members[i].header, members[i].end)
    ensures Covered(all, x) <==> InMember(members, x)
  {
    if InMember(members, x) {
      var i :| 0 <= i < |members| && members[i].header <= x < members[i].end;
      assert all[i] in all && Within(all[i], x);
    }
    if Covered(all, x) {
      var r :| r in all && Within(r, x);
      var i :| 0 <= i < |all| && all[i] == r;
      assert members[i].header <= x < members[i].end;
    }
  }

  lemma {:induction false} PairwiseDisjoint(s: seq<Range>)
    ensures Disjoint(s) <==> forall i, j :: 0 <= i < j < |s| ==> Apart(s[i], s[j])
  {
    if s != [] {
      PairwiseDisjoint(s[1..]);
      if Disjoint(s) {
        forall i, j | 0 <= i < j < |s|
          ensures Apart(s[i], s[j])
        {
          DisjointAt(s, i, j);
        }
      }
      if forall i, j :: 0 <= i < j < |s| ==> Apart(s[i], s[j]) {
        forall r | r in s[1..]
          ensures Apart(s[0], r)
        {
          var j :| 0 <= j < |s[1..]| && s[1..][j] == r;
          assert Apart(s[0], s[j + 1]);
        }
        forall i, j | 0 <= i < j < |s[1..]|
          ensures Apart(s[1..][i], s[1..][j])
        {
          assert s[1..][i] == s[i + 1] && s[1..][j] == s[j + 1];
        }
      }
    }
  }

  lemma NamesExactly(infos: seq<Info>, members: seq<Member>)
    requires |members| == |infos| && forall i :: 0 <= i < |infos| ==> members[i].name == Name(infos[i])
    ensures NamesOk(infos) <==> forall i, j :: 0 <= i < j < |members| ==> !Collide(members[i].name, members[j].name)
    ensures NamesSorted(infos) <==> forall i, j :: 0 <= i < j < |members| ==> !Less(members[j].name, members[i].name)
  {
    hide Compatible, Collide, Name;
    forall a, b
      ensures Compatible(a, b) <==> !Collide(a, b)
    {
      CompatibleExactly(a, b);
    }
  }

  lemma DifferentNames(members: seq<Member>)
    requires forall i, j :: 0 <= i < j < |members| ==> !Collide(members[i].name, members[j].name)
    ensures forall i, j :: 0 <= i < j < |members| ==> members[i].name != members[j].name
  {
    forall i, j | 0 <= i < j < |members|
      ensures members[i].name != members[j].name
    {
      assert !Collide(members[i].name, members[j].name);
    }
  }

  /** Every archive that is accepted is one as spelled out, and what is returned are its members. */
  lemma ReadableMeans(tools: Tools, raw: Bytes, custody: bool) returns (heads: seq<nat>, members: seq<Member>)
    requires Readable(tools, raw, custody)
    ensures IsArchive(tools, raw, custody, heads, members)
    ensures |members| == |Infos(raw).value| && Holds(Contents(tools, raw, Infos(raw).value), members)
    ensures forall i :: 0 <= i < |members| ==> |members[i].data| == Infos(raw).value[i].size
  {
    hide MemberOk, Directory, Contents, Framed, NamesOk, NamesSorted, Partition, Extent, MemberAt, EntryAt, Collide, Plaintext,
      DataStop, MemberEnd, U16, U32, Name, EndOk, InMember, MembersOk, Holds;
    var top, infos := DirectoryStart(raw), Infos(raw).value;
    heads := DirectoryHeads(raw, top);
    FramedExactly(raw, heads, infos);
    members := MembersMean(tools, raw, top, custody, heads, infos);
    NamesExactly(infos, members);
    TilesExactly(raw, infos, members, top);
    DifferentNames(members);
    ContentsHold(tools, raw, infos, members);
  }

  /** Each entry is of a member as spelled out. */
  lemma MembersMean(tools: Tools, raw: Bytes, top: nat, custody: bool, heads: seq<nat>, infos: seq<Info>)
    returns (members: seq<Member>)
    requires EntriesAt(raw, heads, infos) && top <= |raw| && MembersOk(tools, raw, top, infos, custody)
    ensures |members| == |infos|
    ensures forall i :: 0 <= i < |infos| ==> MemberAt(tools, raw, heads[i], top, custody, members[i])
    ensures forall i :: 0 <= i < |infos| ==> infos[i].offset + 30 <= |raw| && DataStop(raw, infos[i]) <= |raw|
    ensures forall i :: 0 <= i < |infos| ==>
      && members[i].name == Name(infos[i]) && Plaintext(tools, raw, infos[i]) == Some(members[i].data)
      && |members[i].data| == infos[i].size && Extent(raw, infos[i]) == Range(members[i].header, members[i].end)
  {
    hide MemberOk, MemberAt, EntryAt, Plaintext, DataStop, MemberEnd, Name, Extent;
    forall i | 0 <= i < |infos|
      ensures infos[i].offset + 30 <= |raw| && DataStop(raw, infos[i]) <= |raw|
      ensures MemberAt(tools, raw, heads[i], top, custody, MemberOf(tools, raw, infos[i]))
      ensures Plaintext(tools, raw, infos[i]).Some? && |Plaintext(tools, raw, infos[i]).value| == infos[i].size
      ensures Extent(raw, infos[i]) == Range(infos[i].offset, MemberEnd(raw, infos[i]))
    {
      assert EntryAt(raw, heads[i], heads[i + 1], infos[i]) && MemberOk(tools, raw, top, infos[i], custody);
      MemberMeans(tools, raw, heads[i], heads[i + 1], top, custody, infos[i]);
      MemberSize(tools, raw, top, infos[i], custody);
    }
    members := MembersOf(tools, raw, infos);
  }

  lemma MemberSize(tools: Tools, raw: Bytes, top: nat, info: Info, custody: bool)
    requires top <= |raw| && MemberOk(tools, raw, top, info, custody)
    ensures info.offset + 30 <= |raw| && DataStop(raw, info) <= |raw|
    ensures Plaintext(tools, raw, info).Some? && |Plaintext(tools, raw, info).value| == info.size
    ensures Extent(raw, info) == Range(info.offset, MemberEnd(raw, info))
  {
    hide U16, U32, SafePath, NameOf, LocalOk;
    LocalIs(raw, top, info);
  }

  /** And every such archive is accepted. */
  lemma MeansReadable(tools: Tools, raw: Bytes, custody: bool, heads: seq<nat>, members: seq<Member>)
    requires IsArchive(tools, raw, custody, heads, members)
    ensures Readable(tools, raw, custody)
    ensures |Infos(raw).value| == |members| && Holds(Contents(tools, raw, Infos(raw).value), members)
  {
    hide MemberOk, Directory, Contents, Framed, NamesOk, NamesSorted, Partition, Extent, MemberAt, EntryAt, Collide, Plaintext,
      CentralInfo, DataStop, MemberEnd, U16, U32, Name, EndOk, InMember;
    var infos := InfosAt(raw, heads);
    FramedExactly(raw, heads, infos);
    var top := heads[0];
    forall i | 0 <= i < |infos|
      ensures MemberOk(tools, raw, top, infos[i], custody)
      ensures infos[i].offset + 30 <= |raw| && DataStop(raw, infos[i]) <= |raw|
      ensures members[i] == MemberOf(tools, raw, infos[i]) && Plaintext(tools, raw, infos[i]) == Some(members[i].data)
      ensures Extent(raw, infos[i]) == Range(infos[i].offset, MemberEnd(raw, infos[i]))
    {
      assert EntryAt(raw, heads[i], heads[i + 1], infos[i]);
      MeansMember(tools, raw, heads[i], heads[i + 1], top, custody, infos[i], members[i]);
      MemberSize(tools, raw, top, infos[i], custody);
    }
    NamesExactly(infos, members);
    TilesExactly(raw, infos, members, top);
    DifferentNames(members);
    ContentsHold(tools, raw, infos, members);
  }

  lemma HeadersFit(raw: Bytes, heads: seq<nat>)
    requires heads != [] && Framed(raw, heads)
    ensures forall i :: 0 <= i < |heads| - 1 ==> heads[i] + 46 <= |raw| && heads[i] + CentralSize(raw, heads[i]) <= |raw|
  {
    hide U16, U32;
    forall i | 0 <= i < |heads| - 1
      ensures heads[i] + 46 <= |raw| && heads[i] + CentralSize(raw, heads[i]) <= |raw|
    {
      assert HeaderAt(raw, heads[i], heads[i + 1]);
    }
  }

  function InfosAt(raw: Bytes, heads: seq<nat>): (r: seq<Info>)
    requires heads != [] && Framed(raw, heads)
    ensures EntriesAt(raw, heads, r)
  {
    HeadersFit(raw, heads);
    seq(|heads| - 1, i requires 0 <= i < |heads| - 1 => CentralInfo(raw, heads[i]))
  }

  // ------------------------------------------------------------------- what is packed

  /** The size of an archive of these files, name by name: the data, the name twice and 76 bytes for
      each, and 22 for the end record. */
  predicate Weighs(files: map<string, Bytes>, names: seq<string>, sums: seq<nat>) {
    && |names| == |files| && (forall n | n in files :: n in names)
    && |sums| == |names| + 1 && sums[0] == 22
    && forall i :: 0 <= i < |names| ==> names[i] in files && sums[i + 1] == sums[i] + |files[names[i]]| + 2 * |names[i]| + 76
  }

  lemma {:induction false} SizeIsSum(all: seq<File>) returns (sums: seq<nat>)
    ensures |sums| == |all| + 1 && sums[0] == 22 && sums[|all|] == ArchiveSize(all)
    ensures forall i :: 0 <= i < |all| ==> sums[i + 1] == sums[i] + |all[i].data| + 2 * |all[i].name| + 76
  {
    if all == [] {
      sums := [22];
    } else {
      var n := |all| - 1;
      var front := SizeIsSum(all[..n]);
      sums := front + [front[n] + |all[n].data| + 2 * |all[n].name| + 76];
    }
  }

  /** Exactly which dictionaries `make_zip` packs. */
  lemma PacksExactly(tools: Tools, files: map<string, Bytes>) returns (names: seq<string>, sums: seq<nat>)
    ensures Weighs(files, names, sums)
    ensures Packable(tools, FilesOf(files)) && AllCompatible(FilesOf(files)) <==>
      && 1 <= |files| <= 4096
      && (forall n | n in files :: GoodName(n) && |files[n]| <= 33554432 && !tools.secret(n, files[n]))
      && (forall m, n | m in files && n in files && m != n :: !Collide(m, n))
      && sums[|names|] <= 67108864
  {
    hide *;
    names := Sorted(files.Keys);
    sums := SizeIsSum(FilesOf(files));
    SumsWeigh(files, sums);
    PackableIs(tools, FilesOf(files));
    FilesAre(files);
    WritableExactly(tools, files);
    CompatibleFiles(files);
  }

  lemma SumsWeigh(files: map<string, Bytes>, sums: seq<nat>)
    requires var all := FilesOf(files);
      && |sums| == |all| + 1 && sums[0] == 22
      && forall i :: 0 <= i < |all| ==> sums[i + 1] == sums[i] + |all[i].data| + 2 * |all[i].name| + 76
    ensures Weighs(files, Sorted(files.Keys), sums)
  {
    hide FilesOf;
    FilesAre(files);
  }

  /** Names, sizes and contents all permitted. */
  predicate Clean(tools: Tools, all: seq<File>) {
    AllWritable(all) && forall f | f in all :: !tools.secret(f.name, f.data)
  }

  lemma PackableIs(tools: Tools, all: seq<File>)
    ensures Packable(tools, all) <==> 1 <= |all| <= 4096 && Clean(tools, all) && ArchiveSize(all) <= 67108864
  {
    hide AllWritable, ArchiveSize;
  }

  lemma FilesAre(files: map<string, Bytes>)
    ensures var all, names := FilesOf(files), Sorted(files.Keys);
      && |all| == |names| == |files| && (forall n :: n in names <==> n in files)
      && (forall i :: 0 <= i < |all| ==> names[i] in files && all[i] == File(names[i], files[names[i]]))
      && forall i, j :: 0 <= i < j < |names| ==> names[i] != names[j]
  {
    var names := Sorted(files.Keys);
    AscendingDistinct(names);
    assert forall i :: 0 <= i < |names| ==> names[i] in names;
  }

  lemma WritableExactly(tools: Tools, files: map<string, Bytes>)
    ensures Clean(tools, FilesOf(files)) <==>
      forall n | n in files :: GoodName(n) && |files[n]| <= 33554432 && !tools.secret(n, files[n])
  {
    hide GoodName, SafePath, FilesOf;
    var all, names := FilesOf(files), Sorted(files.Keys);
    FilesAre(files);
    forall n | n in files
      ensures SafePath(n) <==> GoodName(n)
      ensures File(n, files[n]) in all
    {
      SafePathExactly(n);
      var i :| 0 <= i < |names| && names[i] == n;
      assert all[i] == File(n, files[n]);
    }
    forall f | f in all
      ensures f.name in files && files[f.name] == f.data
    {
      var i :| 0 <= i < |all| && all[i] == f;
    }
  }

  lemma CompatibleFiles(files: map<string, Bytes>)
    ensures AllCompatible(FilesOf(files)) <==> forall m, n | m in files && n in files && m != n :: !Collide(m, n)
  {
    hide Collide, Compatible, FilesOf;
    var all, names := FilesOf(files), Sorted(files.Keys);
    FilesAre(files);
    if AllCompatible(all) {
      forall m, n | m in files && n in files && m != n
        ensures !Collide(m, n)
      {
        ApartInOrder(files, m, n);
      }
    }
    if forall m, n | m in files && n in files && m != n :: !Collide(m, n) {
      forall i, j | 0 <= i < j < |all|
        ensures Compatible(all[i].name, all[j].name)
      {
        CompatibleExactly(names[i], names[j]);
      }
    }
  }

  lemma ApartInOrder(files: map<string, Bytes>, m: string, n: string)
    requires AllCompatible(FilesOf(files)) && m in files && n in files && m != n
    ensures !Collide(m, n)
  {
    hide Collide, Compatible, FilesOf;
    var all, names := FilesOf(files), Sorted(files.Keys);
    FilesAre(files);
    var i :| 0 <= i < |names| && names[i] == m;
    var j :| 0 <= j < |names| && names[j] == n;
    CompatibleExactly(m, n);
    CompatibleExactly(n, m);
    CollideBothWays(m, n);
    var lo, hi := if i < j then i else j, if i < j then j else i;
    assert Compatible(all[lo].name, all[hi].name);
  }

  lemma CollideBothWays(a: string, b: string)
    ensures Collide(a, b) <==> Collide(b, a)
  {
  }
}
