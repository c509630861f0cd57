/** An archive `archive_members` restores, spelled out on its bytes. The last directory header may
    claim more than the bytes in front of the end record; what is behind them is not seen. */
module RestoreMeaning {
  import opened Common
  import opened Tiling
  import opened ZipFormat
  import opened ZipNames
  import opened RestoreReader
  import ZipMeaning

  type Member = ZipMeaning.Member

  /** The end record, and `count` directory headers one after the other from `heads[0]` on; the last
      one reaches up to the end record, or beyond. */
  predicate Framed(raw: Bytes, heads: seq<nat>) {
    && 22 <= |raw| <= 16777216 && heads != []
    && var end := |raw| - 22;
    && var count := |heads| - 1;
    && raw[end] == 0x50 && raw[end + 1] == 0x4B && raw[end + 2] == 5 && raw[end + 3] == 6
    && U16(raw, end + 4) == 0 && U16(raw, end + 6) == 0 && U16(raw, end + 20) == 0
    && U16(raw, end + 8) == U16(raw, end + 10) == count
    && 1 <= count <= 64 && U32(raw, end + 12) <= 262144
    && heads[0] == U32(raw, end + 16) && heads[0] + U32(raw, end + 12) == end && end <= heads[count]
    && forall i :: 0 <= i < count ==> HeaderAt(raw, heads[i], heads[i + 1])
  }

  /** A directory header at `c`: 46 bytes in front of the end record, and what it says of the next. */
  predicate HeaderAt(raw: Bytes, c: nat, next: nat) {
    && c + 46 <= |raw| - 22
    && raw[c] == 0x50 && raw[c + 1] == 0x4B && raw[c + 2] == 1 && raw[c + 3] == 2
    && next == c + 46 + U16(raw, c + 28) + U16(raw, c + 30) + U16(raw, c + 32)
  }

  /** The name in the header at `c`, as far as it is in front of the end record: ASCII without NUL,
      with neither an extra field nor a comment in front of the end record. */
  predicate NamedAt(raw: Bytes, c: nat, name: string)
    requires c + 46 <= |raw| - 22
  {
    var end := |raw| - 22;
    var n := c + 46 + U16(raw, c + 28);
    var x := n + U16(raw, c + 30);
    && |name| == (if n <= end then n else end) - (c + 46)
    && (forall k :: 0 <= k < |name| ==> raw[c + 46 + k] as int == name[k] as int && 0 < name[k] as int < 128)
    && (n < end ==> U16(raw, c + 30) == 0)
    && (x < end ==> U16(raw, c + 32) == 0)
  }

  /** A regular file of a reviewed name, within its own size limit; no flag but those for a data
      descriptor and for UTF-8. */
  predicate PermittedAt(tools: Tools, policy: Policy, raw: Bytes, c: nat, name: string)
    requires c + 46 + |name| <= |raw|
  {
    && raw[c + 6] <= 63
    && (U16(raw, c + 8) == 0 || U16(raw, c + 8) == 8 || U16(raw, c + 8) == 2048 || U16(raw, c + 8) == 2056)
    && (2048 <= U16(raw, c + 8) ==> tools.utf8(raw[c + 46..c + 46 + |name|]))
    && (U16(raw, c + 10) == 0 || U16(raw, c + 10) == 8)
    && (U32(raw, c + 38) / 268435456 == 0 || U32(raw, c + 38) / 268435456 == 8)
    && U32(raw, c + 38) / 16 % 2 == 0
    && name in policy.allowed && |name| <= 512 && (name != "" ==> name[|name| - 1] != '/')
    && U32(raw, c + 24) <= policy.limit(name)
  }

  /** A field of the local header at `p` repeats the one of the directory at `q`, or is zero where
      the data descriptor has it. */
  predicate FieldAgrees(raw: Bytes, c: nat, p: nat, q: nat)
    requires c + 46 <= |raw| && p + 4 <= |raw| && q + 4 <= |raw|
  {
    U32(raw, p) == U32(raw, q) || (U16(raw, c + 8) / 8 % 2 == 1 && U32(raw, p) == 0)
  }

  /** The local header at `h` repeats the directory header at `c`; its name and `packed` bytes follow,
      and do not reach into the directory at `top`. */
  predicate LocalAt(raw: Bytes, c: nat, h: nat, top: nat, name: string)
    requires c + 46 <= |raw| && top <= |raw|
  {
    && h == U32(raw, c + 42)
    && h + 30 + |name| + U32(raw, c + 20) <= top
    && raw[h] == 0x50 && raw[h + 1] == 0x4B && raw[h + 2] == 3 && raw[h + 3] == 4
    && U16(raw, h + 6) == U16(raw, c + 8) && U16(raw, h + 8) == U16(raw, c + 10)
    && FieldAgrees(raw, c, h + 14, c + 16) && FieldAgrees(raw, c, h + 18, c + 20) && FieldAgrees(raw, c, h + 22, c + 24)
    && U16(raw, h + 26) == |name| && U16(raw, h + 28) == 0
    && forall k :: 0 <= k < |name| ==> raw[h + 30 + k] as int == name[k] as int
  }

  /** Where the member ends: behind its data, or behind the descriptor flag bit 3 announces. */
  predicate EndsAt(raw: Bytes, c: nat, h: nat, top: nat, name: string, end: nat)
    requires c + 46 <= |raw| && top <= |raw| && LocalAt(raw, c, h, top, name)
  {
    var stop := h + 30 + |name| + U32(raw, c + 20);
    if U16(raw, c + 8) / 8 % 2 == 0 then end == stop
    else
      var signed := stop + 4 <= |raw| && raw[stop] == 0x50 && raw[stop + 1] == 0x4B && raw[stop + 2] == 7 && raw[stop + 3] == 8;
      end == stop + (if signed then 16 else 12) && end <= |raw| && ZipMeaning.MeasuredAt(raw, c, end - 12)
  }

  /** The bytes that follow are the data, stored or deflated, of the announced size and checksum. */
  predicate DataAt(tools: Tools, raw: Bytes, c: nat, h: nat, top: nat, name: string, data: Bytes)
    requires c + 46 <= |raw| && top <= |raw| && LocalAt(raw, c, h, top, name)
  {
    var packed := raw[h + 30 + |name|..h + 30 + |name| + U32(raw, c + 20)];
    && (if U16(raw, c + 10) == 0 then data == packed else tools.inflate(packed) == Some(data))
    && |data| == U32(raw, c + 24)
    && tools.crc(data) == U32(raw, c + 16)
  }

  predicate MemberAt(tools: Tools, policy: Policy, raw: Bytes, c: nat, top: nat, m: Member) {
    && c + 46 <= |raw| - 22 && top <= |raw|
    && NamedAt(raw, c, m.name) && PermittedAt(tools, policy, raw, c, m.name)
    && LocalAt(raw, c, m.header, top, m.name)
    && EndsAt(raw, c, m.header, top, m.name, m.end)
    && DataAt(tools, raw, c, m.header, top, m.name, m.data)
  }

  /** Sums of the sizes of the members in front. */
  predicate Adds(members: seq<Member>, sums: seq<nat>) {
    && |sums| == |members| + 1 && sums[0] == 0
    && forall i :: 0 <= i < |members| ==> sums[i + 1] == sums[i] + |members[i].data|
  }

  predicate CaseTwins(a: string, b: string) {
    |a| == |b| && forall i :: 0 <= i < |a| ==> SameLetter(a[i], b[i])
  }

  /** The whole archive: its members lie one behind the other from the first byte to the directory,
      each described by one of the headers, in whatever order the directory has these. */
  predicate IsRestorable(tools: Tools, policy: Policy, raw: Bytes, heads: seq<nat>, at: seq<nat>, members: seq<Member>,
                         sums: seq<nat>) {
    && |heads| == |members| + 1 == |at| + 1 && Framed(raw, heads)
    && multiset(at) == multiset(heads[..|members|])
    && (forall i :: 0 <= i < |members| ==> MemberAt(tools, policy, raw, at[i], heads[0], members[i]))
    && (forall i, j :: 0 <= i < j < |members| ==> !CaseTwins(members[i].name, members[j].name))
    && Adds(members, sums) && sums[|members|] <= 33554432
    && members[0].header == 0 && members[|members| - 1].end == heads[0]
    && (forall i :: 0 < i < |members| ==> members[i].header == members[i - 1].end)
    && forall name | name in policy.required :: Has(members, name)
  }

  predicate Has(members: seq<Member>, name: string) {
    exists i :: 0 <= i < |members| && members[i].name == name
  }

  // -------------------------------------------------------------------- directory

  predicate EntryAt(raw: Bytes, c: nat, info: Info) {
    22 <= |raw| && c + 46 <= |raw| - 22 && info == LooseInfo(raw, c, |raw| - 22)
  }

  /** Entries and where their headers are. */
  predicate EntriesAt(raw: Bytes, at: seq<nat>, infos: seq<Info>) {
    |at| == |infos| && forall i :: 0 <= i < |infos| ==> EntryAt(raw, at[i], infos[i])
  }

  lemma HeaderExactly(raw: Bytes, c: nat)
    requires 22 <= |raw| && c + 46 <= |raw| - 22
    ensures HeaderAt(raw, c, c + CentralSize(raw, c)) <==> raw[c..c + 4] == CENTRAL
  {
    hide U16;
    ZipMeaning.FourBytes(raw, c, 0x50, 0x4B, 1, 2);
  }

  lemma {:induction false} DirectoryHeads(raw: Bytes, p: nat) returns (heads: seq<nat>)
    requires 22 <= |raw| && LooseDirectory(raw, p, |raw| - 22).Some?
    ensures var infos := LooseDirectory(raw, p, |raw| - 22).value;
      && |heads| == |infos| + 1 && heads[0] == p && |raw| - 22 <= heads[|infos|]
      && EntriesAt(raw, heads[..|infos|], infos)
      && forall i :: 0 <= i < |infos| ==> HeaderAt(raw, heads[i], heads[i + 1])
    decreases |raw| - p
  {
    hide U16, U32, HeaderAt, EntryAt, LooseInfo;
    var stop := |raw| - 22;
    if stop <= p {
      heads := [p];
    } else {
      var next := p + CentralSize(raw, p);
      HeaderExactly(raw, p);
      EntryIs(raw, p);
      var rest := DirectoryHeads(raw, next);
      heads := [p] + rest;
      var infos := LooseDirectory(raw, p, stop).value;
      forall i | 0 <= i < |infos|
        ensures EntryAt(raw, heads[i], infos[i]) && HeaderAt(raw, heads[i], heads[i + 1])
      {
        if i > 0 {
          assert heads[i] == rest[i - 1] == rest[..|rest| - 1][i - 1] && heads[i + 1] == rest[i];
        }
      }
    }
  }

  lemma EntryIs(raw: Bytes, c: nat)
    requires 22 <= |raw| && c + 46 <= |raw| - 22
    ensures EntryAt(raw, c, LooseInfo(raw, c, |raw| - 22))
  {
  }

  lemma {:induction false} HeadsDirectory(raw: Bytes, heads: seq<nat>) returns (infos: seq<Info>)
    requires 22 <= |raw| && heads != [] && |raw| - 22 <= heads[|heads| - 1]
    requires forall i :: 0 <= i < |heads| - 1 ==> HeaderAt(raw, heads[i], heads[i + 1])
    ensures LooseDirectory(raw, heads[0], |raw| - 22) == Some(infos) && EntriesAt(raw, heads[..|heads| - 1], infos)
  {
    hide U16, U32, LooseInfo, EntryAt;
    if |heads| == 1 {
      infos := [];
    } else {
      var c := heads[0];
      var rest := HeadsDirectory(raw, heads[1..]);
      HeaderExactly(raw, c);
      EntryIs(raw, c);
      infos := [LooseInfo(raw, c, |raw| - 22)] + rest;
      forall i | 0 < i < |infos|
        ensures EntryAt(raw, heads[i], infos[i])
      {
        assert heads[1..][..|heads| - 2][i - 1] == heads[i] && infos[i] == rest[i - 1];
      }
    }
  }

  lemma FramedExactly(raw: Bytes, heads: seq<nat>, infos: seq<Info>)
    requires |heads| == |infos| + 1 && 22 <= |raw|
    requires LooseDirectory(raw, heads[0], |raw| - 22) == Some(infos) && |raw| - 22 <= heads[|infos|]
    requires forall i :: 0 <= i < |infos| ==> HeaderAt(raw, heads[i], heads[i + 1])
    ensures Framed(raw, heads) <==> LayoutOk(raw) && heads[0] == DirectoryStart(raw)
  {
    hide U16, U32, LooseDirectory, HeaderAt;
    ZipMeaning.FourBytes(raw, |raw| - 22, 0x50, 0x4B, 5, 6);
  }

  // ------------------------------------------------------------------------ order

  lemma {:induction false} InsertBoth(raw: Bytes, c: nat, info: Info, at: seq<nat>, infos: seq<Info>) returns (more: seq<nat>)
    requires EntryAt(raw, c, info) && EntriesAt(raw, at, infos)
    ensures EntriesAt(raw, more, Insert(info, infos, ByOffset)) && multiset(more) == multiset([c]) + multiset(at)
    decreases |at|
  {
    hide EntriesAt, EntryAt, ByOffset;
    EntriesSplit(raw, at, infos);
    if infos == [] || ByOffset(info, infos[0]) {
      more := [c] + at;
      EntriesMore(raw, c, info, at, infos);
      assert infos == [] ==> [info] + infos == [info];
    } else {
      var rest := InsertBoth(raw, c, info, at[1..], infos[1..]);
      more := [at[0]] + rest;
      EntriesMore(raw, at[0], infos[0], rest, Insert(info, infos[1..], ByOffset));
      assert at == [at[0]] + at[1..];
    }
  }

  lemma EntriesSplit(raw: Bytes, at: seq<nat>, infos: seq<Info>)
    requires EntriesAt(raw, at, infos)
    ensures |at| == |infos|
    ensures infos != [] ==> EntryAt(raw, at[0], infos[0]) && EntriesAt(raw, at[1..], infos[1..])
  {
    hide EntryAt;
    if infos != [] {
      forall i | 0 <= i < |infos| - 1
        ensures EntryAt(raw, at[1..][i], infos[1..][i])
      {
        assert EntryAt(raw, at[i + 1], infos[i + 1]);
      }
    }
  }

  lemma EntriesMore(raw: Bytes, c: nat, info: Info, at: seq<nat>, infos: seq<Info>)
    requires EntryAt(raw, c, info) && EntriesAt(raw, at, infos)
    ensures EntriesAt(raw, [c] + at, [info] + infos)
  {
    hide EntryAt;
  }

  /** Sorting the entries by offset takes the headers along. */
  lemma {:induction false} SortBoth(raw: Bytes, at: seq<nat>, infos: seq<Info>) returns (sorted: seq<nat>)
    requires EntriesAt(raw, at, infos)
    ensures EntriesAt(raw, sorted, Sort(infos, ByOffset)) && multiset(sorted) == multiset(at)
    decreases |at|
  {
    hide EntryAt;
    if infos == [] {
      sorted := at;
    } else {
      var rest := SortBoth(raw, at[1..], infos[1..]);
      sorted := InsertBoth(raw, at[0], infos[0], rest, Sort(infos[1..], ByOffset));
      assert at == [at[0]] + at[1..];
    }
  }

  lemma SameIn(p: seq<nat>, q: seq<nat>, x: nat)
    requires multiset(p) == multiset(q)
    ensures x in p <==> x in q
  {
    assert x in p <==> x in multiset(p);
  }

  /** What rises strictly is the only order in which nothing falls. */
  lemma {:induction false} RisingUnique(p: seq<nat>, q: seq<nat>, f: nat -> nat)
    requires multiset(p) == multiset(q)
    requires forall i, j :: 0 <= i < j < |p| ==> f(p[i]) < f(p[j])
    requires forall i, j :: 0 <= i < j < |q| ==> f(q[i]) <= f(q[j])
    ensures p == q
  {
    assert |p| == |multiset(p)| == |multiset(q)| == |q|;
    if p != [] {
      SameFirst(p, q, f);
      TailsSame(p, q);
      RisingUnique(p[1..], q[1..], f);
      assert p == [p[0]] + p[1..] && q == [q[0]] + q[1..];
    }
  }

  lemma SameFirst(p: seq<nat>, q: seq<nat>, f: nat -> nat)
    requires multiset(p) == multiset(q) && p != [] && q != []
    requires forall i, j :: 0 <= i < j < |p| ==> f(p[i]) < f(p[j])
    requires forall i, j :: 0 <= i < j < |q| ==> f(q[i]) <= f(q[j])
    ensures p[0] == q[0]
  {
    SameIn(p, q, p[0]);
    SameIn(p, q, q[0]);
    var i :| 0 <= i < |p| && p[i] == q[0];
    var j :| 0 <= j < |q| && q[j] == p[0];
    FirstBelow(p, f, i);
    FirstLeast(q, f, j);
  }

  lemma FirstBelow(p: seq<nat>, f: nat -> nat, i: nat)
    requires i < |p| && forall i, j :: 0 <= i < j < |p| ==> f(p[i]) < f(p[j])
    ensures i == 0 || f(p[0]) < f(p[i])
  {
  }

  lemma FirstLeast(q: seq<nat>, f: nat -> nat, j: nat)
    requires j < |q| && forall i, j :: 0 <= i < j < |q| ==> f(q[i]) <= f(q[j])
    ensures f(q[0]) <= f(q[j])
  {
  }

  lemma TailsSame(p: seq<nat>, q: seq<nat>)
    requires multiset(p) == multiset(q) && p != [] && q != [] && p[0] == q[0]
    ensures multiset(p[1..]) == multiset(q[1..])
  {
    assert p == [p[0]] + p[1..] && q == [q[0]] + q[1..];
    assert multiset(p[1..]) == multiset(p) - multiset([p[0]]);
    assert multiset(q[1..]) == multiset(q) - multiset([q[0]]);
  }

  function OffsetIn(raw: Bytes): nat -> nat {
    (c: nat) => if c + 46 <= |raw| then U32(raw, c + 42) else 0
  }

  lemma OffsetsAre(raw: Bytes, at: seq<nat>, infos: seq<Info>)
    requires EntriesAt(raw, at, infos)
    ensures forall i :: 0 <= i < |at| ==> OffsetIn(raw)(at[i]) == infos[i].offset
  {
    hide U16, U32;
    assert forall i :: 0 <= i < |infos| ==> EntryAt(raw, at[i], infos[i]);
  }

  lemma SortedOffsets(raw: Bytes, listed: seq<Info>)
    ensures var infos := Arranged(listed); forall i, j :: 0 <= i < j < |infos| ==> infos[i].offset <= infos[j].offset
  {
    ArrangedExtents(raw, listed, 0);
    var infos := Arranged(listed);
    forall i, j | 0 <= i < j < |infos|
      ensures infos[i].offset <= infos[j].offset
    {
      assert Extents(raw, infos)[i].lo <= Extents(raw, infos)[j].lo;
    }
  }

  // ---------------------------------------------------------------------- members

  /** The member an entry is about. */
  function MemberOf(tools: Tools, raw: Bytes, info: Info): Member
    requires info.offset + 30 <= |raw| && DataStop(raw, info) <= |raw|
  {
    var plain := Plaintext(tools, raw, info);
    ZipMeaning.Member(Name(info), if plain.Some? then plain.value else [], info.offset, MemberEnd(raw, info))
  }

  lemma TextIs(b: Bytes, name: string)
    ensures Text(b) == Some(name) <==> |name| == |b| && forall k :: 0 <= k < |b| ==> b[k] < 128 && b[k] as int == name[k] as int
  {
    if |name| == |b| && forall k :: 0 <= k < |b| ==> b[k] < 128 && b[k] as int == name[k] as int {
      assert forall x | x in b :: x < 128;
      assert |Text(b).value| == |name| && forall k :: 0 <= k < |b| ==> Text(b).value[k] == name[k];
      assert Text(b).value == name;
    }
    if Text(b) == Some(name) {
      assert forall k :: 0 <= k < |b| ==> b[k] in b;
    }
  }

  /** The visible name, without extra field and comment. */
  lemma NamedExactly(raw: Bytes, c: nat, name: string)
    requires 22 <= |raw| && c + 46 <= |raw| - 22
    ensures var info := LooseInfo(raw, c, |raw| - 22);
      Text(info.stored) == Some(name) && 0 !in info.stored && info.extra == 0 && info.comment == 0 <==> NamedAt(raw, c, name)
  {
    hide U16, U32, Text;
    var info := LooseInfo(raw, c, |raw| - 22);
    var b := info.stored;
    TextIs(b, name);
    assert forall k :: 0 <= k < |b| ==> b[k] == raw[c + 46 + k];
    assert 0 !in b <==> forall k :: 0 <= k < |b| ==> b[k] != 0;
    if NamedAt(raw, c, name) {
      forall k | 0 <= k < |b|
        ensures b[k] < 128 && b[k] as int == name[k] as int && b[k] != 0
      {
        assert raw[c + 46 + k] as int == name[k] as int;
      }
    }
    if Text(b) == Some(name) && 0 !in b {
      forall k | 0 <= k < |name|
        ensures raw[c + 46 + k] as int == name[k] as int && 0 < name[k] as int < 128
      {
        assert b[k] == raw[c + 46 + k] && b[k] in b;
      }
    }
  }

  lemma PermittedExactly(tools: Tools, policy: Policy, raw: Bytes, c: nat, name: string)
    requires 22 <= |raw| && c + 46 <= |raw| - 22 && NamedAt(raw, c, name)
    ensures var info := LooseInfo(raw, c, |raw| - 22);
      Name(info) == name && info.stored == raw[c + 46..c + 46 + |name|]
      && (EntryOk(tools, policy, info) <==> PermittedAt(tools, policy, raw, c, name))
  {
    hide U16, U32, Text, Name;
    NamedExactly(raw, c, name);
    NameIs(raw, c, name);
    var external := U32(raw, c + 38);
    assert external / 65536 / 4096 == external / 268435456;
  }

  lemma NameIs(raw: Bytes, c: nat, name: string)
    requires 22 <= |raw| && c + 46 <= |raw| - 22 && NamedAt(raw, c, name)
    ensures var info := LooseInfo(raw, c, |raw| - 22); Name(info) == name && info.stored == raw[c + 46..c + 46 + |name|]
  {
    hide U16, U32, Text;
    NamedExactly(raw, c, name);
  }

  lemma SameBytes(raw: Bytes, p: nat, q: nat, n: nat, name: string)
    requires p + n <= |raw| && q + |name| <= |raw|
    requires forall k :: 0 <= k < |name| ==> raw[q + k] as int == name[k] as int
    ensures raw[p..p + n] == raw[q..q + |name|] <==> n == |name| && forall k :: 0 <= k < n ==> raw[p + k] as int == name[k] as int
  {
    var a, b := raw[p..p + n], raw[q..q + |name|];
    assert forall k :: 0 <= k < |a| ==> a[k] == raw[p + k];
    assert forall k :: 0 <= k < |b| ==> b[k] == raw[q + k];
    if n == |name| && forall k :: 0 <= k < n ==> raw[p + k] as int == name[k] as int {
      forall k | 0 <= k < n
        ensures a[k] == b[k]
      {
        assert a[k] == raw[p + k] && b[k] == raw[q + k];
        assert raw[p + k] as int == name[k] as int == raw[q + k] as int;
      }
      assert a == b;
    }
    if a == b {
      forall k | 0 <= k < n
        ensures raw[p + k] as int == name[k] as int
      {
        assert a[k] == b[k];
      }
    }
  }

  lemma LocalExactly(raw: Bytes, c: nat, top: nat, name: string)
    requires 22 <= |raw| && c + 46 <= |raw| - 22 && top <= |raw| && NamedAt(raw, c, name)
    ensures var info := LooseInfo(raw, c, |raw| - 22);
      LocalOk(raw, top, info) <==>
        && LocalAt(raw, c, info.offset, top, name)
        && DataStop(raw, info) == info.offset + 30 + |name| + info.packed
        && EndsAt(raw, c, info.offset, top, name, MemberEnd(raw, info))
  {
    hide U16, U32, NamedAt, LocalAt, LocalOk, EndsAt, MemberEnd, DescriptorOk, DataStop;
    var info := LooseInfo(raw, c, |raw| - 22);
    HeadExactly(raw, c, top, name);
    LocalHeads(raw, c, top, name);
    if info.offset + 30 <= |raw| && DataStop(raw, info) <= top {
      EndExactly(raw, c, top, name);
    }
  }

  /** Everything demanded of a local header but for its descriptor. */
  predicate HeadOk(raw: Bytes, top: nat, info: Info) {
    && top <= |raw| && info.offset + 30 <= |raw|
    && raw[info.offset..info.offset + 4] == LOCAL
    && U16(raw, info.offset + 6) == info.flags && U16(raw, info.offset + 8) == info.method_
    && U16(raw, info.offset + 28) == 0
    && Repeats(U32(raw, info.offset + 14), info.crc, Bit(info.flags, 8))
    && Repeats(U32(raw, info.offset + 18), info.packed, Bit(info.flags, 8))
    && Repeats(U32(raw, info.offset + 22), info.size, Bit(info.flags, 8))
    && DataStop(raw, info) <= top
    && raw[info.offset + 30..DataStart(raw, info)] == info.stored
  }

  lemma LocalHeads(raw: Bytes, c: nat, top: nat, name: string)
    requires 22 <= |raw| && c + 46 <= |raw| - 22 && top <= |raw|
    ensures var info := LooseInfo(raw, c, |raw| - 22);
      LocalOk(raw, top, info) <==> HeadOk(raw, top, info) && (Bit(info.flags, 8) ==> DescriptorOk(raw, info))
  {
    hide U16, U32, Repeats, DescriptorOk, LooseInfo, Bit;
  }

  lemma HeadExactly(raw: Bytes, c: nat, top: nat, name: string)
    requires 22 <= |raw| && c + 46 <= |raw| - 22 && top <= |raw| && NamedAt(raw, c, name)
    ensures var info := LooseInfo(raw, c, |raw| - 22);
      HeadOk(raw, top, info) <==>
        LocalAt(raw, c, info.offset, top, name) && DataStop(raw, info) == info.offset + 30 + |name| + info.packed
  {
    hide U16, U32, NamedAt, Name, FieldAgrees, Repeats, HeadOk, LooseInfo, DataStop;
    var info := LooseInfo(raw, c, |raw| - 22);
    if HeadOk(raw, top, info) {
      HeadMeans(raw, c, top, name);
    }
    if LocalAt(raw, c, info.offset, top, name) {
      MeansHead(raw, c, top, name);
    }
  }

  lemma HeadMeans(raw: Bytes, c: nat, top: nat, name: string)
    requires 22 <= |raw| && c + 46 <= |raw| - 22 && top <= |raw| && NamedAt(raw, c, name)
    requires HeadOk(raw, top, LooseInfo(raw, c, |raw| - 22))
    ensures var info := LooseInfo(raw, c, |raw| - 22);
      LocalAt(raw, c, info.offset, top, name) && DataStop(raw, info) == info.offset + 30 + |name| + info.packed
  {
    hide U16, U32, NamedAt, Name, FieldAgrees, Repeats, Bit;
    var h := LooseInfo(raw, c, |raw| - 22).offset;
    ZipMeaning.FourBytes(raw, h, 0x50, 0x4B, 3, 4);
    FieldsExactly(raw, c, h);
    NameRepeated(raw, c, h, name);
  }

  lemma MeansHead(raw: Bytes, c: nat, top: nat, name: string)
    requires 22 <= |raw| && c + 46 <= |raw| - 22 && top <= |raw| && NamedAt(raw, c, name)
    requires LocalAt(raw, c, LooseInfo(raw, c, |raw| - 22).offset, top, name)
    ensures var info := LooseInfo(raw, c, |raw| - 22);
      info.offset + 30 <= |raw| && HeadOk(raw, top, info) && DataStop(raw, info) == info.offset + 30 + |name| + info.packed
  {
    hide U16, U32, NamedAt, Name, FieldAgrees, Repeats, Bit;
    var h := LooseInfo(raw, c, |raw| - 22).offset;
    ZipMeaning.FourBytes(raw, h, 0x50, 0x4B, 3, 4);
    FieldsExactly(raw, c, h);
    NameRepeated(raw, c, h, name);
  }

  lemma FieldsExactly(raw: Bytes, c: nat, h: nat)
    requires 22 <= |raw| && c + 46 <= |raw| - 22 && h + 30 <= |raw|
    ensures var info := LooseInfo(raw, c, |raw| - 22);
      && (FieldAgrees(raw, c, h + 14, c + 16) <==> Repeats(U32(raw, h + 14), info.crc, Bit(info.flags, 8)))
      && (FieldAgrees(raw, c, h + 18, c + 20) <==> Repeats(U32(raw, h + 18), info.packed, Bit(info.flags, 8)))
      && (FieldAgrees(raw, c, h + 22, c + 24) <==> Repeats(U32(raw, h + 22), info.size, Bit(info.flags, 8)))
  {
    hide U16, U32;
  }

  lemma NameRepeated(raw: Bytes, c: nat, h: nat, name: string)
    requires 22 <= |raw| && c + 46 <= |raw| - 22 && NamedAt(raw, c, name)
    requires h + 30 <= |raw| && h + 30 + U16(raw, h + 26) <= |raw|
    ensures var n := U16(raw, h + 26);
      raw[h + 30..h + 30 + n] == LooseInfo(raw, c, |raw| - 22).stored <==>
        n == |name| && forall k :: 0 <= k < n ==> raw[h + 30 + k] as int == name[k] as int
  {
    hide U16, NamedAt, Name, LooseInfo;
    NameIs(raw, c, name);
    NamedBytes(raw, c, name);
    SameBytes(raw, h + 30, c + 46, U16(raw, h + 26), name);
  }

  lemma NamedBytes(raw: Bytes, c: nat, name: string)
    requires 22 <= |raw| && c + 46 <= |raw| - 22 && NamedAt(raw, c, name)
    ensures c + 46 + |name| <= |raw| && forall k :: 0 <= k < |name| ==> raw[c + 46 + k] as int == name[k] as int
  {
  }

  lemma EndExactly(raw: Bytes, c: nat, top: nat, name: string)
    requires 22 <= |raw| && c + 46 <= |raw| - 22 && top <= |raw|
    requires var info := LooseInfo(raw, c, |raw| - 22); info.offset + 30 <= |raw| && DataStop(raw, info) <= top
    ensures var info := LooseInfo(raw, c, |raw| - 22);
      LocalAt(raw, c, info.offset, top, name) ==>
        (EndsAt(raw, c, info.offset, top, name, MemberEnd(raw, info)) <==> Bit(info.flags, 8) ==> DescriptorOk(raw, info))
  {
    hide U16, U32, FieldAgrees;
    var info := LooseInfo(raw, c, |raw| - 22);
    var stop := DataStop(raw, info);
    if stop + 4 <= |raw| {
      ZipMeaning.FourBytes(raw, stop, 0x50, 0x4B, 7, 8);
    }
  }

  /** There is one end for a member. */
  lemma OneEnd(raw: Bytes, c: nat, top: nat, name: string, end: nat)
    requires 22 <= |raw| && c + 46 <= |raw| - 22 && top <= |raw|
    requires var h := U32(raw, c + 42); LocalAt(raw, c, h, top, name) && EndsAt(raw, c, h, top, name, end)
    ensures var info := LooseInfo(raw, c, |raw| - 22);
      info.offset + 30 <= |raw| && DataStop(raw, info) == info.offset + 30 + |name| + info.packed <= top
      && end == MemberEnd(raw, info) && info.offset < end
  {
    hide U16, U32, FieldAgrees;
    var info := LooseInfo(raw, c, |raw| - 22);
    var stop := DataStop(raw, info);
    if stop + 4 <= |raw| {
      ZipMeaning.FourBytes(raw, stop, 0x50, 0x4B, 7, 8);
    }
  }

  lemma DataExactly(tools: Tools, raw: Bytes, c: nat, top: nat, name: string, data: Bytes)
    requires 22 <= |raw| && c + 46 <= |raw| - 22 && top <= |raw|
    requires var info := LooseInfo(raw, c, |raw| - 22);
      LocalAt(raw, c, info.offset, top, name) && DataStop(raw, info) == info.offset + 30 + |name| + info.packed
    ensures var info := LooseInfo(raw, c, |raw| - 22);
      && DataStop(raw, info) <= |raw|
      && (DataAt(tools, raw, c, info.offset, top, name, data) <==>
            && Plaintext(tools, raw, info) == Some(data)
            && |data| == info.size && tools.crc(data) == info.crc)
  {
    hide U16, U32;
  }

  lemma MemberMeans(tools: Tools, policy: Policy, raw: Bytes, c: nat, top: nat, info: Info)
    requires EntryAt(raw, c, info) && top <= |raw| && MemberOk(tools, policy, raw, top, info)
    ensures info.offset + 30 <= |raw| && DataStop(raw, info) <= |raw|
    ensures MemberAt(tools, policy, raw, c, top, MemberOf(tools, raw, info))
    ensures Plaintext(tools, raw, info).Some? && |Plaintext(tools, raw, info).value| == info.size
  {
    hide U16, U32, Text, LocalAt, EndsAt, DataAt, PermittedAt, NamedAt, LocalOk, EntryOk, Plaintext, DataStop, MemberEnd;
    NameOfEntry(tools, policy, info);
    var name := Name(info);
    NamedExactly(raw, c, name);
    PermittedExactly(tools, policy, raw, c, name);
    LocalExactly(raw, c, top, name);
    LocalFits(raw, top, info);
    DataExactly(tools, raw, c, top, name, Plaintext(tools, raw, info).value);
  }

  lemma LocalFits(raw: Bytes, top: nat, info: Info)
    requires top <= |raw| && LocalOk(raw, top, info)
    ensures info.offset + 30 <= |raw| && DataStop(raw, info) <= |raw|
  {
    hide U16, U32;
  }

  lemma NameOfEntry(tools: Tools, policy: Policy, info: Info)
    requires EntryOk(tools, policy, info)
    ensures Text(info.stored) == Some(Name(info)) && 0 !in info.stored && info.extra == 0 && info.comment == 0
  {
    hide Text;
  }

  lemma MeansMember(tools: Tools, policy: Policy, raw: Bytes, c: nat, top: nat, info: Info, m: Member)
    requires EntryAt(raw, c, info) && top <= |raw| && MemberAt(tools, policy, raw, c, top, m)
    ensures MemberOk(tools, policy, raw, top, info)
    ensures info.offset + 30 <= |raw| && DataStop(raw, info) <= |raw| && m == MemberOf(tools, raw, info) && m.header < m.end
    ensures Plaintext(tools, raw, info) == Some(m.data) && |m.data| == info.size
  {
    hide U16, U32, Text, LocalAt, EndsAt, DataAt, PermittedAt, NamedAt, LocalOk, EntryOk, Plaintext, DataStop, MemberEnd, Name;
    HeaderIs(raw, c, m.header, top, m.name);
    PermittedExactly(tools, policy, raw, c, m.name);
    OneEnd(raw, c, top, m.name, m.end);
    LocalExactly(raw, c, top, m.name);
    DataExactly(tools, raw, c, top, m.name, m.data);
  }

  lemma HeaderIs(raw: Bytes, c: nat, h: nat, top: nat, name: string)
    requires c + 46 <= |raw| && top <= |raw| && LocalAt(raw, c, h, top, name)
    ensures h == U32(raw, c + 42)
  {
  }

  // ------------------------------------------------------------------ whole archives

  function Tail(s: seq<Range>, cursor: nat): nat {
    if s == [] then cursor else s[|s| - 1].hi
  }

  /** The cursor runs through when each interval begins where the one before it ends. */
  lemma {:induction false} SweepJoins(s: seq<Range>, cursor: nat, end: nat)
    ensures Sweep(s, cursor) == Some(end) <==>
      && (s != [] ==> s[0].lo == cursor) && Tail(s, cursor) == end
      && forall i :: 0 < i < |s| ==> s[i].lo == s[i - 1].hi
  {
    if s != [] {
      var rest := s[1..];
      SweepJoins(rest, s[0].hi, end);
      assert forall i :: 0 <= i < |rest| ==> rest[i] == s[i + 1];
      if forall i :: 0 < i < |rest| ==> rest[i].lo == rest[i - 1].hi {
        forall i | 1 < i < |s|
          ensures s[i].lo == s[i - 1].hi
        {
          assert rest[i - 1].lo == rest[i - 2].hi;
        }
      }
    }
  }

  /** Each entry is of the member of the same place. */
  predicate Paired(tools: Tools, raw: Bytes, infos: seq<Info>, members: seq<Member>) {
    |members| == |infos| && forall i :: 0 <= i < |infos| ==> PairedAt(tools, raw, infos[i], members[i])
  }

  predicate PairedAt(tools: Tools, raw: Bytes, info: Info, m: Member) {
    && info.offset + 30 <= |raw| && DataStop(raw, info) <= |raw|
    && m.name == Name(info) && Plaintext(tools, raw, info) == Some(m.data) && |m.data| == info.size
    && Extent(raw, info) == Range(m.header, m.end) && m.header < m.end && m.header == info.offset
  }

  lemma {:induction false} FilesPaired(tools: Tools, raw: Bytes, infos: seq<Info>, members: seq<Member>)
    requires Paired(tools, raw, infos, members)
    ensures |Files(tools, raw, infos)| == |members|
    ensures forall i :: 0 <= i < |members| ==> Files(tools, raw, infos)[i] == File(members[i].name, members[i].data)
  {
    hide Plaintext, Name, DataStop, Extent;
    if infos != [] {
      var n := |infos| - 1;
      FilesPaired(tools, raw, infos[..n], members[..n]);
      assert PairedAt(tools, raw, infos[n], members[n]);
    }
  }

  lemma {:induction false} SizesPaired(tools: Tools, raw: Bytes, infos: seq<Info>, members: seq<Member>, sums: seq<nat>)
    requires Paired(tools, raw, infos, members) && Adds(members, sums)
    ensures Sizes(infos) == sums[|members|]
  {
    hide PairedAt;
    if infos != [] {
      var n := |infos| - 1;
      SizesPaired(tools, raw, infos[..n], members[..n], sums[..n + 1]);
      SizePaired(tools, raw, infos[n], members[n]);
    }
  }

  lemma SizePaired(tools: Tools, raw: Bytes, info: Info, m: Member)
    requires PairedAt(tools, raw, info, m)
    ensures |m.data| == info.size && m.name == Name(info) && Extent(raw, info) == Range(m.header, m.end)
    ensures m.header < m.end && m.header == info.offset
  {
  }

  lemma {:induction false} SumsFor(members: seq<Member>) returns (sums: seq<nat>)
    ensures Adds(members, sums)
  {
    if members == [] {
      sums := [0];
    } else {
      var n := |members| - 1;
      var front := SumsFor(members[..n]);
      sums := front + [front[n] + |members[n].data|];
    }
  }

  predicate Consecutive(members: seq<Member>, top: nat)
    requires members != []
  {
    && members[0].header == 0 && members[|members| - 1].end == top
    && forall i :: 0 < i < |members| ==> members[i].header == members[i - 1].end
  }

  predicate HasAll(members: seq<Member>, required: set<string>) {
    forall name | name in required :: Has(members, name)
  }

  predicate NoTwins(members: seq<Member>) {
    forall i, j :: 0 <= i < j < |members| ==> !CaseTwins(members[i].name, members[j].name)
  }

  lemma TwinsExactly(infos: seq<Info>, members: seq<Member>)
    requires |members| == |infos| && forall i :: 0 <= i < |infos| ==> members[i].name == Name(infos[i])
    ensures NamesOk(infos) <==> NoTwins(members)
  {
    hide Name, CaseTwins;
    forall a, b
      ensures Lower(a) == Lower(b) <==> CaseTwins(a, b)
    {
      TwinsAre(a, b);
    }
  }

  lemma TwinsAre(a: string, b: string)
    ensures Lower(a) == Lower(b) <==> CaseTwins(a, b)
  {
    LowerExactly(a, b);
  }

  lemma RequiredExactly(infos: seq<Info>, members: seq<Member>, required: set<string>)
    requires |members| == |infos| && forall i :: 0 <= i < |infos| ==> members[i].name == Name(infos[i])
    ensures (forall name | name in required :: Listed(infos, name)) <==> HasAll(members, required)
  {
    hide Name;
    forall name
      ensures Listed(infos, name) <==> Has(members, name)
    {
      if Listed(infos, name) {
        var i :| 0 <= i < |infos| && Name(infos[i]) == name;
        assert members[i].name == name;
      }
      if Has(members, name) {
        var i :| 0 <= i < |members| && members[i].name == name;
        assert Name(infos[i]) == name;
      }
    }
  }

  lemma TilesExactly(raw: Bytes, infos: seq<Info>, members: seq<Member>, top: nat)
    requires |members| == |infos| && infos != []
    requires forall i :: 0 <= i < |infos| ==> Extent(raw, infos[i]) == Range(members[i].header, members[i].end)
    ensures Sweep(Extents(raw, infos), 0) == Some(top) <==> Consecutive(members, top)
  {
    hide Extent, Sweep;
    var all := Extents(raw, infos);
    SweepJoins(all, 0, top);
    assert forall i :: 0 <= i < |all| ==> all[i] == Range(members[i].header, members[i].end);
  }

  /** What the rest of the demands come to, for entries in order of their offsets. */
  lemma RestExactly(tools: Tools, policy: Policy, raw: Bytes, listed: seq<Info>, members: seq<Member>, sums: seq<nat>, top: nat)
    requires top <= |raw| && listed != [] && Paired(tools, raw, Arranged(listed), members) && Adds(members, sums)
    requires forall i :: 0 <= i < |listed| ==> MemberOk(tools, policy, raw, top, Arranged(listed)[i])
    ensures var infos := Arranged(listed);
      && (NamesOk(infos) <==> NoTwins(members)) && Sizes(infos) == sums[|members|]
      && (Partition(Extents(raw, infos), top) <==> Consecutive(members, top))
      && ((forall name | name in policy.required :: Listed(infos, name)) <==> HasAll(members, policy.required))
  {
    hide MemberOk, PairedAt, Arranged, NamesOk, Sizes, Partition, Extents, Extent, Listed, Name, Consecutive, HasAll, NoTwins, Adds;
    var infos := Arranged(listed);
    forall i | 0 <= i < |infos|
      ensures members[i].name == Name(infos[i]) && Extent(raw, infos[i]) == Range(members[i].header, members[i].end)
    {
      SizePaired(tools, raw, infos[i], members[i]);
    }
    TwinsExactly(infos, members);
    SizesPaired(tools, raw, infos, members, sums);
    TilesExactly(raw, infos, members, top);
    WalkDecides(tools, policy, raw, listed, top);
    RequiredExactly(infos, members, policy.required);
  }

  lemma Assembled(tools: Tools, policy: Policy, raw: Bytes, heads: seq<nat>, at: seq<nat>, members: seq<Member>, sums: seq<nat>)
    ensures IsRestorable(tools, policy, raw, heads, at, members, sums) <==>
      && |heads| == |members| + 1 == |at| + 1 && Framed(raw, heads) && multiset(at) == multiset(heads[..|members|])
      && (forall i :: 0 <= i < |members| ==> MemberAt(tools, policy, raw, at[i], heads[0], members[i]))
      && NoTwins(members) && Adds(members, sums) && sums[|members|] <= 33554432
      && members != [] && Consecutive(members, heads[0]) && HasAll(members, policy.required)
  {
    hide MemberAt, CaseTwins, Adds, HeaderAt, U16, U32;
  }

  /** Every archive that is restored is one as spelled out, and its inventory are the members. */
  lemma RestorableMeans(tools: Tools, policy: Policy, raw: Bytes)
    returns (heads: seq<nat>, at: seq<nat>, members: seq<Member>, sums: seq<nat>)
    requires Restorable(tools, policy, raw)
    ensures IsRestorable(tools, policy, raw, heads, at, members, sums)
    ensures var files := Files(tools, raw, Members(raw));
      |files| == |members| && forall i :: 0 <= i < |members| ==> files[i] == File(members[i].name, members[i].data)
  {
    hide MemberOk, NamesOk, Sizes, Partition, LooseDirectory, Arranged, Extents, Extent, Listed, EntryAt, HeaderAt, Framed,
      MemberAt, IsRestorable, Files, NoTwins, Consecutive, HasAll, Adds, PairedAt, U16, U32, EndOk;
    var top := DirectoryStart(raw);
    var listed := LooseDirectory(raw, top, |raw| - 22).value;
    var infos := Arranged(listed);
    LayoutIs(raw);
    heads := DirectoryHeads(raw, top);
    FramedExactly(raw, heads, listed);
    at := SortedHeads(raw, heads[..|listed|], listed);
    members := MembersMean(tools, policy, raw, top, at, infos);
    sums := SumsFor(members);
    RestExactly(tools, policy, raw, listed, members, sums, top);
    FilesPaired(tools, raw, infos, members);
    Assembled(tools, policy, raw, heads, at, members, sums);
  }

  lemma LayoutIs(raw: Bytes)
    requires LayoutOk(raw)
    ensures 22 <= |raw| && DirectoryStart(raw) <= |raw| && LooseDirectory(raw, DirectoryStart(raw), |raw| - 22).Some?
    ensures 0 < |LooseDirectory(raw, DirectoryStart(raw), |raw| - 22).value|
  {
    hide U16, U32;
  }

  lemma SortedHeads(raw: Bytes, at: seq<nat>, listed: seq<Info>) returns (sorted: seq<nat>)
    requires EntriesAt(raw, at, listed)
    ensures EntriesAt(raw, sorted, Arranged(listed)) && multiset(sorted) == multiset(at)
  {
    hide EntryAt;
    sorted := SortBoth(raw, at, listed);
  }

  lemma MembersMean(tools: Tools, policy: Policy, raw: Bytes, top: nat, at: seq<nat>, infos: seq<Info>)
    returns (members: seq<Member>)
    requires EntriesAt(raw, at, infos) && top <= |raw|
    requires forall i :: 0 <= i < |infos| ==> MemberOk(tools, policy, raw, top, infos[i])
    ensures Paired(tools, raw, infos, members)
    ensures forall i :: 0 <= i < |members| ==> MemberAt(tools, policy, raw, at[i], top, members[i])
  {
    hide MemberOk, MemberAt, EntryAt, PairedAt, DataStop;
    forall i | 0 <= i < |infos|
      ensures infos[i].offset + 30 <= |raw| && DataStop(raw, infos[i]) <= |raw|
      ensures MemberAt(tools, policy, raw, at[i], top, MemberOf(tools, raw, infos[i]))
      ensures PairedAt(tools, raw, infos[i], MemberOf(tools, raw, infos[i]))
    {
      MemberMeans(tools, policy, raw, at[i], top, infos[i]);
      PairedOne(tools, policy, raw, at[i], top, infos[i]);
    }
    members := seq(|infos|, i requires 0 <= i < |infos| => MemberOf(tools, raw, infos[i]));
  }

  lemma PairedOne(tools: Tools, policy: Policy, raw: Bytes, c: nat, top: nat, info: Info)
    requires EntryAt(raw, c, info) && top <= |raw| && MemberOk(tools, policy, raw, top, info)
    ensures info.offset + 30 <= |raw| && DataStop(raw, info) <= |raw|
    ensures PairedAt(tools, raw, info, MemberOf(tools, raw, info))
  {
    MemberMeans(tools, policy, raw, c, top, info);
    hide MemberOk, EntryAt, Name, Plaintext, MemberAt, DataStop, U16, U32;
    MeansMember(tools, policy, raw, c, top, info, MemberOf(tools, raw, info));
  }

  /** And every such archive is restored, with these members in this order. */
  lemma MeansRestorable(tools: Tools, policy: Policy, raw: Bytes, heads: seq<nat>, at: seq<nat>, members: seq<Member>,
                        sums: seq<nat>)
    requires IsRestorable(tools, policy, raw, heads, at, members, sums)
    ensures Restorable(tools, policy, raw)
    ensures var files := Files(tools, raw, Members(raw));
      |files| == |members| && forall i :: 0 <= i < |members| ==> files[i] == File(members[i].name, members[i].data)
  {
    hide MemberOk, NamesOk, Sizes, Partition, LooseDirectory, Arranged, Extents, Extent, Listed, EntryAt, HeaderAt,
      MemberAt, IsRestorable, Files, NoTwins, Consecutive, HasAll, Adds, PairedAt, U16, U32, EndOk;
    Assembled(tools, policy, raw, heads, at, members, sums);
    var top := heads[0];
    var listed := HeadsDirectory(raw, heads);
    FramedExactly(raw, heads, listed);
    hide Framed;
    var sorted := SortedHeads(raw, heads[..|listed|], listed);
    var infos := Arranged(listed);
    OffsetsAre(raw, sorted, infos);
    SortedOffsets(raw, listed);
    MembersRise(tools, policy, raw, at, members, top);
    RisingUnique(at, sorted, OffsetIn(raw));
    forall i | 0 <= i < |infos|
      ensures MemberOk(tools, policy, raw, top, infos[i]) && PairedAt(tools, raw, infos[i], members[i])
    {
      MeansPaired(tools, policy, raw, at[i], top, infos[i], members[i]);
    }
    RestExactly(tools, policy, raw, listed, members, sums, top);
    FilesPaired(tools, raw, infos, members);
  }

  lemma MeansPaired(tools: Tools, policy: Policy, raw: Bytes, c: nat, top: nat, info: Info, m: Member)
    requires EntryAt(raw, c, info) && top <= |raw| && MemberAt(tools, policy, raw, c, top, m)
    ensures MemberOk(tools, policy, raw, top, info) && PairedAt(tools, raw, info, m)
  {
    hide MemberOk, EntryAt, Name, Plaintext, MemberAt, DataStop, U16, U32;
    MeansMember(tools, policy, raw, c, top, info, m);
  }

  /** Members one behind the other begin later and later. */
  lemma MembersRise(tools: Tools, policy: Policy, raw: Bytes, at: seq<nat>, members: seq<Member>, top: nat)
    requires |at| == |members| != 0 && 22 <= |raw| && top <= |raw| && Consecutive(members, top)
    requires forall i :: 0 <= i < |members| ==> MemberAt(tools, policy, raw, at[i], top, members[i])
    ensures forall i :: 0 <= i < |at| ==> OffsetIn(raw)(at[i]) == members[i].header
    ensures forall i, j :: 0 <= i < j < |at| ==> OffsetIn(raw)(at[i]) < OffsetIn(raw)(at[j])
  {
    hide MemberAt, U32;
    forall i | 0 <= i < |members|
      ensures OffsetIn(raw)(at[i]) == members[i].header < members[i].end
    {
      OneOffset(tools, policy, raw, at[i], top, members[i]);
    }
    Rising(members);
  }

  lemma OneOffset(tools: Tools, policy: Policy, raw: Bytes, c: nat, top: nat, m: Member)
    requires 22 <= |raw| && MemberAt(tools, policy, raw, c, top, m)
    ensures OffsetIn(raw)(c) == m.header < m.end
  {
    hide U16, U32, LocalAt, EndsAt, DataAt, NamedAt, PermittedAt;
    HeaderIs(raw, c, m.header, top, m.name);
    OneEnd(raw, c, top, m.name, m.end);
  }

  lemma {:induction false} Rising(members: seq<Member>)
    requires forall i :: 0 <= i < |members| ==> members[i].header < members[i].end
    requires forall i :: 0 < i < |members| ==> members[i].header == members[i - 1].end
    ensures forall i, j :: 0 <= i < j < |members| ==> members[i].header < members[j].header
  {
    if members != [] {
      var n := |members| - 1;
      Rising(members[..n]);
      forall i | 0 <= i < n
        ensures members[i].header < members[n].header
      {
        assert members[..n][i].header <= members[n - 1].header by {
          assert i < n - 1 ==> members[..n][i].header < members[..n][n - 1].header;
        }
      }
    }
  }
}
