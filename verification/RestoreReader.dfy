/** `archive_members` of `athena_restore.py`: the reader that walks the members in the order
    of their offsets with one running cursor. */
module RestoreReader {
  import opened Common
  import opened Tiling
  import opened ZipFormat

  const ZIP_LIMIT: nat := 16 * 1024 * 1024
  const EXPANSION_LIMIT: nat := 32 * 1024 * 1024
  const MEMBER_LIMIT: nat := 64
  const DIRECTORY_LIMIT: nat := 256 * 1024

  /** The reviewed member names, those that must be there, and the size limit of each. */
  datatype Policy = Policy(allowed: set<string>, required: set<string>, limit: string -> nat)

  datatype Invalid = InvalidArchive

  function Clip(p: nat, stop: nat): nat {
    if p <= stop then p else stop
  }

  /** A directory entry as the archive library reads it: what lies behind `stop` is missing
      from the name, the extra field and the comment of the last entry. */
  function LooseInfo(raw: Bytes, p: nat, stop: nat): Info
    requires p + 46 <= stop <= |raw|
  {
    var n := p + 46 + U16(raw, p + 28);
    var x := n + U16(raw, p + 30);
    Info(raw[p + 5], raw[p + 6], U16(raw, p + 8), U16(raw, p + 10), U16(raw, p + 12), U16(raw, p + 14),
         U32(raw, p + 16), U32(raw, p + 20), U32(raw, p + 24),
         raw[p + 46..Clip(n, stop)], Clip(x, stop) - Clip(n, stop),
         Clip(x + U16(raw, p + 32), stop) - Clip(x, stop), U32(raw, p + 38), U32(raw, p + 42))
  }

  function LooseDirectory(raw: Bytes, p: nat, stop: nat): Option<seq<Info>>
    requires stop <= |raw|
    decreases |raw| - p
  {
    if stop <= p then Some([])
    else if stop < p + 46 || raw[p..p + 4] != CENTRAL then None
    else
      var rest := LooseDirectory(raw, p + CentralSize(raw, p), stop);
      if rest.None? then None else Some([LooseInfo(raw, p, stop)] + rest.value)
  }

  predicate ByOffset(a: Info, b: Info) {
    a.offset <= b.offset
  }

  predicate LayoutOk(raw: Bytes) {
    && |raw| <= ZIP_LIMIT && EndOk(raw)
    && 0 < Count(raw) <= MEMBER_LIMIT && U32(raw, |raw| - 22 + 12) <= DIRECTORY_LIMIT
    && LooseDirectory(raw, DirectoryStart(raw), |raw| - 22).Some?
    && |LooseDirectory(raw, DirectoryStart(raw), |raw| - 22).value| == Count(raw)
  }

  /** In the order of their offsets. */
  function Arranged(listed: seq<Info>): (r: seq<Info>)
    ensures |r| == |listed| && forall info :: info in r <==> info in listed
  {
    Sort(listed, ByOffset)
  }

  function Members(raw: Bytes): seq<Info>
    requires LayoutOk(raw)
  {
    Arranged(LooseDirectory(raw, DirectoryStart(raw), |raw| - 22).value)
  }

  function Name(info: Info): string {
    if Text(info.stored).Some? then Text(info.stored).value else ""
  }

  predicate EntryOk(tools: Tools, policy: Policy, info: Info) {
    var mode := info.external / 65536;
    && info.extract <= 63 && (Bit(info.flags, 0x800) ==> tools.utf8(info.stored))
    && Text(info.stored).Some? && 0 !in info.stored
    && Name(info) in policy.allowed && |Name(info)| <= PATH_BYTES
    && info.extra == 0 && info.comment == 0
    && (Name(info) != "" ==> Name(info)[|Name(info)| - 1] != '/') && !Bit(info.external, 16)
    && (info.flags == 0 || info.flags == 8 || info.flags == 0x800 || info.flags == 0x808)
    && (info.method_ == 0 || info.method_ == 8)
    && (mode / 4096 == 0 || mode / 4096 == 8)
    && info.size <= policy.limit(Name(info))
  }

  /** With a data descriptor the local header may leave a field zero. */
  predicate Repeats(value: nat, wanted: nat, later: bool) {
    value == wanted || (later && value == 0)
  }

  predicate LocalOk(raw: Bytes, start: nat, info: Info)
    requires start <= |raw|
  {
    var at := info.offset;
    var later := Bit(info.flags, 8);
    && at + 30 <= |raw|
    && raw[at..at + 4] == LOCAL
    && U16(raw, at + 6) == info.flags && U16(raw, at + 8) == info.method_ && U16(raw, at + 28) == 0
    && Repeats(U32(raw, at + 14), info.crc, later)
    && Repeats(U32(raw, at + 18), info.packed, later)
    && Repeats(U32(raw, at + 22), info.size, later)
    && DataStop(raw, info) <= start
    && raw[at + 30..DataStart(raw, info)] == info.stored
    && (later ==> DescriptorOk(raw, info))
  }

  function Plaintext(tools: Tools, raw: Bytes, info: Info): Option<Bytes>
    requires info.offset + 30 <= |raw| && DataStop(raw, info) <= |raw|
  {
    Expanded(tools, info.method_, raw[DataStart(raw, info)..DataStop(raw, info)])
  }

  predicate MemberOk(tools: Tools, policy: Policy, raw: Bytes, start: nat, info: Info)
    requires start <= |raw|
  {
    && EntryOk(tools, policy, info) && LocalOk(raw, start, info)
    && var plain := Plaintext(tools, raw, info);
    && plain.Some? && |plain.value| == info.size && tools.crc(plain.value) == info.crc
  }

  function Extent(raw: Bytes, info: Info): Range {
    if info.offset + 30 <= |raw| && DataStop(raw, info) <= |raw|
    then Range(info.offset, MemberEnd(raw, info)) else Range(info.offset, info.offset)
  }

  /** The bytes of every member, header to end, in the order of the members. */
  function Extents(raw: Bytes, infos: seq<Info>): (r: seq<Range>)
    ensures |r| == |infos| && forall i :: 0 <= i < |infos| ==> r[i] == Extent(raw, infos[i])
  {
    if infos == [] then [] else [Extent(raw, infos[0])] + Extents(raw, infos[1..])
  }

  function ExtentIn(raw: Bytes): Info -> Range {
    info => Extent(raw, info)
  }

  predicate NamesOk(infos: seq<Info>) {
    forall i, j :: 0 <= i < j < |infos| ==> Lower(Name(infos[i])) != Lower(Name(infos[j]))
  }

  function Sizes(infos: seq<Info>): nat {
    if infos == [] then 0 else Sizes(infos[..|infos| - 1]) + infos[|infos| - 1].size
  }

  function Files(tools: Tools, raw: Bytes, infos: seq<Info>): seq<File> {
    if infos == [] then []
    else
      var last := infos[|infos| - 1];
      var plain := if last.offset + 30 <= |raw| && DataStop(raw, last) <= |raw| then Plaintext(tools, raw, last) else None;
      Files(tools, raw, infos[..|infos| - 1]) + [File(Name(last), if plain.Some? then plain.value else [])]
  }

  predicate Listed(infos: seq<Info>, name: string) {
    exists i :: 0 <= i < |infos| && Name(infos[i]) == name
  }

  /** `archive_members` accepts: sound members with distinct names, all required ones among
      them, within the expansion limit, their bytes a partition of what precedes the directory. */
  predicate Restorable(tools: Tools, policy: Policy, raw: Bytes) {
    && LayoutOk(raw)
    && var infos := Members(raw);
    && (forall i :: 0 <= i < |infos| ==> MemberOk(tools, policy, raw, DirectoryStart(raw), infos[i]))
    && NamesOk(infos)
    && Sizes(infos) <= EXPANSION_LIMIT
    && Partition(Extents(raw, infos), DirectoryStart(raw))
    && forall name | name in policy.required :: Listed(infos, name)
  }

  // ------------------------------------------------------------------- the reader

  /** The expansion loop of one member. */
  method Expand(plain: Bytes, limit: nat, total: nat) returns (body: Option<Bytes>)
    ensures body.Some? <==> plain == [] || (|plain| <= limit && total + |plain| <= EXPANSION_LIMIT)
    ensures body.Some? ==> body.value == plain
  {
    var sofar: Bytes, offset: nat := [], 0;
    while offset < |plain|
      invariant offset <= |plain| && sofar == plain[..offset]
      invariant offset == 0 || (offset <= limit && total + offset <= EXPANSION_LIMIT)
    {
      var stop := if offset + CHUNK < |plain| then offset + CHUNK else |plain|;
      if limit < stop || EXPANSION_LIMIT < total + stop {
        return None;
      }
      sofar := sofar + plain[offset..stop];
      offset := stop;
    }
    body := Some(sofar);
  }

  method ReadMember(tools: Tools, policy: Policy, raw: Bytes, start: nat, info: Info, total: nat)
    returns (body: Option<Bytes>)
    requires start <= |raw|
    ensures body.Some? <==> MemberOk(tools, policy, raw, start, info) && total + info.size <= EXPANSION_LIMIT
    ensures body.Some? ==> info.offset + 30 <= |raw| && DataStop(raw, info) <= |raw|
    ensures body.Some? ==> body == Plaintext(tools, raw, info)
  {
    if !EntryOk(tools, policy, info) || EXPANSION_LIMIT < total + info.size || !LocalOk(raw, start, info) {
      return None;
    }
    var plain := Plaintext(tools, raw, info);
    if plain.None? {
      return None;
    }
    body := Expand(plain.value, policy.limit(Name(info)), total);
    if body.None? || |body.value| != info.size || tools.crc(body.value) != info.crc {
      return None;
    }
  }

  /** The walk so far. */
  ghost predicate Walked(tools: Tools, policy: Policy, raw: Bytes, start: nat, infos: seq<Info>,
                         seen: set<string>, selected: map<string, Bytes>, files: seq<File>)
    requires start <= |raw|
  {
    && (forall i :: 0 <= i < |infos| ==> MemberOk(tools, policy, raw, start, infos[i]))
    && (forall i :: 0 <= i < |infos| ==> Lower(Name(infos[i])) in seen)
    && (forall f | f in seen :: exists i :: 0 <= i < |infos| && Lower(Name(infos[i])) == f)
    && files == Files(tools, raw, infos)
    && (forall f | f in files && f.name in policy.required :: f.name in selected && selected[f.name] == f.data)
    && forall n | n in selected :: n in policy.required && Listed(infos, n)
  }

  lemma WalkStart(tools: Tools, policy: Policy, raw: Bytes, start: nat)
    requires start <= |raw|
    ensures Walked(tools, policy, raw, start, [], {}, map[], []) && NamesOk([]) && Sizes([]) == 0
  {
  }

  lemma ListedOneMore(infos: seq<Info>, info: Info, n: string)
    ensures Listed(infos + [info], n) <==> Listed(infos, n) || n == Name(info)
  {
    hide Name;
    var all := infos + [info];
    if Listed(infos, n) {
      var i :| 0 <= i < |infos| && Name(infos[i]) == n;
      assert Name(all[i]) == n;
    }
    if n == Name(info) {
      assert Name(all[|infos|]) == n;
    }
  }

  lemma WalkOneMore(tools: Tools, policy: Policy, raw: Bytes, start: nat, infos: seq<Info>, info: Info,
                    seen: set<string>, selected: map<string, Bytes>, files: seq<File>, data: Bytes)
    requires start <= |raw| && Walked(tools, policy, raw, start, infos, seen, selected, files)
    requires MemberOk(tools, policy, raw, start, info) && Lower(Name(info)) !in seen
    requires info.offset + 30 <= |raw| && DataStop(raw, info) <= |raw| && Plaintext(tools, raw, info) == Some(data)
    ensures Walked(tools, policy, raw, start, infos + [info], seen + {Lower(Name(info))},
                   if Name(info) in policy.required then selected[Name(info) := data] else selected,
                   files + [File(Name(info), data)])
  {
    hide MemberOk, Lower, Name, Files;
    var all, name := infos + [info], Name(info);
    assert all[..|infos|] == infos;
    FilesOneMore(tools, raw, infos, info, data);
    forall n
      ensures Listed(all, n) <==> Listed(infos, n) || n == name
    {
      ListedOneMore(infos, info, n);
    }
    assert !Listed(infos, name);
    forall f | f in files
      ensures f.name != name
    {
      FilesListed(tools, raw, infos);
      var i :| 0 <= i < |infos| && files[i] == f;
      assert Name(infos[i]) == f.name;
    }
    hide Listed;
    FoldedOneMore(infos, info, seen);
  }

  lemma FoldedOneMore(infos: seq<Info>, info: Info, seen: set<string>)
    requires forall i :: 0 <= i < |infos| ==> Lower(Name(infos[i])) in seen
    requires forall f | f in seen :: exists i :: 0 <= i < |infos| && Lower(Name(infos[i])) == f
    ensures var all, more := infos + [info], seen + {Lower(Name(info))};
            && (forall i :: 0 <= i < |all| ==> Lower(Name(all[i])) in more)
            && forall f | f in more :: exists i :: 0 <= i < |all| && Lower(Name(all[i])) == f
  {
    hide Lower, Name;
    var all, more := infos + [info], seen + {Lower(Name(info))};
    forall f | f in more
      ensures exists i :: 0 <= i < |all| && Lower(Name(all[i])) == f
    {
      if f in seen {
        var i :| 0 <= i < |infos| && Lower(Name(infos[i])) == f;
        assert all[i] == infos[i];
      } else {
        assert Lower(Name(all[|infos|])) == f;
      }
    }
  }

  lemma FilesOneMore(tools: Tools, raw: Bytes, infos: seq<Info>, info: Info, data: Bytes)
    requires info.offset + 30 <= |raw| && DataStop(raw, info) <= |raw| && Plaintext(tools, raw, info) == Some(data)
    ensures Files(tools, raw, infos + [info]) == Files(tools, raw, infos) + [File(Name(info), data)]
  {
    assert (infos + [info])[..|infos|] == infos;
  }

  lemma {:induction false} FilesListed(tools: Tools, raw: Bytes, infos: seq<Info>)
    ensures |Files(tools, raw, infos)| == |infos|
    ensures forall i :: 0 <= i < |infos| ==> Files(tools, raw, infos)[i].name == Name(infos[i])
  {
    if infos != [] {
      FilesListed(tools, raw, infos[..|infos| - 1]);
    }
  }

  /** A name seen before refuses the archive; one not seen keeps all names distinct. */
  lemma NamesOneMore(infos: seq<Info>, n: nat, seen: set<string>)
    requires n < |infos| && NamesOk(infos[..n])
    requires forall i :: 0 <= i < n ==> Lower(Name(infos[i])) in seen
    requires forall f | f in seen :: exists i :: 0 <= i < n && Lower(Name(infos[i])) == f
    ensures Lower(Name(infos[n])) in seen ==> !NamesOk(infos)
    ensures Lower(Name(infos[n])) !in seen ==> NamesOk(infos[..n + 1])
  {
    hide Lower, Name;
    forall i | 0 <= i < n
      ensures infos[..n][i] == infos[i]
    {
    }
  }

  lemma {:induction false} SizesOfMore(infos: seq<Info>, n: nat)
    requires n <= |infos|
    ensures Sizes(infos[..n]) <= Sizes(infos)
  {
    if n < |infos| {
      assert infos[..|infos| - 1][..n] == infos[..n];
      SizesOfMore(infos[..|infos| - 1], n);
    } else {
      assert infos[..n] == infos;
    }
  }

  lemma {:induction false} SpansAreExtents(raw: Bytes, infos: seq<Info>)
    ensures Spans(infos, ExtentIn(raw)) == Extents(raw, infos)
  {
    if infos != [] {
      SpansAreExtents(raw, infos[1..]);
    }
  }

  lemma OffsetsOrderExtents(raw: Bytes)
    ensures ByStart(ExtentIn(raw), ByOffset)
  {
  }

  lemma SoundIsNonempty(tools: Tools, policy: Policy, raw: Bytes, start: nat, infos: seq<Info>)
    requires start <= |raw| && forall i :: 0 <= i < |infos| ==> MemberOk(tools, policy, raw, start, infos[i])
    ensures Nonempty(Extents(raw, infos))
  {
    hide MemberOk, Extents, Extent;
    forall r | r in Extents(raw, infos)
      ensures r.lo < r.hi
    {
      var i :| 0 <= i < |infos| && Extents(raw, infos)[i] == r;
      MemberNonempty(tools, policy, raw, start, infos[i]);
    }
  }

  lemma MemberNonempty(tools: Tools, policy: Policy, raw: Bytes, start: nat, info: Info)
    requires start <= |raw| && MemberOk(tools, policy, raw, start, info)
    ensures Extent(raw, info).lo < Extent(raw, info).hi
  {
    hide EntryOk;
  }

  lemma ArrangedExtents(raw: Bytes, listed: seq<Info>, start: nat)
    ensures var infos := Arranged(listed);
            && Ordered(Extents(raw, infos))
            && (Partition(Extents(raw, infos), start) <==> Partition(Extents(raw, listed), start))
  {
    OffsetsOrderExtents(raw);
    SortedSpans(listed, ExtentIn(raw), ByOffset, start);
    SpansAreExtents(raw, Arranged(listed));
    SpansAreExtents(raw, listed);
  }

  /** On sound members in order of their offsets the cursor decides partition, in that order
      and in the order the directory lists them. */
  lemma WalkDecides(tools: Tools, policy: Policy, raw: Bytes, listed: seq<Info>, start: nat)
    requires start <= |raw|
    requires forall i :: 0 <= i < |Arranged(listed)| ==> MemberOk(tools, policy, raw, start, Arranged(listed)[i])
    ensures var infos := Arranged(listed);
            && (Sweep(Extents(raw, infos), 0) == Some(start) <==> Partition(Extents(raw, infos), start))
            && (Partition(Extents(raw, infos), start) <==> Partition(Extents(raw, listed), start))
  {
    hide *;
    SoundIsNonempty(tools, policy, raw, start, Arranged(listed));
    ArrangedExtents(raw, listed, start);
    CursorDecidesPartition(Extents(raw, Arranged(listed)), start);
  }

  /** The members walked in order with the cursor, from header to header. */
  method Walk(tools: Tools, policy: Policy, raw: Bytes, start: nat, infos: seq<Info>)
    returns (r: Option<(map<string, Bytes>, seq<File>)>)
    requires start <= |raw|
    ensures r.Some? <==>
      && (forall i :: 0 <= i < |infos| ==> MemberOk(tools, policy, raw, start, infos[i]))
      && NamesOk(infos) && Sizes(infos) <= EXPANSION_LIMIT
      && Sweep(Extents(raw, infos), 0) == Some(start)
    ensures r.Some? ==> exists seen :: Walked(tools, policy, raw, start, infos, seen, r.value.0, r.value.1)
  {
    hide MemberOk, NamesOk, Sizes, Walked, Lower, Name, Extent, Plaintext;
    var selected: map<string, Bytes>, files: seq<File>, seen: set<string> := map[], [], {};
    var previous: nat, total: nat := 0, 0;
    WalkStart(tools, policy, raw, start);
    for i := 0 to |infos|
      invariant Walked(tools, policy, raw, start, infos[..i], seen, selected, files) && NamesOk(infos[..i])
      invariant total == Sizes(infos[..i]) <= EXPANSION_LIMIT
      invariant Sweep(Extents(raw, infos), 0) == Sweep(Extents(raw, infos[i..]), previous)
    {
      var info := infos[i];
      assert infos[..i + 1] == infos[..i] + [info] && infos[i..][1..] == infos[i + 1..] && infos[i..][0] == info;
      WalkedSeen(tools, policy, raw, start, infos, i, seen, selected, files);
      SizesAt(infos, i);
      if Lower(Name(info)) in seen {
        return None;
      }
      if info.offset != previous {
        CursorMissed(tools, policy, raw, start, infos, i, previous);
        return None;
      }
      var body := ReadMember(tools, policy, raw, start, info, total);
      if body.None? {
        return None;
      }
      total := total + info.size;
      WalkOneMore(tools, policy, raw, start, infos[..i], info, seen, selected, files, body.value);
      seen, files := seen + {Lower(Name(info))}, files + [File(Name(info), body.value)];
      selected := if Name(info) in policy.required then selected[Name(info) := body.value] else selected;
      previous := MemberEnd(raw, info);
      CursorMoved(raw, info);
    }
    assert infos[..|infos|] == infos;
    WalkedMembers(tools, policy, raw, start, infos, seen, selected, files);
    r := if previous == start then Some((selected, files)) else None;
  }

  lemma WalkedMembers(tools: Tools, policy: Policy, raw: Bytes, start: nat, infos: seq<Info>,
                      seen: set<string>, selected: map<string, Bytes>, files: seq<File>)
    requires start <= |raw| && Walked(tools, policy, raw, start, infos, seen, selected, files)
    ensures forall i :: 0 <= i < |infos| ==> MemberOk(tools, policy, raw, start, infos[i])
  {
    hide MemberOk;
  }

  lemma WalkedSeen(tools: Tools, policy: Policy, raw: Bytes, start: nat, infos: seq<Info>, n: nat,
                   seen: set<string>, selected: map<string, Bytes>, files: seq<File>)
    requires start <= |raw| && n < |infos| && NamesOk(infos[..n])
    requires Walked(tools, policy, raw, start, infos[..n], seen, selected, files)
    ensures Lower(Name(infos[n])) in seen ==> !NamesOk(infos)
    ensures Lower(Name(infos[n])) !in seen ==> NamesOk(infos[..n + 1])
  {
    hide NamesOk, MemberOk, Lower, Name, Listed, Files;
    forall i | 0 <= i < n
      ensures infos[..n][i] == infos[i]
    {
    }
    NamesOneMore(infos, n, seen);
  }

  lemma SizesAt(infos: seq<Info>, n: nat)
    requires n < |infos|
    ensures Sizes(infos[..n + 1]) == Sizes(infos[..n]) + infos[n].size <= Sizes(infos)
  {
    assert infos[..n + 1][..n] == infos[..n];
    SizesOfMore(infos, n + 1);
  }

  lemma CursorMissed(tools: Tools, policy: Policy, raw: Bytes, start: nat, infos: seq<Info>, n: nat, previous: nat)
    requires start <= |raw| && n < |infos| && infos[n].offset != previous
    ensures Sweep(Extents(raw, infos[n..]), previous).None?
  {
    assert Extents(raw, infos[n..])[0] == Extent(raw, infos[n]);
  }

  lemma CursorMoved(raw: Bytes, info: Info)
    requires info.offset + 30 <= |raw| && DataStop(raw, info) <= |raw|
    ensures Extent(raw, info) == Range(info.offset, MemberEnd(raw, info))
  {
  }

  /** `archive_members`: accepted exactly when restorable, with every member in the inventory
      and the required documents selected. */
  method ArchiveMembers(tools: Tools, policy: Policy, raw: Bytes)
    returns (r: Result<(map<string, Bytes>, seq<File>), Invalid>)
    ensures r.Ok? <==> Restorable(tools, policy, raw)
    ensures r.Ok? ==> r.value.1 == Files(tools, raw, Members(raw)) && r.value.0.Keys == policy.required
    ensures r.Ok? ==> forall f | f in r.value.1 && f.name in policy.required :: r.value.0[f.name] == f.data
  {
    hide MemberOk, NamesOk, Sizes, Partition, LooseDirectory, Arranged, Extents, Lower, Name, Walked;
    if !LayoutOk(raw) {
      return Err(InvalidArchive);
    }
    var infos, start := Members(raw), DirectoryStart(raw);
    var walked := Walk(tools, policy, raw, start, infos);
    ghost var sound := forall i :: 0 <= i < |infos| ==> MemberOk(tools, policy, raw, start, infos[i]);
    if sound {
      WalkDecides(tools, policy, raw, LooseDirectory(raw, start, |raw| - 22).value, start);
    }
    if walked.None? {
      return Err(InvalidArchive);
    }
    var (selected, files) := walked.value;
    RequiredSelected(tools, policy, raw, start, infos, selected, files);
    r := if policy.required <= selected.Keys then Ok((selected, files)) else Err(InvalidArchive);
  }

  lemma RequiredSelected(tools: Tools, policy: Policy, raw: Bytes, start: nat, infos: seq<Info>,
                         selected: map<string, Bytes>, files: seq<File>)
    requires start <= |raw| && exists seen :: Walked(tools, policy, raw, start, infos, seen, selected, files)
    ensures selected.Keys <= policy.required && files == Files(tools, raw, infos)
    ensures policy.required <= selected.Keys <==> forall name | name in policy.required :: Listed(infos, name)
    ensures forall f | f in files && f.name in policy.required :: f.name in selected && selected[f.name] == f.data
  {
    hide MemberOk, Lower, Name, Files;
    FilesListed(tools, raw, infos);
    forall name | name in policy.required && Listed(infos, name)
      ensures name in selected
    {
      var i :| 0 <= i < |infos| && Name(infos[i]) == name;
      assert files[i] in files && files[i].name == name;
    }
  }
}
