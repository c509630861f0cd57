/** `read_zip` of `evidence_archive.py`: which archives it accepts, exactly, and what it
    returns for them. */
module ZipReader {
  import opened Common
  import opened Tiling
  import opened ZipFormat

  /** What the directory entry of a member must say. */
  predicate EntryOk(tools: Tools, info: Info, custody: bool) {
    var mode := info.external / 65536;
    && info.extract <= 63
    && (Bit(info.flags, 0x800) ==> tools.utf8(info.stored))
    && NameOf(info).Some? && SafePath(NameOf(info).value)
    && (mode / 4096 == 0 || mode / 4096 == 8) && !Bit(info.external, 16)
    && info.extra == 0 && info.comment == 0 && !Bit(info.flags, 1)
    && (info.method_ == 0 || info.method_ == 8)
    && info.size <= FILE_BYTES
    && (custody ==>
          info.method_ == 0 && info.date == 33 && info.time == 0 && mode == 33188 && info.system == 3)
  }

  /** The local header repeats the directory entry and the member lies before the directory. */
  predicate LocalOk(raw: Bytes, start: nat, info: Info)
    requires start <= |raw| && NameOf(info).Some? && SafePath(NameOf(info).value)
  {
    var at := info.offset;
    && at + 30 <= start
    && raw[at..at + 4] == LOCAL
    && U16(raw, at + 6) == info.flags && U16(raw, at + 8) == info.method_ && U16(raw, at + 28) == 0
    && DataStop(raw, info) <= start && info.packed <= ARCHIVE_BYTES
    && raw[at + 30..DataStart(raw, info)] == Encode(NameOf(info).value)
    && if Bit(info.flags, 8) then MemberEnd(raw, info) <= start && DescriptorOk(raw, info)
       else U32(raw, at + 14) == info.crc && U32(raw, at + 18) == info.packed && U32(raw, at + 22) == info.size
  }

  function Plaintext(tools: Tools, raw: Bytes, info: Info): Option<Bytes>
    requires info.offset + 30 <= |raw| && DataStop(raw, info) <= |raw|
  {
    Expanded(tools, info.method_, raw[DataStart(raw, info)..DataStop(raw, info)])
  }

  predicate DataOk(tools: Tools, raw: Bytes, info: Info)
    requires info.offset + 30 <= |raw| && DataStop(raw, info) <= |raw| && NameOf(info).Some?
  {
    var plain := Plaintext(tools, raw, info);
    && plain.Some? && |plain.value| == info.size
    && tools.crc(plain.value) == info.crc && !tools.secret(NameOf(info).value, plain.value)
  }

  predicate MemberOk(tools: Tools, raw: Bytes, start: nat, info: Info, custody: bool)
    requires start <= |raw|
  {
    EntryOk(tools, info, custody) && LocalOk(raw, start, info) && DataOk(tools, raw, info)
  }

  predicate MembersOk(tools: Tools, raw: Bytes, start: nat, infos: seq<Info>, custody: bool)
    requires start <= |raw|
  {
    forall i :: 0 <= i < |infos| ==> MemberOk(tools, raw, start, infos[i], custody)
  }

  function Name(info: Info): string {
    if NameOf(info).Some? then NameOf(info).value else ""
  }

  /** No two names collide, in any case spelling or as file and directory. */
  predicate NamesOk(infos: seq<Info>) {
    forall i, j :: 0 <= i < j < |infos| ==> Compatible(Name(infos[i]), Name(infos[j]))
  }

  predicate NamesSorted(infos: seq<Info>) {
    forall i, j :: 0 <= i < j < |infos| ==> !Less(Name(infos[j]), Name(infos[i]))
  }

  /** The bytes of one member, header to end. */
  function Extent(raw: Bytes, info: Info): Range {
    if info.offset + 30 <= |raw| && DataStop(raw, info) <= |raw|
    then Range(info.offset, MemberEnd(raw, info)) else Range(0, 0)
  }

  function Extents(raw: Bytes, infos: seq<Info>): (r: seq<Range>)
    ensures |r| == |infos| && forall i :: 0 <= i < |infos| ==> r[i] == Extent(raw, infos[i])
  {
    if infos == [] then [] else Extents(raw, infos[..|infos| - 1]) + [Extent(raw, infos[|infos| - 1])]
  }

  function Sizes(infos: seq<Info>): nat {
    if infos == [] then 0 else Sizes(infos[..|infos| - 1]) + infos[|infos| - 1].size
  }

  function Contents(tools: Tools, raw: Bytes, infos: seq<Info>): map<string, Bytes> {
    if infos == [] then map[]
    else
      var last := infos[|infos| - 1];
      var plain := if last.offset + 30 <= |raw| && DataStop(raw, last) <= |raw| then Plaintext(tools, raw, last) else None;
      Contents(tools, raw, infos[..|infos| - 1])[Name(last) := if plain.Some? then plain.value else []]
  }

  /** The size limits and the layout of the end record and the directory. */
  predicate LayoutOk(raw: Bytes) {
    && |raw| <= ARCHIVE_BYTES
    && EndOk(raw) && Count(raw) <= MEMBERS
    && Infos(raw).Some? && |Infos(raw).value| == Count(raw)
  }

  /** `read_zip` accepts: every member is sound, no names collide, and the members' bytes
      partition everything in front of the directory. */
  predicate Readable(tools: Tools, raw: Bytes, custody: bool) {
    && LayoutOk(raw)
    && var infos := Infos(raw).value;
    && (custody ==> NamesSorted(infos))
    && MembersOk(tools, raw, DirectoryStart(raw), infos, custody)
    && NamesOk(infos)
    && Partition(Extents(raw, infos), DirectoryStart(raw))
  }

  // ------------------------------------------------------------------- the reader

  datatype Invalid = InvalidEvidence

  /** Members and expanded bytes over all the archives of one piece of evidence. */
  class ExpansionBudget {
    var members: nat
    var bytes: nat

    constructor ()
      ensures members == 0 && bytes == 0
    {
      members, bytes := 0, 0;
    }

    /** It has refused nothing yet. */
    ghost predicate Open()
      reads this
    {
      members <= MEMBERS && bytes <= EXPANDED_BYTES
    }

    method Member() returns (ok: bool)
      modifies this
      ensures members == old(members) + 1 && bytes == old(bytes)
      ensures ok <==> members <= MEMBERS
    {
      members := members + 1;
      ok := members <= MEMBERS;
    }

    method Consume(count: nat) returns (ok: bool)
      modifies this
      ensures bytes == old(bytes) + count && members == old(members)
      ensures ok <==> bytes <= EXPANDED_BYTES
    {
      bytes := bytes + count;
      ok := bytes <= EXPANDED_BYTES;
    }
  }

  /** The loop that bounds the directory before the archive library parses it. */
  method CountDirectory(raw: Bytes, start: nat, stop: nat) returns (count: Option<nat>)
    requires start <= stop <= |raw|
    ensures count.Some? <==> Directory(raw, start, stop).Some? && |Directory(raw, start, stop).value| <= MEMBERS
    ensures count.Some? ==> count.value == |Directory(raw, start, stop).value|
  {
    var position, n: nat := start, 0;
    while position < stop
      invariant start <= position <= stop && n <= MEMBERS
      invariant Directory(raw, start, stop).Some? <==> Directory(raw, position, stop).Some?
      invariant Directory(raw, start, stop).Some? ==>
        |Directory(raw, start, stop).value| == n + |Directory(raw, position, stop).value|
    {
      if stop < position + 46 || raw[position..position + 4] != CENTRAL {
        return None;
      }
      var next := position + CentralSize(raw, position);
      n := n + 1;
      if MEMBERS < n || stop < next {
        return None;
      }
      position := next;
    }
    count := Some(n);
  }

  /** The chunk loop: expand, counting against the file and the aggregate limit. */
  method Expand(plain: Bytes, size: nat, budget: ExpansionBudget) returns (data: Option<Bytes>)
    requires size <= FILE_BYTES && budget.Open()
    modifies budget
    ensures budget.members == old(budget.members)
    ensures data.Some? <==> |plain| <= size && old(budget.bytes) + |plain| <= EXPANDED_BYTES
    ensures data.Some? ==> data.value == plain && budget.bytes == old(budget.bytes) + |plain|
  {
    var chunks: Bytes, position: nat := [], 0;
    while position < |plain|
      invariant position <= |plain| && chunks == plain[..position]
      invariant budget.members == old(budget.members) && budget.bytes == old(budget.bytes) + position
      invariant position == 0 || (position <= size && old(budget.bytes) + position <= EXPANDED_BYTES)
    {
      var stop := if position + CHUNK < |plain| then position + CHUNK else |plain|;
      var chunk := plain[position..stop];
      var within := budget.Consume(|chunk|);
      if !within || size < stop {
        return None;
      }
      chunks := chunks + chunk;
      position := stop;
    }
    data := Some(chunks);
  }

  /** One member: its directory entry, its local header, its bytes. */
  method ReadMember(tools: Tools, raw: Bytes, start: nat, info: Info, custody: bool, budget: ExpansionBudget)
    returns (data: Option<Bytes>)
    requires start <= |raw| && budget.Open()
    modifies budget
    ensures budget.members == old(budget.members)
    ensures data.Some? <==>
      MemberOk(tools, raw, start, info, custody) && old(budget.bytes) + info.size <= EXPANDED_BYTES
    ensures data.Some? ==> info.offset + 30 <= |raw| && DataStop(raw, info) <= |raw|
    ensures data.Some? ==> Plaintext(tools, raw, info) == data && |data.value| == info.size
    ensures data.Some? ==> budget.bytes == old(budget.bytes) + info.size
  {
    if !EntryOk(tools, info, custody) || !LocalOk(raw, start, info) {
      return None;
    }
    var plain := Plaintext(tools, raw, info);
    if plain.None? {
      return None;
    }
    data := Expand(plain.value, info.size, budget);
    if data.None? || |data.value| != info.size || tools.crc(data.value) != info.crc
       || tools.secret(Name(info), data.value) {
      return None;
    }
  }

  lemma {:induction false} SizesOfMore(infos: seq<Info>, n: nat)
    requires n <= |infos|
    ensures Sizes(infos[..n]) <= Sizes(infos)
  {
    if n < |infos| {
      assert infos[..|infos| - 1][..n] == infos[..n];
      SizesOfMore(infos[..|infos| - 1], n);
    } else {
      assert infos[..n] == infos;
    }
  }

  /** Sorted by start, then by end, as pairs are. */
  predicate Earlier(a: Range, b: Range) {
    a.lo < b.lo || (a.lo == b.lo && a.hi <= b.hi)
  }

  lemma SpansAreRanges(s: seq<Range>)
    ensures Spans(s, r => r) == s
  {
  }

  /** The sweep over the sorted extents. */
  method SweepSorted(ranges: seq<Range>, end: nat) returns (ok: bool)
    requires Nonempty(ranges)
    ensures ok <==> Partition(ranges, end)
  {
    var sorted := Sort(ranges, Earlier);
    SpansAreRanges(ranges);
    SpansAreRanges(sorted);
    SortedCursorDecidesPartition(ranges, r => r, Earlier, end);
    var cursor: nat := 0;
    for i := 0 to |sorted|
      invariant Sweep(sorted, 0) == Sweep(sorted[i..], cursor)
    {
      if sorted[i].lo != cursor {
        return false;
      }
      assert sorted[i..][1..] == sorted[i + 1..];
      cursor := sorted[i].hi;
    }
    ok := cursor == end;
  }

  /** What is left of the budget covers the archive. */
  predicate Affordable(raw: Bytes, members: nat, bytes: nat)
    requires LayoutOk(raw)
  {
    members + |Infos(raw).value| <= MEMBERS && bytes + Sizes(Infos(raw).value) <= EXPANDED_BYTES
  }

  predicate Named(infos: seq<Info>, name: string) {
    exists i :: 0 <= i < |infos| && Name(infos[i]) == name
  }

  /** `result` holds exactly the names read so far and `folded` their folded forms. */
  ghost predicate Kept(infos: seq<Info>, result: map<string, Bytes>, folded: set<string>) {
    && (forall n :: n in result <==> Named(infos, n))
    && folded == set n | n in result :: Lower(n)
  }

  lemma NamedOneMore(infos: seq<Info>, info: Info, n: string)
    ensures Named(infos + [info], n) <==> Named(infos, n) || n == Name(info)
  {
    var all := infos + [info];
    if Named(infos, n) {
      var i :| 0 <= i < |infos| && Name(infos[i]) == n;
      assert Name(all[i]) == n;
    }
    if n == Name(info) {
      assert Name(all[|infos|]) == n;
    }
  }

  lemma KeptOneMore(infos: seq<Info>, result: map<string, Bytes>, folded: set<string>, info: Info, data: Bytes)
    requires Kept(infos, result, folded)
    ensures Kept(infos + [info], result[Name(info) := data], folded + {Lower(Name(info))})
  {
    hide Named, Lower, Name;
    forall n
      ensures n in result[Name(info) := data] <==> Named(infos + [info], n)
    {
      NamedOneMore(infos, info, n);
    }
  }

  /** The collision test against what was kept is the one against every earlier name. */
  lemma NamesOneMore(infos: seq<Info>, result: map<string, Bytes>, folded: set<string>, info: Info)
    requires Kept(infos, result, folded)
    ensures NamesOk(infos + [info]) <==>
      && NamesOk(infos) && Lower(Name(info)) !in folded
      && forall other | other in result :: !Above(other, Name(info)) && !Above(Name(info), other)
  {
    hide Lower, Above, Name;
    var all := infos + [info];
    assert forall i, j :: 0 <= i < j < |infos| ==> all[i] == infos[i] && all[j] == infos[j];
    if NamesOk(all) {
      forall other | other in result
        ensures Compatible(other, Name(info))
      {
        var i :| 0 <= i < |infos| && Name(infos[i]) == other;
        assert Compatible(Name(all[i]), Name(all[|infos|]));
      }
      forall i, j | 0 <= i < j < |infos|
        ensures Compatible(Name(infos[i]), Name(infos[j]))
      {
        assert Compatible(Name(all[i]), Name(all[j]));
      }
    } else if NamesOk(infos) {
      var i, j :| 0 <= i < j < |all| && !Compatible(Name(all[i]), Name(all[j]));
      assert j == |infos|;
      assert Named(infos, Name(infos[i])) && Name(infos[i]) in result;
    }
  }

  /** The extents and contents of one more member. */
  lemma MembersOneMore(tools: Tools, raw: Bytes, start: nat, infos: seq<Info>, info: Info, custody: bool, data: Bytes)
    requires start <= |raw| && MembersOk(tools, raw, start, infos, custody)
    requires MemberOk(tools, raw, start, info, custody)
    requires info.offset + 30 <= |raw| && DataStop(raw, info) <= |raw| && Plaintext(tools, raw, info) == Some(data)
    ensures MembersOk(tools, raw, start, infos + [info], custody)
    ensures Contents(tools, raw, infos + [info]) == Contents(tools, raw, infos)[Name(info) := data]
    ensures Extents(raw, infos + [info]) == Extents(raw, infos) + [Extent(raw, info)]
    ensures Extent(raw, info).lo < Extent(raw, info).hi
    ensures Sizes(infos + [info]) == Sizes(infos) + info.size
  {
    assert (infos + [info])[..|infos|] == infos;
    hide EntryOk, DataOk, Name;
  }

  /** The member loop of `read_zip`: None as soon as something is refused. */
  method ReadMembers(tools: Tools, raw: Bytes, start: nat, infos: seq<Info>, custody: bool, budget: ExpansionBudget)
    returns (r: Option<(map<string, Bytes>, seq<Range>)>)
    requires start <= |raw| && budget.Open()
    modifies budget
    ensures r.Some? ==> MembersOk(tools, raw, start, infos, custody) && NamesOk(infos)
    ensures r.Some? ==> r.value.0 == Contents(tools, raw, infos) && r.value.1 == Extents(raw, infos) && Nonempty(r.value.1)
    ensures r.Some? ==> budget.Open() && budget.members == old(budget.members) + |infos|
    ensures r.Some? ==> budget.bytes == old(budget.bytes) + Sizes(infos)
    ensures r.None? ==>
      !(MembersOk(tools, raw, start, infos, custody) && NamesOk(infos) && Disjoint(Extents(raw, infos))
        && old(budget.members) + |infos| <= MEMBERS && old(budget.bytes) + Sizes(infos) <= EXPANDED_BYTES)
  {
    hide MemberOk, MembersOk, NamesOk, Lower, Above, Contents, Kept, Disjoint, Extent, Extents, Plaintext, Name, Apart, Sizes;
    var result: map<string, Bytes>, folded: set<string>, ranges: seq<Range> := map[], {}, [];
    NothingRead(tools, raw, start, custody);
    for i := 0 to |infos|
      invariant MembersOk(tools, raw, start, infos[..i], custody) && NamesOk(infos[..i])
      invariant Kept(infos[..i], result, folded) && result == Contents(tools, raw, infos[..i])
      invariant ranges == Extents(raw, infos[..i]) && Nonempty(ranges)
      invariant budget.Open() && budget.members == old(budget.members) + i
      invariant budget.bytes == old(budget.bytes) + Sizes(infos[..i])
    {
      var info := infos[i];
      assert infos[..i + 1] == infos[..i] + [info];
      var counted := budget.Member();
      if !counted {
        return None;
      }
      var name := Name(info);
      NamesOneMore(infos[..i], result, folded, info);
      if Lower(name) in folded || exists other | other in result :: Above(other, name) || Above(name, other) {
        NamesOfMoreIf(infos, i + 1);
        return None;
      }
      var data := ReadMember(tools, raw, start, info, custody, budget);
      if data.None? {
        MemberRefused(tools, raw, start, infos, i, custody);
        return None;
      }
      var extent := Extent(raw, info);
      if exists range | range in ranges :: !Apart(range, extent) {
        OverlapRefused(raw, infos, i);
        return None;
      }
      MembersOneMore(tools, raw, start, infos[..i], info, custody, data.value);
      KeptOneMore(infos[..i], result, folded, info, data.value);
      result, folded, ranges := result[name := data.value], folded + {Lower(name)}, ranges + [extent];
    }
    assert infos[..|infos|] == infos;
    r := Some((result, ranges));
  }

  lemma NothingRead(tools: Tools, raw: Bytes, start: nat, custody: bool)
    requires start <= |raw|
    ensures Contents(tools, raw, []) == map[] && MembersOk(tools, raw, start, [], custody) && NamesOk([])
    ensures Kept([], map[], {}) && Extents(raw, []) == [] && Sizes([]) == 0
  {
  }

  lemma NamesOfMoreIf(infos: seq<Info>, n: nat)
    requires n <= |infos|
    ensures NamesOk(infos) ==> NamesOk(infos[..n])
  {
    hide Compatible, Name;
  }

  /** A refused member, or one the budget does not cover, refuses the archive. */
  lemma MemberRefused(tools: Tools, raw: Bytes, start: nat, infos: seq<Info>, i: nat, custody: bool)
    requires start <= |raw| && i < |infos|
    ensures MembersOk(tools, raw, start, infos, custody) ==> MemberOk(tools, raw, start, infos[i], custody)
    ensures Sizes(infos[..i]) + infos[i].size <= Sizes(infos)
  {
    hide MemberOk;
    SizesOfMore(infos, i + 1);
    assert infos[..i + 1][..i] == infos[..i];
  }

  lemma OverlapRefused(raw: Bytes, infos: seq<Info>, i: nat)
    requires i < |infos|
    requires exists range | range in Extents(raw, infos[..i]) :: !Apart(range, Extent(raw, infos[i]))
    ensures !Disjoint(Extents(raw, infos))
  {
    var some := Extents(raw, infos[..i]);
    var range :| range in some && !Apart(range, Extent(raw, infos[i]));
    var j :| 0 <= j < |some| && some[j] == range;
    if Disjoint(Extents(raw, infos)) {
      DisjointAt(Extents(raw, infos), j, i);
    }
  }

  /** `read_zip`: accepted exactly when the archive is readable and within the budget. */
  method ReadZip(tools: Tools, raw: Bytes, budget: ExpansionBudget, custody: bool)
    returns (r: Result<map<string, Bytes>, Invalid>)
    requires budget.Open()
    modifies budget
    ensures r.Ok? <==> Readable(tools, raw, custody) && Affordable(raw, old(budget.members), old(budget.bytes))
    ensures r.Ok? ==> r.value == Contents(tools, raw, Infos(raw).value) && budget.Open()
    ensures r.Ok? ==> budget.members == old(budget.members) + |Infos(raw).value|
    ensures r.Ok? ==> budget.bytes == old(budget.bytes) + Sizes(Infos(raw).value)
  {
    hide MemberOk, MembersOk, NamesOk, Contents, Directory, Disjoint;
    if ARCHIVE_BYTES < |raw| || !EndOk(raw) || MEMBERS < Count(raw) {
      return Err(InvalidEvidence);
    }
    var start, stop := DirectoryStart(raw), |raw| - 22;
    var counted := CountDirectory(raw, start, stop);
    if counted != Some(Count(raw)) {
      return Err(InvalidEvidence);
    }
    var infos := Infos(raw).value;
    if custody && !NamesSorted(infos) {
      return Err(InvalidEvidence);
    }
    var read := ReadMembers(tools, raw, start, infos, custody, budget);
    if read.None? {
      return Err(InvalidEvidence);
    }
    var swept := SweepSorted(read.value.1, start);
    r := if swept then Ok(read.value.0) else Err(InvalidEvidence);
  }
}
