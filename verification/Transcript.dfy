/** What a publisher that comes to write its manifest, and a publisher or reader that accepts, have
    exchanged with the store: which call stands where in the log, and how it was answered. */
module Transcript {
  import opened Common
  import opened SnapshotTypes
  import opened Listing
  import opened Snapshot
  import opened SnapshotLog
  import opened S3Adapter
  import opened Fleet
  import opened Exactness
  import opened Published
  import Creation

  // --------------------------------------------------------------------- one call

  /** A read that found this object: small enough, under a usable version, the one asked for if any. */
  predicate ReadAt(a: Adapter, log: seq<Exchange>, p: nat, key: Key, asked: Version, stored: Stored) {
    && p < |log| && log[p] == Exchange(Fetch(key, asked), Found(stored))
    && (stored.content.body.Raw? ==> |stored.content.body.data| <= a.limits.objectBytes)
    && (stored.content.body.Canonical? ==> a.codec.manifestSize(stored.content.body.doc) <= a.limits.objectBytes)
    && (stored.version.Some? ==> 0 < |stored.version.value| <= 1024)
    && (asked.Some? ==> stored.version == asked)
  }

  lemma GetMeans(a: Adapter, log: seq<Exchange>, p: nat, key: Key, asked: Version)
    requires p <= |log| && Get(a, key, asked, log[p..]).Got?
    ensures p < |log| && Get(a, key, asked, log[p..]).rest == log[p + 1..]
    ensures match Get(a, key, asked, log[p..]).value
            case Some(stored) => ReadAt(a, log, p, key, asked, stored)
            case None => log[p] == Exchange(Fetch(key, asked), Absent) && asked.None?
  {
    assert log[p..][1..] == log[p + 1..];
  }

  /** The object as planned, by its version and, where it has one, as the latest too. */
  predicate FileReadAt(a: Adapter, log: seq<Exchange>, p: nat, q: nat, key: Key, content: Content, version: Version) {
    && ReadAt(a, log, p, key, version, Stored(content, version))
    && if version.None? then q == p + 1
       else q == p + 2 && ReadAt(a, log, p + 1, key, None, Stored(content, version))
  }

  lemma GetSameMeans(a: Adapter, log: seq<Exchange>, p: nat, key: Key, asked: Version, request: Content)
    requires p <= |log| && GetSame(a, key, asked, request, log[p..]).Got?
    ensures var out := GetSame(a, key, asked, request, log[p..]);
      && p < |log| && out.rest == log[p + 1..]
      && out.value.content == request && ReadAt(a, log, p, key, asked, out.value)
  {
    hide Get, ReadAt;
    GetMeans(a, log, p, key, asked);
  }

  lemma ReadFileMeans(a: Adapter, log: seq<Exchange>, p: nat, key: Key, content: Content, version: Version) returns (q: nat)
    requires p <= |log| && ReadFile(a, key, content, version, log[p..]).Got?
    ensures p < q <= |log| && ReadFile(a, key, content, version, log[p..]).rest == log[q..]
    ensures FileReadAt(a, log, p, q, key, content, version)
  {
    hide GetSame, ReadAt;
    GetSameMeans(a, log, p, key, version, content);
    q := p + 1;
    if version.Some? {
      GetSameMeans(a, log, p + 1, key, None, content);
      q := p + 2;
    }
  }

  // ------------------------------------------------------------------- whole plans

  /** Object `i` of a plan is read back between `marks[i]` and `marks[i + 1]`. */
  predicate AllRead(a: Adapter, log: seq<Exchange>, plan: Plan, id: SnapshotId, versions: seq<Version>, marks: seq<nat>) {
    && |versions| == |plan.objects| && |marks| == |plan.objects| + 1
    && forall i :: 0 <= i < |plan.objects| ==>
         FileReadAt(a, log, marks[i], marks[i + 1], Key(plan.destination, id, plan.objects[i].path), plan.objects[i].content,
                    versions[i])
  }

  /** The versions of the objects in the order of the plan. */
  function InOrder(plan: Plan, versions: Versions): (r: seq<Version>)
    requires Covers(versions, plan)
    ensures |r| == |plan.objects| && forall i :: 0 <= i < |r| ==> r[i] == versions[plan.objects[i].path]
  {
    seq(|plan.objects|, i requires 0 <= i < |plan.objects| => versions[plan.objects[i].path])
  }

  lemma {:induction false} ReadFilesMeans(a: Adapter, log: seq<Exchange>, p: nat, plan: Plan, i: nat, versions: Versions)
    returns (marks: seq<nat>)
    requires p <= |log| && i <= |plan.objects| && Covers(versions, plan) && ReadFiles(a, plan, i, versions, log[p..]).Got?
    ensures |marks| == |plan.objects| - i + 1 && marks[0] == p && marks[|plan.objects| - i] <= |log|
    ensures ReadFiles(a, plan, i, versions, log[p..]).rest == log[marks[|plan.objects| - i]..]
    ensures forall j :: i <= j < |plan.objects| ==>
      FileReadAt(a, log, marks[j - i], marks[j - i + 1], KeyOf(plan, plan.objects[j].path), plan.objects[j].content,
                 versions[plan.objects[j].path])
    decreases |plan.objects| - i
  {
    hide ReadFile, FileReadAt, Suffix, KeyOf;
    if i == |plan.objects| {
      marks := [p];
    } else {
      var o := plan.objects[i];
      var q := ReadFileMeans(a, log, p, KeyOf(plan, o.path), o.content, versions[o.path]);
      var rest := ReadFilesMeans(a, log, q, plan, i + 1, versions);
      marks := [p] + rest;
      forall j | i <= j < |plan.objects|
        ensures FileReadAt(a, log, marks[j - i], marks[j - i + 1], KeyOf(plan, plan.objects[j].path), plan.objects[j].content,
                           versions[plan.objects[j].path])
      {
        if i < j {
          assert marks[j - i] == rest[j - i - 1] && marks[j - i + 1] == rest[j - i];
        }
      }
    }
  }

  lemma PlanRead(a: Adapter, log: seq<Exchange>, p: nat, plan: Plan, versions: Versions) returns (marks: seq<nat>)
    requires p <= |log| && Covers(versions, plan) && ReadFiles(a, plan, 0, versions, log[p..]).Got?
    ensures |marks| == |plan.objects| + 1 && AllRead(a, log, plan, IdOf(plan), InOrder(plan, versions), marks)
    ensures marks[0] == p && marks[|plan.objects|] <= |log|
    ensures ReadFiles(a, plan, 0, versions, log[p..]).rest == log[marks[|plan.objects|]..]
  {
    hide ReadFiles, FileReadAt, IdOf;
    marks := ReadFilesMeans(a, log, p, plan, 0, versions);
    forall i | 0 <= i < |plan.objects|
      ensures FileReadAt(a, log, marks[i], marks[i + 1], Key(plan.destination, IdOf(plan), plan.objects[i].path),
                         plan.objects[i].content, InOrder(plan, versions)[i])
    {
      assert KeyOf(plan, plan.objects[i].path) == Key(plan.destination, IdOf(plan), plan.objects[i].path);
      assert marks[i - 0] == marks[i] && marks[i - 0 + 1] == marks[i + 1];
    }
  }

  /** Object `i` of a plan is created, or found, between `marks[i]` and `marks[i + 1]`: some conflicts, the
      put that settles it and the read behind it. */
  predicate AllMade(a: Adapter, log: seq<Exchange>, plan: Plan, id: SnapshotId, versions: seq<Version>, marks: seq<nat>) {
    && |versions| == |plan.objects| && |marks| == |plan.objects| + 1
    && forall i :: 0 <= i < |plan.objects| ==>
         MadeAt(a, log, marks[i], marks[i + 1], Key(plan.destination, id, plan.objects[i].path), plan.objects[i].content,
                versions[i])
  }

  predicate MadeAt(a: Adapter, log: seq<Exchange>, p: nat, q: nat, key: Key, content: Content, version: Version) {
    && p + 2 <= q <= |log| && q - p - 2 < a.limits.putAttempts
    && (Creation.Settled(a, key, content, log[p..], q - p - 2, true, version)
        || Creation.Settled(a, key, content, log[p..], q - p - 2, false, version))
  }

  lemma CreateMeans(a: Adapter, log: seq<Exchange>, p: nat, key: Key, content: Content) returns (q: nat)
    requires p <= |log| && CreateChecked(a, key, content, log[p..]).Got?
    ensures var out := CreateChecked(a, key, content, log[p..]);
      && p < q <= |log| && out.rest == log[q..] && MadeAt(a, log, p, q, key, content, out.value.1)
      && Creation.Settled(a, key, content, log[p..], q - p - 2, out.value.0, out.value.1)
  {
    hide CreateChecked;
    var out := CreateChecked(a, key, content, log[p..]);
    Creation.CreatesExactly(a, key, content, log[p..], out.value.0, out.value.1, out.rest);
    var n :| 0 <= n < a.limits.putAttempts && Creation.Settled(a, key, content, log[p..], n, out.value.0, out.value.1)
             && out.rest == log[p..][n + 2..];
    q := p + n + 2;
    assert log[p..][n + 2..] == log[q..];
  }

  lemma {:induction false} CreateAllMeans(a: Adapter, log: seq<Exchange>, p: nat, plan: Plan, i: nat, versions: Versions)
    returns (marks: seq<nat>)
    requires p <= |log| && i <= |plan.objects| && DistinctPaths(plan.objects)
    requires CreateAll(a, plan, i, versions, log[p..]).Got?
    requires forall j :: 0 <= j < i ==> plan.objects[j].path in versions
    ensures |marks| == |plan.objects| - i + 1 && marks[0] == p && marks[|plan.objects| - i] <= |log|
    ensures var out := CreateAll(a, plan, i, versions, log[p..]);
      && out.rest == log[marks[|plan.objects| - i]..] && Covers(out.value, plan)
      && (forall j :: 0 <= j < i ==> out.value[plan.objects[j].path] == versions[plan.objects[j].path])
      && forall j :: i <= j < |plan.objects| ==>
           MadeAt(a, log, marks[j - i], marks[j - i + 1], KeyOf(plan, plan.objects[j].path), plan.objects[j].content,
                  out.value[plan.objects[j].path])
    decreases |plan.objects| - i
  {
    hide CreateChecked, MadeAt, Suffix, KeyOf, Creation.Settled;
    if i == |plan.objects| {
      marks := [p];
    } else {
      var o := plan.objects[i];
      var q := CreateMeans(a, log, p, KeyOf(plan, o.path), o.content);
      var made := CreateChecked(a, KeyOf(plan, o.path), o.content, log[p..]).value;
      var rest := CreateAllMeans(a, log, q, plan, i + 1, versions[o.path := made.1]);
      marks := [p] + rest;
      var out := CreateAll(a, plan, i, versions, log[p..]);
      assert out == CreateAll(a, plan, i + 1, versions[o.path := made.1], log[q..]);
      forall j | i <= j < |plan.objects|
        ensures MadeAt(a, log, marks[j - i], marks[j - i + 1], KeyOf(plan, plan.objects[j].path), plan.objects[j].content,
                       out.value[plan.objects[j].path])
      {
        if i < j {
          assert marks[j - i] == rest[j - i - 1] && marks[j - i + 1] == rest[j - i];
        }
      }
    }
  }

  lemma PlanMade(a: Adapter, log: seq<Exchange>, p: nat, plan: Plan) returns (marks: seq<nat>)
    requires p <= |log| && DistinctPaths(plan.objects) && CreateAll(a, plan, 0, map[], log[p..]).Got?
    ensures var out := CreateAll(a, plan, 0, map[], log[p..]);
      && Covers(out.value, plan) && |marks| == |plan.objects| + 1
      && AllMade(a, log, plan, IdOf(plan), InOrder(plan, out.value), marks)
      && marks[0] == p && marks[|plan.objects|] <= |log| && out.rest == log[marks[|plan.objects|]..]
  {
    hide CreateAll, MadeAt, IdOf;
    marks := CreateAllMeans(a, log, p, plan, 0, map[]);
    var versions := CreateAll(a, plan, 0, map[], log[p..]).value;
    forall i | 0 <= i < |plan.objects|
      ensures MadeAt(a, log, marks[i], marks[i + 1], Key(plan.destination, IdOf(plan), plan.objects[i].path),
                     plan.objects[i].content, InOrder(plan, versions)[i])
    {
      assert KeyOf(plan, plan.objects[i].path) == Key(plan.destination, IdOf(plan), plan.objects[i].path);
      assert marks[i - 0] == marks[i] && marks[i - 0 + 1] == marks[i + 1];
    }
  }

  // --------------------------------------------------------------------- inventory

  /** Listed are the files of the plan with their sizes, and nothing else but the manifest. */
  predicate ListsPlan(plan: Plan, files: map<Path, nat>) {
    && (forall i :: 0 <= i < |plan.objects| ==> SizedIn(plan.objects[i], files))
    && forall path | path in files :: path == ManifestFile || InPlan(plan, path)
  }

  predicate SizedIn(o: FrozenObject, files: map<Path, nat>) {
    o.content.body.Raw? && o.path in files && files[o.path] == |o.content.body.data|
  }

  predicate InPlan(plan: Plan, path: Path) {
    exists i :: 0 <= i < |plan.objects| && plan.objects[i].path == path
  }

  /** The listing in the log from `p` to `q`, page by page, gives these files. */
  predicate ListingAt(a: Adapter, log: seq<Exchange>, p: nat, q: nat, id: SnapshotId, files: map<Path, nat>) {
    p < q <= |log| && EndsWith(a, id, [], log[p..q], files)
  }

  lemma SizesMean(plan: Plan, manifest: Option<Content>, a: Adapter, files: map<Path, nat>)
    requires Payloads(plan.objects, plan.batch) && DistinctPaths(plan.objects) && Inventoried(a, plan, manifest, files)
    ensures ListsPlan(plan, files)
    ensures manifest.Some? ==> ManifestFile in files && files[ManifestFile] == Size(a.codec, manifest.value.body)
  {
    PayloadSizesAre(plan.objects);
    var sizes := PayloadSizes(plan.objects);
    assert forall path | path in sizes && path != ManifestFile :: path in files && files[path] == sizes[path] by {
      if manifest.None? {
        assert forall path | path in sizes :: path in files - {ManifestFile};
      }
    }
    assert forall path | path in files && path != ManifestFile :: path in sizes by {
      if manifest.None? {
        assert forall path | path in files && path != ManifestFile :: path in files - {ManifestFile};
      }
    }
    forall i | 0 <= i < |plan.objects|
      ensures SizedIn(plan.objects[i], files)
    {
      assert Payload(plan.objects[i], plan.batch);
      assert plan.objects[i].path in sizes;
    }
    forall path | path in files && path != ManifestFile
      ensures InPlan(plan, path)
    {
      assert path in sizes;
    }
  }

  lemma CheckMeans(a: Adapter, log: seq<Exchange>, p: nat, plan: Plan, manifest: Option<Content>)
    returns (q: nat, files: map<Path, nat>)
    requires p <= |log| && Payloads(plan.objects, plan.batch) && DistinctPaths(plan.objects)
    requires CheckInventory(a, plan, manifest, log[p..]).Got?
    ensures q <= |log| && CheckInventory(a, plan, manifest, log[p..]).rest == log[q..]
    ensures ListingAt(a, log, p, q, IdOf(plan), files) && ListsPlan(plan, files)
    ensures manifest.Some? ==> ManifestFile in files && files[ManifestFile] == Size(a.codec, manifest.value.body)
  {
    hide ListSnapshot, EndsWith, IdOf, Inventoried, ListsPlan;
    var out := ListSnapshot(a, IdOf(plan), log[p..]);
    files := out.value;
    ListedExactly(a, IdOf(plan), log[p..], files, out.rest);
    var n :| 0 < n <= |log[p..]| && out.rest == log[p..][n..] && EndsWith(a, IdOf(plan), [], log[p..][..n], files);
    q := p + n;
    assert log[p..][..n] == log[p..q] && log[p..][n..] == log[q..];
    SizesMean(plan, manifest, a, files);
  }

  // ---------------------------------------------------------------- in front of the manifest

  /** The log of a publisher up to `end`, where it puts the manifest for the first time: the manifest was
      absent, every object was created or found, then all were read back, and then the listing named
      them all and nothing else but a manifest. */
  predicate Prepared(a: Adapter, log: seq<Exchange>, plan: Plan, id: SnapshotId, versions: seq<Version>, made: seq<nat>,
                     read: seq<nat>, end: nat, files: map<Path, nat>) {
    && log != [] && log[0] == Exchange(Fetch(Key(plan.destination, id, ManifestFile), None), Absent)
    && AllMade(a, log, plan, id, versions, made) && made[0] == 1
    && AllRead(a, log, plan, id, versions, read) && read[0] == made[|plan.objects|]
    && ListingAt(a, log, read[|plan.objects|], end, id, files) && ListsPlan(plan, files)
  }

  /** The manifest of these objects under these versions. */
  predicate DescribesPlan(content: Content, plan: Plan, id: SnapshotId, versions: seq<Version>, observed: string) {
    && content.body.Canonical? && content.contentType == Json
    && content.metadata == Standard(plan.batch, Sha256(content.body))
    && var doc := content.body.doc;
    && doc.snapshot == id && doc.batch == plan.batch && doc.destination == plan.destination
    && doc.observations == observed
    && |doc.files| == |plan.objects| == |versions|
    && forall i :: 0 <= i < |plan.objects| ==>
         && InfoOf(doc.files[i].info, plan.objects[i], plan.batch)
         && doc.files[i].key == Key(plan.destination, id, plan.objects[i].path) && doc.files[i].version == versions[i]
  }

  lemma ManifestDescribes(plan: Plan, versions: Versions, observed: string)
    requires Payloads(plan.objects, plan.batch) && Covers(versions, plan)
    ensures DescribesPlan(ManifestOf(plan, versions, observed), plan, IdOf(plan), InOrder(plan, versions), observed)
  {
    hide IdOf, InfoOf, Inventory;
    forall i | 0 <= i < |plan.objects|
      ensures InfoOf(Inventory(plan.objects[i]), plan.objects[i], plan.batch)
    {
      assert Payload(plan.objects[i], plan.batch);
      InventoryIsInfo(plan.objects[i], plan.batch);
    }
  }

  /** The writing branch, once its inventory check has passed. */
  lemma DepositPrepares(a: Adapter, log: seq<Exchange>, plan: Plan)
    returns (versions: Versions, made: seq<nat>, read: seq<nat>, end: nat, files: map<Path, nat>)
    requires 1 <= |log| && Payloads(plan.objects, plan.batch) && DistinctPaths(plan.objects)
    requires log[0] == Exchange(Fetch(Key(plan.destination, IdOf(plan), ManifestFile), None), Absent)
    requires CreateAll(a, plan, 0, map[], log[1..]).Got?
    requires var out := CreateAll(a, plan, 0, map[], log[1..]);
      Covers(out.value, plan) && ReadFiles(a, plan, 0, out.value, out.rest).Got?
      && CheckInventory(a, plan, None, ReadFiles(a, plan, 0, out.value, out.rest).rest).Got?
    ensures Covers(versions, plan) && versions == CreateAll(a, plan, 0, map[], log[1..]).value
    ensures Prepared(a, log, plan, IdOf(plan), InOrder(plan, versions), made, read, end, files) && end <= |log|
    ensures var out := CreateAll(a, plan, 0, map[], log[1..]);
      CheckInventory(a, plan, None, ReadFiles(a, plan, 0, out.value, out.rest).rest).rest == log[end..]
  {
    hide CreateAll, ReadFiles, CheckInventory, AllMade, AllRead, ListingAt, ListsPlan, IdOf, Payload, Suffix;
    versions := CreateAll(a, plan, 0, map[], log[1..]).value;
    made := PlanMade(a, log, 1, plan);
    read := PlanRead(a, log, made[|plan.objects|], plan, versions);
    end, files := CheckMeans(a, log, read[|plan.objects|], plan, None);
  }

  /** A publisher asks for the manifest to be written only behind all of that, and what it then writes
      describes exactly what it has read. Behind it there were only conflicts. */
  lemma ManifestAsked(a: Adapter, log: seq<Exchange>, plan: Plan, content: Content)
    returns (versions: seq<Version>, made: seq<nat>, read: seq<nat>, end: nat, files: map<Path, nat>)
    requires ValidPlan(plan) && Publish(a, plan, log) == Need(Put(KeyOf(plan, ManifestFile), content))
    ensures end <= |log| && Prepared(a, log, plan, IdOf(plan), versions, made, read, end, files)
    ensures forall i :: end <= i < |log| ==> log[i] == Exchange(Put(KeyOf(plan, ManifestFile), content), Conflict409)
    ensures a.codec.observe(plan.objects).Some?
    ensures DescribesPlan(content, plan, IdOf(plan), versions, a.codec.observe(plan.objects).value)
  {
    hide Get, Deposit, Prepared, KeyOf, IdOf, OrderedMaterial, TotalSize, WithinObjectLimit, ReadSnapshot, Suffix, DescribesPlan;
    PlanPathsDistinct(plan.objects);
    var key := KeyOf(plan, ManifestFile);
    AskedForManifest(a, log, plan, content);
    var observed := a.codec.observe(plan.objects).value;
    var v;
    v, made, read, end, files := DepositAsks(a, log, plan, observed, content);
    versions := InOrder(plan, v);
  }

  /** Only the writing branch puts anything. */
  lemma AskedForManifest(a: Adapter, log: seq<Exchange>, plan: Plan, content: Content)
    requires Publish(a, plan, log) == Need(Put(KeyOf(plan, ManifestFile), content))
    ensures log != [] && log[0] == Exchange(Fetch(KeyOf(plan, ManifestFile), None), Absent)
    ensures a.codec.observe(plan.objects).Some?
    ensures Deposit(a, plan, a.codec.observe(plan.objects).value, log[1..]) == Need(Put(KeyOf(plan, ManifestFile), content))
  {
    hide Deposit, KeyOf, IdOf, TotalSize, WithinObjectLimit, ReadSnapshot, Suffix;
    assert log[0..] == log;
    var key := KeyOf(plan, ManifestFile);
    var existing := Get(a, key, None, log);
    if existing.Got? {
      GetMeans(a, log, 0, key, None);
      if existing.value.Some? {
        ReadSnapshotWritesNothing(a, IdOf(plan), log[1..]);
      }
    }
  }

  lemma DepositAsks(a: Adapter, log: seq<Exchange>, plan: Plan, observed: string, content: Content)
    returns (versions: Versions, made: seq<nat>, read: seq<nat>, end: nat, files: map<Path, nat>)
    requires log != [] && Payloads(plan.objects, plan.batch) && DistinctPaths(plan.objects)
    requires log[0] == Exchange(Fetch(KeyOf(plan, ManifestFile), None), Absent)
    requires Deposit(a, plan, observed, log[1..]) == Need(Put(KeyOf(plan, ManifestFile), content))
    ensures Covers(versions, plan) && end <= |log|
    ensures Prepared(a, log, plan, IdOf(plan), InOrder(plan, versions), made, read, end, files)
    ensures forall i :: end <= i < |log| ==> log[i] == Exchange(Put(KeyOf(plan, ManifestFile), content), Conflict409)
    ensures DescribesPlan(content, plan, IdOf(plan), InOrder(plan, versions), observed)
  {
    hide CreateAll, ReadFiles, CheckInventory, Prepared, IdOf, Payload, ManifestOf, ReadSnapshot, CreateChecked, ManifestFits,
      Suffix, DescribesPlan;
    DepositStages(a, plan, observed, log[1..], content);
    assert KeyOf(plan, ManifestFile) == Key(plan.destination, IdOf(plan), ManifestFile);
    versions, made, read, end, files := DepositPrepares(a, log, plan);
    ManifestDescribes(plan, versions, observed);
    var manifest := ManifestOf(plan, versions, observed);
    ConflictsOnly(a, KeyOf(plan, ManifestFile), manifest, log[end..], content);
    forall i | end <= i < |log|
      ensures log[i] == Exchange(Put(KeyOf(plan, ManifestFile), content), Conflict409)
    {
      assert log[i] == log[end..][i - end];
    }
  }

  /** The stages in front of the manifest are behind it. */
  lemma DepositStages(a: Adapter, plan: Plan, observed: string, log: seq<Exchange>, content: Content)
    requires DistinctPaths(plan.objects) && Deposit(a, plan, observed, log) == Need(Put(KeyOf(plan, ManifestFile), content))
    ensures CreateAll(a, plan, 0, map[], log).Got?
    ensures var out := CreateAll(a, plan, 0, map[], log);
      Covers(out.value, plan) && ReadFiles(a, plan, 0, out.value, out.rest).Got?
      && CheckInventory(a, plan, None, ReadFiles(a, plan, 0, out.value, out.rest).rest).Got?
      && var checked := CheckInventory(a, plan, None, ReadFiles(a, plan, 0, out.value, out.rest).rest);
      CreateChecked(a, KeyOf(plan, ManifestFile), ManifestOf(plan, out.value, observed), checked.rest)
        == Need(Put(KeyOf(plan, ManifestFile), content))
  {
    hide CreateAll, ReadFiles, CheckInventory, ManifestOf, ReadSnapshot, CreateChecked, ManifestFits, Suffix, IdOf;
    var out := CreateAll(a, plan, 0, map[], log);
    CreateAllWrites(a, plan, 0, map[], log);
    if out.Got? && Covers(out.value, plan) {
      var read := ReadFiles(a, plan, 0, out.value, out.rest);
      ReadFilesWritesNothing(a, plan, 0, out.value, out.rest);
      if read.Got? {
        CheckInventoryWritesNothing(a, plan, None, read.rest);
        var checked := CheckInventory(a, plan, None, read.rest);
        if checked.Got? {
          var made := CreateChecked(a, KeyOf(plan, ManifestFile), ManifestOf(plan, out.value, observed), checked.rest);
          if made.Got? {
            ReadSnapshotWritesNothing(a, IdOf(plan), made.rest);
          }
        }
      }
    }
  }

  /** A creation that is still to be put has met conflicts and nothing else. */
  lemma {:induction false} ConflictsSoFar(a: Adapter, key: Key, request: Content, attempt: nat, log: seq<Exchange>, content: Content)
    requires attempt < a.limits.putAttempts && Create(a, key, request, attempt, log) == Need(Put(key, content))
    ensures content == request && forall i :: 0 <= i < |log| ==> log[i] == Exchange(Put(key, request), Conflict409)
    decreases a.limits.putAttempts - attempt
  {
    hide Suffix;
    if log != [] {
      if log[0].reply == Conflict409 && attempt + 1 < a.limits.putAttempts {
        ConflictsSoFar(a, key, request, attempt + 1, log[1..], content);
        assert log == [log[0]] + log[1..];
      }
    }
  }

  lemma ConflictsOnly(a: Adapter, key: Key, request: Content, log: seq<Exchange>, content: Content)
    requires CreateChecked(a, key, request, log) == Need(Put(key, content))
    ensures content == request && forall i :: 0 <= i < |log| ==> log[i] == Exchange(Put(key, request), Conflict409)
  {
    hide Create;
    ConflictsSoFar(a, key, request, 0, log, content);
  }

  // ------------------------------------------------------------------- read back

  /** Record `i` of the manifest is about object `i`, which the call at `1 + i` found by its version. */
  predicate FetchedAt(a: Adapter, log: seq<Exchange>, p: nat, id: SnapshotId, batch: string, record: FileRecord, o: FrozenObject) {
    && InfoOf(record.info, o, batch) && o.content == Content(o.content.body, record.info.contentType, record.info.metadata)
    && record.key == Key(a.destination, id, o.path)
    && ReadAt(a, log, p, record.key, record.version, Stored(o.content, record.version))
  }

  lemma FetchFileMeans(a: Adapter, log: seq<Exchange>, p: nat, id: SnapshotId, batch: string, record: FileRecord,
                       files: seq<FrozenObject>, total: nat)
    requires p <= |log| && FetchFile(a, id, batch, record, files, total, log[p..]).Got?
    ensures var out := FetchFile(a, id, batch, record, files, total, log[p..]);
      p < |log| && out.rest == log[p + 1..] && FetchedAt(a, log, p, id, batch, record, out.value)
  {
    hide Get, Contains, MaterialPath, Suffix;
    var key := Key(a.destination, id, record.info.path);
    GetMeans(a, log, p, key, record.version);
  }

  lemma {:induction false} FetchFilesMean(a: Adapter, log: seq<Exchange>, p: nat, id: SnapshotId, doc: Manifest, i: nat,
                                          files: seq<FrozenObject>, total: nat)
    requires i <= |doc.files| && |files| == i && p + i <= |log|
    requires FetchFiles(a, id, doc, i, files, total, log[p + i..]).Got?
    ensures var out := FetchFiles(a, id, doc, i, files, total, log[p + i..]);
      && p + |doc.files| <= |log| && out.rest == log[p + |doc.files|..]
      && |out.value| == |doc.files| && out.value[..i] == files
      && forall j :: i <= j < |doc.files| ==> FetchedAt(a, log, p + j, id, doc.batch, doc.files[j], out.value[j])
    decreases |doc.files| - i
  {
    hide FetchFile, FetchedAt, Suffix;
    if i < |doc.files| {
      FetchFileMeans(a, log, p + i, id, doc.batch, doc.files[i], files, total);
      var item := FetchFile(a, id, doc.batch, doc.files[i], files, total, log[p + i..]).value;
      FetchFilesMean(a, log, p, id, doc, i + 1, files + [item], total + doc.files[i].info.size);
      var all := FetchFiles(a, id, doc, i, files, total, log[p + i..]).value;
      assert all[i] == all[..i + 1][i] == item && all[..i] == all[..i + 1][..i] == files;
    }
  }

  /** The versions of the records in the order of the manifest. */
  function Listed(doc: Manifest): (r: seq<Version>)
    ensures |r| == |doc.files| && forall i :: 0 <= i < |r| ==> r[i] == doc.files[i].version
  {
    seq(|doc.files|, i requires 0 <= i < |doc.files| => doc.files[i].version)
  }

  /** The log of a reader that accepts: the manifest; each file it lists, by version; all of them again,
      by version and latest; the manifest again, by version and latest; and a listing that names them
      all, the manifest with its size, and nothing else. */
  predicate Accepted(a: Adapter, log: seq<Exchange>, p: nat, id: SnapshotId, v: Verified, read: seq<nat>, end: nat,
                     files: map<Path, nat>) {
    var key := Key(a.destination, id, ManifestFile);
    var marker := Stored(v.manifest, v.manifestVersion);
    && ReadAt(a, log, p, key, None, marker)
    && v.manifest.body.Canonical? && a.codec.observe(v.plan.objects).Some?
    && var doc := v.manifest.body.doc;
    && DescribesPlan(v.manifest, v.plan, id, Listed(doc), a.codec.observe(v.plan.objects).value)
    && (forall i :: 0 <= i < |doc.files| ==>
          FetchedAt(a, log, p + 1 + i, id, v.plan.batch, doc.files[i], v.plan.objects[i]))
    && AllRead(a, log, v.plan, id, Listed(doc), read) && read[0] == p + 1 + |doc.files|
    && var m := read[|v.plan.objects|];
    && ReadAt(a, log, m, key, v.manifestVersion, marker) && ReadAt(a, log, m + 1, key, None, marker)
    && ListingAt(a, log, m + 2, end, id, files) && ListsPlan(v.plan, files)
    && ManifestFile in files && files[ManifestFile] == a.codec.manifestSize(doc)
  }

  lemma ConfirmMeans(a: Adapter, log: seq<Exchange>, p: nat, key: Key, marker: Stored)
    requires p <= |log| && ConfirmMarker(a, key, marker, log[p..]).Got?
    ensures p + 2 <= |log| && ConfirmMarker(a, key, marker, log[p..]).rest == log[p + 2..]
    ensures ReadAt(a, log, p, key, marker.version, marker) && ReadAt(a, log, p + 1, key, None, marker)
  {
    hide GetSame, ReadAt;
    GetSameMeans(a, log, p, key, marker.version, marker.content);
    GetSameMeans(a, log, p + 1, key, None, marker.content);
  }

  lemma ReadBackMeans(a: Adapter, log: seq<Exchange>, p: nat, plan: Plan, versions: Versions, marker: Stored)
    returns (read: seq<nat>, end: nat, files: map<Path, nat>)
    requires p <= |log| && Payloads(plan.objects, plan.batch) && DistinctPaths(plan.objects)
    requires Covers(versions, plan) && ReadBack(a, plan, versions, marker, log[p..]).Got?
    ensures |read| == |plan.objects| + 1 && AllRead(a, log, plan, IdOf(plan), InOrder(plan, versions), read) && read[0] == p
    ensures var m := read[|plan.objects|];
      && m + 2 <= |log| && ListingAt(a, log, m + 2, end, IdOf(plan), files)
      && ReadAt(a, log, m, KeyOf(plan, ManifestFile), marker.version, marker)
      && ReadAt(a, log, m + 1, KeyOf(plan, ManifestFile), None, marker)
    ensures ListsPlan(plan, files) && ManifestFile in files && files[ManifestFile] == Size(a.codec, marker.content.body)
    ensures end <= |log| && ReadBack(a, plan, versions, marker, log[p..]).rest == log[end..]
    ensures ReadBack(a, plan, versions, marker, log[p..]).value == Verified(plan, marker.content, marker.version)
  {
    hide ReadFiles, ConfirmMarker, CheckInventory, KeyOf, IdOf, Suffix, AllRead, ReadAt, ListingAt, ListsPlan, Payload, Size;
    read := PlanRead(a, log, p, plan, versions);
    var m := read[|plan.objects|];
    ConfirmMeans(a, log, m, KeyOf(plan, ManifestFile), marker);
    end, files := CheckMeans(a, log, m + 2, plan, Some(marker.content));
  }

  /** What the reader has rebuilt before it reads everything again. */
  lemma RebuiltIs(a: Adapter, log: seq<Exchange>, p: nat, id: SnapshotId) returns (plan: Plan, marker: Stored)
    requires p <= |log| && ReadSnapshot(a, id, log[p..]).Got?
    ensures ReadAt(a, log, p, Key(a.destination, id, ManifestFile), None, marker) && marker.content.body.Canonical?
    ensures var doc := marker.content.body.doc;
      && p + 1 + |doc.files| <= |log| && |plan.objects| == |doc.files|
      && (forall i :: 0 <= i < |doc.files| ==>
            FetchedAt(a, log, p + 1 + i, id, plan.batch, doc.files[i], plan.objects[i]))
      && plan.destination == a.destination && IdOf(plan) == id && ValidPlan(plan)
      && a.codec.observe(plan.objects).Some? && Covers(VersionsOf(doc.files), plan)
      && marker.content == ManifestOf(plan, VersionsOf(doc.files), a.codec.observe(plan.objects).value)
      && ReadSnapshot(a, id, log[p..]) == ReadBack(a, plan, VersionsOf(doc.files), marker, log[p + 1 + |doc.files|..])
  {
    hide Get, FetchFiles, ReadBack, ManifestFits, ManifestOf, IdOf, ValidPlan, FetchedAt, ReadAt, Suffix, Size, IsHash, Covers;
    GetMeans(a, log, p, Key(a.destination, id, ManifestFile), None);
    marker := Get(a, Key(a.destination, id, ManifestFile), None, log[p..]).value.value;
    var doc := marker.content.body.doc;
    assert log[p + 1 + 0..] == log[p + 1..];
    FetchFilesMean(a, log, p + 1, id, doc, 0, [], Size(a.codec, marker.content.body));
    var objects := FetchFiles(a, id, doc, 0, [], Size(a.codec, marker.content.body), log[p + 1..]).value;
    plan := Plan(a.destination, doc.batch, objects, a.limits);
  }

  lemma PlanIs(plan: Plan)
    requires ValidPlan(plan)
    ensures Payloads(plan.objects, plan.batch) && DistinctPaths(plan.objects)
  {
    hide OrderedMaterial, TotalSize, WithinObjectLimit, Payload, IsHash;
    PlanPathsDistinct(plan.objects);
  }

  lemma VersionsListed(plan: Plan, versions: Versions, content: Content, observed: string)
    requires Covers(versions, plan) && content == ManifestOf(plan, versions, observed)
    ensures content.body.Canonical? && Listed(content.body.doc) == InOrder(plan, versions)
  {
    hide IdOf, Inventory;
  }

  /** Every reader that accepts has had exactly this exchange with the store. */
  lemma ReaderMeans(a: Adapter, log: seq<Exchange>, p: nat, id: SnapshotId)
    returns (read: seq<nat>, end: nat, files: map<Path, nat>)
    requires p <= |log| && ReadSnapshot(a, id, log[p..]).Got?
    ensures var out := ReadSnapshot(a, id, log[p..]);
      end <= |log| && out.rest == log[end..] && Accepted(a, log, p, id, out.value, read, end, files)
  {
    hide ReadSnapshot, ReadBack, ManifestOf, IdOf, ValidPlan, FetchedAt, AllRead, ReadAt, ListingAt, ListsPlan, DescribesPlan,
      Suffix, Payload, DistinctPaths, Covers;
    var plan, marker := RebuiltIs(a, log, p, id);
    var doc := marker.content.body.doc;
    var versions, observed := VersionsOf(doc.files), a.codec.observe(plan.objects).value;
    PlanIs(plan);
    read, end, files := ReadBackMeans(a, log, p + 1 + |doc.files|, plan, versions, marker);
    VersionsListed(plan, versions, marker.content, observed);
    ManifestDescribes(plan, versions, observed);
  }

  // -------------------------------------------------------------------- publisher

  /** How a publisher came to write, and what. */
  datatype Course = Course(
    versions: seq<Version>, made: seq<nat>, read: seq<nat>, end: nat, files: map<Path, nat>, content: Content, version: Version)

  /** It prepared everything, and put a manifest that describes exactly that; the put is settled at `q`,
      as a creation when it was acknowledged. */
  predicate Deposits(a: Adapter, log: seq<Exchange>, plan: Plan, id: SnapshotId, c: Course, q: nat, created: bool) {
    && Prepared(a, log, plan, id, c.versions, c.made, c.read, c.end, c.files)
    && a.codec.observe(plan.objects).Some?
    && DescribesPlan(c.content, plan, id, c.versions, a.codec.observe(plan.objects).value)
    && c.end + 2 <= q <= |log|
    && Creation.Settled(a, Key(plan.destination, id, ManifestFile), c.content, log[c.end..], q - c.end - 2, created, c.version)
  }

  lemma DepositMeans(a: Adapter, log: seq<Exchange>, plan: Plan) returns (c: Course, q: nat)
    requires log != [] && Payloads(plan.objects, plan.batch) && DistinctPaths(plan.objects)
    requires log[0] == Exchange(Fetch(KeyOf(plan, ManifestFile), None), Absent) && a.codec.observe(plan.objects).Some?
    requires Deposit(a, plan, a.codec.observe(plan.objects).value, log[1..]).Got?
    ensures var out := Deposit(a, plan, a.codec.observe(plan.objects).value, log[1..]);
      && q <= |log| && Deposits(a, log, plan, IdOf(plan), c, q, out.value == SnapshotCreated)
      && ReadSnapshot(a, IdOf(plan), log[q..]).Got? && ReadSnapshot(a, IdOf(plan), log[q..]).rest == out.rest
      && ReadSnapshot(a, IdOf(plan), log[q..]).value.plan.objects == plan.objects
  {
    hide CreateAll, ReadFiles, CheckInventory, Prepared, IdOf, Payload, ManifestOf, ReadSnapshot, CreateChecked, ManifestFits,
      Suffix, DescribesPlan, Creation.Settled;
    assert KeyOf(plan, ManifestFile) == Key(plan.destination, IdOf(plan), ManifestFile);
    var observed := a.codec.observe(plan.objects).value;
    var versions, made, read, end, files := DepositPrepares(a, log, plan);
    var manifest := ManifestOf(plan, versions, observed);
    ManifestDescribes(plan, versions, observed);
    q := CreateMeans(a, log, end, KeyOf(plan, ManifestFile), manifest);
    var out := CreateChecked(a, KeyOf(plan, ManifestFile), manifest, log[end..]);
    c := Course(InOrder(plan, versions), made, read, end, files, manifest, out.value.1);
  }

  /** Every publisher that succeeds: it found the manifest there, or prepared and wrote it, and says it was
      created exactly when its own put was acknowledged; then it read the whole snapshot back, and
      that is its plan. */
  lemma PublisherMeans(a: Adapter, log: seq<Exchange>, plan: Plan)
    returns (c: Option<Course>, q: nat, v: Verified, read: seq<nat>, end: nat, files: map<Path, nat>)
    requires ValidPlan(plan) && Publish(a, plan, log).Got?
    ensures log != [] && log[0].call == Fetch(Key(plan.destination, IdOf(plan), ManifestFile), None)
    ensures var status := Publish(a, plan, log).value;
      if log[0].reply == Absent then c.Some? && Deposits(a, log, plan, IdOf(plan), c.value, q, status == SnapshotCreated)
      else log[0].reply.Found? && q == 1 && status == AlreadyPresentIdentical
    ensures q <= |log| && Accepted(a, log, q, IdOf(plan), v, read, end, files) && v.plan.objects == plan.objects
    ensures end <= |log| && Publish(a, plan, log).rest == log[end..]
  {
    hide Get, Deposit, Deposits, Accepted, ReadSnapshot, KeyOf, IdOf, OrderedMaterial, TotalSize, WithinObjectLimit, Suffix;
    PlanPathsDistinct(plan.objects);
    assert log[0..] == log && KeyOf(plan, ManifestFile) == Key(plan.destination, IdOf(plan), ManifestFile) by {
      ManifestKey(plan);
    }
    GetMeans(a, log, 0, KeyOf(plan, ManifestFile), None);
    if log[0].reply == Absent {
      var course;
      course, q := DepositMeans(a, log, plan);
      c := Some(course);
    } else {
      c, q := None, 1;
    }
    v := ReadSnapshot(a, IdOf(plan), log[q..]).value;
    read, end, files := ReaderMeans(a, log, q, IdOf(plan));
  }

  lemma ManifestKey(plan: Plan)
    ensures KeyOf(plan, ManifestFile) == Key(plan.destination, IdOf(plan), ManifestFile)
  {
    hide IdOf;
  }
}
