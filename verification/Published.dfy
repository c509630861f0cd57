/** What a published snapshot is, field by field: the manifest a publisher leaves or a reader
    accepts, the objects it lists, and what accepting it says about the limits. */
module Published {
  import opened Common
  import opened SnapshotTypes
  import opened Listing
  import opened Snapshot
  import opened SnapshotLog
  import opened S3Adapter
  import opened Fleet
  import opened Exactness

  /** The five listed fields of a payload object of a batch. */
  predicate InfoOf(info: FileInfo, o: FrozenObject, batch: string) {
    && o.content.body.Raw?
    && info.path == o.path
    && info.size == |o.content.body.data|
    && info.digest == Sha256(o.content.body)
    && info.contentType == (if o.path == ObservationsTable || o.path == PackagesTable then Parquet else Json)
    && info.metadata == Standard(batch, Sha256(o.content.body))
  }

  /** The identifier is the hash of the batch, the destination and the listed fields of every object. */
  predicate Identifies(id: SnapshotId, plan: Plan) {
    && id.identity.batch == plan.batch
    && id.identity.destination == plan.destination
    && |id.identity.files| == |plan.objects|
    && forall i :: 0 <= i < |plan.objects| ==> InfoOf(id.identity.files[i], plan.objects[i], plan.batch)
  }

  /** A record is about an object, and names the version of that very content in the store. */
  predicate RecordsObject(b: Bucket, plan: Plan, id: SnapshotId, record: FileRecord, o: FrozenObject) {
    && InfoOf(record.info, o, plan.batch)
    && record.key == Key(plan.destination, id, o.path)
    && record.key in b
    && b[record.key].content.body == o.content.body
    && b[record.key].content.contentType == record.info.contentType
    && b[record.key].content.metadata == record.info.metadata
    && b[record.key].version == record.version
  }

  /** The document of a manifest, against the plan, what the reader of its tables observed, and
      the store. */
  predicate Documents(b: Bucket, plan: Plan, id: SnapshotId, doc: Manifest, observed: string) {
    && doc.snapshot == id
    && doc.batch == plan.batch
    && doc.destination == plan.destination
    && doc.observations == observed
    && |doc.files| == |plan.objects|
    && forall i :: 0 <= i < |plan.objects| ==> RecordsObject(b, plan, id, doc.files[i], plan.objects[i])
  }

  /** The whole published snapshot. */
  predicate IsPublished(codec: Codec, b: Bucket, plan: Plan, id: SnapshotId) {
    var key := Key(plan.destination, id, ManifestFile);
    && Identifies(id, plan)
    && key in b
    && b[key].content.body.Canonical?
    && b[key].content.contentType == Json
    && b[key].content.metadata == Standard(plan.batch, Sha256(b[key].content.body))
    && codec.observe(plan.objects).Some?
    && Documents(b, plan, id, b[key].content.body.doc, codec.observe(plan.objects).value)
  }

  lemma InventoryIsInfo(o: FrozenObject, batch: string)
    requires Payload(o, batch)
    ensures InfoOf(Inventory(o), o, batch)
  {
  }

  lemma InfoIsInventory(info: FileInfo, o: FrozenObject, batch: string)
    requires Payload(o, batch) && InfoOf(info, o, batch)
    ensures info == Inventory(o)
  {
  }

  lemma IdentifiesExactly(id: SnapshotId, plan: Plan)
    requires Payloads(plan.objects, plan.batch)
    ensures Identifies(id, plan) <==> id == IdOf(plan)
  {
    hide InfoOf, Inventory;
    forall i | 0 <= i < |plan.objects|
      ensures InfoOf(Inventories(plan.objects)[i], plan.objects[i], plan.batch)
      ensures Identifies(id, plan) ==> id.identity.files[i] == Inventories(plan.objects)[i]
    {
      assert Payload(plan.objects[i], plan.batch);
      InventoryIsInfo(plan.objects[i], plan.batch);
      if Identifies(id, plan) {
        InfoIsInventory(id.identity.files[i], plan.objects[i], plan.batch);
      }
    }
    if Identifies(id, plan) {
      assert id.identity.files == Inventories(plan.objects);
    }
  }

  lemma RecordExactly(b: Bucket, plan: Plan, i: nat, record: FileRecord)
    requires Payloads(plan.objects, plan.batch) && i < |plan.objects|
    ensures var o := plan.objects[i];
      RecordsObject(b, plan, IdOf(plan), record, o) <==>
        && record.info == Inventory(o) && record.key == KeyOf(plan, o.path) && record.key in b
        && b[record.key] == Stored(o.content, record.version)
  {
    hide IdOf;
    assert Payload(plan.objects[i], plan.batch);
    var o := plan.objects[i];
    InventoryIsInfo(o, plan.batch);
    if InfoOf(record.info, o, plan.batch) {
      InfoIsInventory(record.info, o, plan.batch);
    }
  }

  /** `Complete` is exactly a published snapshot. */
  lemma CompleteExactly(codec: Codec, b: Bucket, plan: Plan)
    requires Payloads(plan.objects, plan.batch)
    ensures Complete(codec, b, plan) <==> IsPublished(codec, b, plan, IdOf(plan))
  {
    hide IdOf, RecordsObject, Payload, Identifies, Inventory;
    IdentifiesExactly(IdOf(plan), plan);
    if Complete(codec, b, plan) {
      CompleteDocuments(codec, b, plan);
    }
    if IsPublished(codec, b, plan, IdOf(plan)) {
      DocumentsComplete(codec, b, plan);
    }
  }

  lemma CompleteDocuments(codec: Codec, b: Bucket, plan: Plan)
    requires Payloads(plan.objects, plan.batch) && Complete(codec, b, plan)
    ensures var manifest := b[KeyOf(plan, ManifestFile)].content;
      && manifest.body.Canonical? && manifest.contentType == Json
      && manifest.metadata == Standard(plan.batch, Sha256(manifest.body))
      && Documents(b, plan, IdOf(plan), manifest.body.doc, codec.observe(plan.objects).value)
  {
    hide IdOf, RecordsObject, Payload, Inventory, Stamps;
    var doc := b[KeyOf(plan, ManifestFile)].content.body.doc;
    forall i | 0 <= i < |plan.objects|
      ensures RecordsObject(b, plan, IdOf(plan), doc.files[i], plan.objects[i])
    {
      assert HeldAt(b, plan, plan.objects[i], Stamps(b, plan));
      RecordExactly(b, plan, i, doc.files[i]);
    }
  }

  lemma DocumentsComplete(codec: Codec, b: Bucket, plan: Plan)
    requires Payloads(plan.objects, plan.batch) && IsPublished(codec, b, plan, IdOf(plan))
    ensures Complete(codec, b, plan)
  {
    hide IdOf, RecordsObject, Payload, Inventory, Identifies;
    var doc := b[KeyOf(plan, ManifestFile)].content.body.doc;
    forall i | 0 <= i < |plan.objects|
      ensures HeldAt(b, plan, plan.objects[i], Stamps(b, plan))
      ensures doc.files[i] == FileRecord(Inventory(plan.objects[i]), KeyOf(plan, plan.objects[i].path),
                                         Stamps(b, plan)[plan.objects[i].path])
    {
      RecordExactly(b, plan, i, doc.files[i]);
      StampOf(b, plan, plan.objects[i].path);
    }
    assert doc.files == Records(plan, Stamps(b, plan));
  }

  lemma StampOf(b: Bucket, plan: Plan, path: Path)
    requires KeyOf(plan, path) in b
    ensures path in Stamps(b, plan) && Stamps(b, plan)[path] == b[KeyOf(plan, path)].version
  {
    hide IdOf;
    assert KeyOf(plan, path).path == path;
  }

  // -------------------------------------------------------------------- every run

  /** After any run: where a publisher has succeeded, the snapshot is published. */
  lemma SuccessIsPublished(s: State, events: seq<Event>, who: nat) returns (id: SnapshotId)
    requires Initial(s) && who in Run(s, events).clients
    requires var c := Run(s, events).clients[who]; c.task.Publishes? && Publish(c.adapter, c.task.plan, c.log).Got?
    ensures IsPublished(s.codec, Run(s, events).bucket, Run(s, events).clients[who].task.plan, id)
  {
    hide Run, Publish, Complete, IsPublished, IdOf, OrderedMaterial;
    SuccessMeansComplete(s, events, who);
    ManifestsAlwaysBacked(s, events);
    var plan := Run(s, events).clients[who].task.plan;
    id := IdOf(plan);
    CompleteExactly(s.codec, Run(s, events).bucket, plan);
  }

  /** The sizes of payload objects, and their running sums. */
  predicate Sums(objects: seq<FrozenObject>, sums: seq<nat>) {
    && |sums| == |objects| + 1 && sums[0] == 0
    && forall i :: 0 <= i < |objects| ==>
         objects[i].content.body.Raw? && sums[i + 1] == sums[i] + |objects[i].content.body.data|
  }

  lemma {:induction false} TotalOneMore(objects: seq<FrozenObject>, o: FrozenObject)
    ensures TotalSize(objects + [o]) == TotalSize(objects) + PayloadSize(o.content.body)
  {
    if objects == [] {
      assert [o][1..] == [] && objects + [o] == [o];
    } else {
      TotalOneMore(objects[1..], o);
      assert (objects + [o])[1..] == objects[1..] + [o];
    }
  }

  lemma TotalIsSum(objects: seq<FrozenObject>) returns (sums: seq<nat>)
    requires forall o | o in objects :: o.content.body.Raw?
    ensures Sums(objects, sums) && sums[|objects|] == TotalSize(objects)
  {
    hide TotalSize;
    sums := seq(|objects| + 1, i requires 0 <= i <= |objects| => TotalSize(objects[..i]));
    assert objects[..0] == [] && TotalSize([]) == 0 by { NothingWeighs(); }
    assert objects[..|objects|] == objects;
    forall i | 0 <= i < |objects|
      ensures objects[i].content.body.Raw? && sums[i + 1] == sums[i] + |objects[i].content.body.data|
    {
      assert objects[i] in objects && objects[..i + 1] == objects[..i] + [objects[i]];
      TotalOneMore(objects[..i], objects[i]);
    }
  }

  lemma NothingWeighs()
    ensures TotalSize([]) == 0
  {
  }

  predicate Hexadecimal(text: string) {
    |text| == 64 && forall i :: 0 <= i < |text| ==> '0' <= text[i] <= '9' || 'a' <= text[i] <= 'f'
  }

  /** An object of a plan: a file of one of the seven kinds, with the content type of its kind and the
      metadata of its batch and its own digest. */
  predicate IsPlanned(o: FrozenObject, batch: string) {
    && o.content.body.Raw?
    && o.content.contentType == (if o.path == ObservationsTable || o.path == PackagesTable then Parquet else Json)
    && o.content.metadata == Standard(batch, Sha256(o.content.body))
    && match o.path
       case RawRecord(sha) => Hexadecimal(sha)
       case RawSpdx(sha) => Hexadecimal(sha)
       case ManifestFile => false
       case Unlisted(_) => false
       case _ => true
  }

  /** The text of one path comes before that of the other. */
  ghost predicate TextBefore(p: Path, q: Path) {
    exists d :: FirstDiffers(PathText(p), PathText(q), d)
  }

  /** A plan: the objects in strict order of their paths, the five files every plan has among them, within
      the plan's limits. */
  ghost predicate IsPlan(plan: Plan, total: nat) {
    && Hexadecimal(plan.batch)
    && (forall i :: 0 <= i < |plan.objects| ==> IsPlanned(plan.objects[i], plan.batch))
    && (forall i, j :: 0 <= i < j < |plan.objects| ==> TextBefore(plan.objects[i].path, plan.objects[j].path))
    && Contains(plan.objects, ObservationsTable) && Contains(plan.objects, PackagesTable)
    && Contains(plan.objects, CompleteMarker) && Contains(plan.objects, NormalizationReport)
    && Contains(plan.objects, RecordsReport)
    && (forall i :: 0 <= i < |plan.objects| ==> PayloadSize(plan.objects[i].content.body) <= plan.limits.objectBytes)
    && |plan.objects| + 1 <= plan.limits.objects && total <= plan.limits.snapshotBytes
  }

  lemma HexExactly(text: string)
    ensures IsHash(text) <==> Hexadecimal(text)
  {
    if IsHash(text) {
      forall i | 0 <= i < |text|
        ensures '0' <= text[i] <= '9' || 'a' <= text[i] <= 'f'
      {
        assert text[i] in text;
      }
    }
  }

  lemma PlannedExactly(o: FrozenObject, batch: string)
    ensures Payload(o, batch) && MaterialPath(o.path) <==> IsPlanned(o, batch)
  {
    match o.path
    case RawRecord(sha) => HexExactly(sha);
    case RawSpdx(sha) => HexExactly(sha);
    case _ =>
  }

  /** Different files of a plan have different texts. */
  lemma TextsDiffer(p: Path, q: Path)
    requires MaterialPath(p) && MaterialPath(q) && PathText(p) == PathText(q)
    ensures p == q
  {
    var a, b := PathText(p), PathText(q);
    assert |a| == |b| && a[..12] == b[..12];
    TextAndRank(p, q);
  }

  /** Exactly which plans are valid. */
  lemma PlanExactly(plan: Plan, sums: seq<nat>)
    requires Sums(plan.objects, sums)
    ensures ValidPlan(plan) <==> IsPlan(plan, sums[|plan.objects|])
  {
    hide IsHash, Payload, Payloads, MaterialPath, IsPlanned, Hexadecimal, Contains, PayloadSize, PathText, OrderedMaterial, Sums;
    HexExactly(plan.batch);
    SumIsTotal(plan.objects, sums);
    if forall i :: 0 <= i < |plan.objects| ==> IsPlanned(plan.objects[i], plan.batch) {
      ObjectsExactly(plan.objects, plan.batch);
      MaterialExactly(plan.objects);
    } else if Payloads(plan.objects, plan.batch) && OrderedMaterial(plan.objects) {
      ObjectsPlanned(plan.objects, plan.batch);
    }
  }

  lemma ObjectsExactly(objects: seq<FrozenObject>, batch: string)
    requires forall i :: 0 <= i < |objects| ==> IsPlanned(objects[i], batch)
    ensures Payloads(objects, batch) && forall i :: 0 <= i < |objects| ==> MaterialPath(objects[i].path)
  {
    hide IsPlanned, Payload, MaterialPath;
    forall i | 0 <= i < |objects|
      ensures Payload(objects[i], batch) && MaterialPath(objects[i].path)
    {
      PlannedExactly(objects[i], batch);
    }
  }

  lemma ObjectsPlanned(objects: seq<FrozenObject>, batch: string)
    requires Payloads(objects, batch) && OrderedMaterial(objects)
    ensures forall i :: 0 <= i < |objects| ==> IsPlanned(objects[i], batch)
  {
    hide IsPlanned, Payload, MaterialPath, Contains, Ascends;
    forall i | 0 <= i < |objects|
      ensures IsPlanned(objects[i], batch)
    {
      PlannedExactly(objects[i], batch);
    }
  }

  lemma MaterialExactly(objects: seq<FrozenObject>)
    requires forall i :: 0 <= i < |objects| ==> MaterialPath(objects[i].path)
    ensures OrderedMaterial(objects) <==>
      && (forall i, j :: 0 <= i < j < |objects| ==> TextBefore(objects[i].path, objects[j].path))
      && Contains(objects, ObservationsTable) && Contains(objects, PackagesTable) && Contains(objects, CompleteMarker)
      && Contains(objects, NormalizationReport) && Contains(objects, RecordsReport)
  {
    hide MaterialPath, Contains, TextBefore, Before;
    forall i, j | 0 <= i < j < |objects|
      ensures Ascends(objects, i, j) <==> TextBefore(objects[i].path, objects[j].path)
    {
      InOrderExactly(objects[i].path, objects[j].path);
    }
  }

  lemma InOrderExactly(p: Path, q: Path)
    requires MaterialPath(p) && MaterialPath(q)
    ensures Before(p, q) <==> TextBefore(p, q)
  {
    hide PathText, MaterialPath, Rank, FirstDiffers;
    LessExactly(PathText(p), PathText(q));
    if PathText(p) == PathText(q) {
      TextsDiffer(p, q);
    }
  }

  lemma {:induction false} SumIsTotal(objects: seq<FrozenObject>, sums: seq<nat>)
    requires Sums(objects, sums)
    ensures sums[|objects|] == TotalSize(objects)
  {
    assert forall o | o in objects :: o.content.body.Raw?;
    var other := TotalIsSum(objects);
    SameSums(objects, sums, other, |objects|);
  }

  lemma {:induction false} SameSums(objects: seq<FrozenObject>, one: seq<nat>, other: seq<nat>, n: nat)
    requires Sums(objects, one) && Sums(objects, other) && n <= |objects|
    ensures one[n] == other[n]
  {
    if n > 0 {
      SameSums(objects, one, other, n - 1);
    }
  }

  /** The reader's limits hold what it returns. */
  predicate Holds(limits: Limits, codec: Codec, objects: seq<FrozenObject>, total: nat, doc: Manifest) {
    && (forall i :: 0 <= i < |objects| ==> objects[i].content.body.Raw? && |objects[i].content.body.data| <= limits.objectBytes)
    && codec.manifestSize(doc) <= limits.objectBytes && codec.manifestSize(doc) <= 4194304
    && codec.manifestSize(doc) + total <= limits.snapshotBytes
    && |objects| + 1 <= limits.objects
    && codec.expansion(objects) <= limits.expandedBytes
  }

  /** Everything accepting says: the plan returned is published under the identifier asked for, and
      the manifest and version returned are the stored ones. */
  lemma AcceptedIsPublished(s: State, events: seq<Event>, who: nat)
    requires Initial(s) && who in Run(s, events).clients
    requires var c := Run(s, events).clients[who]; c.task.Reads? && ReadSnapshot(c.adapter, c.task.snapshot, c.log).Got?
    ensures var c := Run(s, events).clients[who];
      var b := Run(s, events).bucket;
      var got := ReadSnapshot(c.adapter, c.task.snapshot, c.log).value;
      var key := Key(c.adapter.destination, c.task.snapshot, ManifestFile);
      && got.plan.destination == c.adapter.destination && got.plan.limits == c.adapter.limits
      && IsPublished(s.codec, b, got.plan, c.task.snapshot)
      && key in b && got.manifest == b[key].content && got.manifestVersion == b[key].version
  {
    hide Run, ReadSnapshot, Complete, IsPublished, IdOf, OrderedMaterial, Consistent;
    ManifestsAlwaysBacked(s, events);
    var c := Run(s, events).clients[who];
    var b := Run(s, events).bucket;
    ReadSnapshotLearns(b, c.adapter, c.task.snapshot, c.log);
    CompleteExactly(s.codec, b, ReadSnapshot(c.adapter, c.task.snapshot, c.log).value.plan);
    ReturnedIsStored(b, c.adapter, c.task.snapshot, c.log);
  }

  lemma ReturnedIsStored(b: Bucket, a: Adapter, id: SnapshotId, log: seq<Exchange>)
    requires Consistent(b, log) && ReadSnapshot(a, id, log).Got?
    ensures var got := ReadSnapshot(a, id, log).value;
      var key := Key(a.destination, id, ManifestFile);
      && got.plan.limits == a.limits
      && key in b && got.manifest == b[key].content && got.manifestVersion == b[key].version
  {
    hide FetchFiles, ReadBack, ValidPlan, ManifestFits, ManifestOf, Covers, Suffix, Get, Consistent;
    GetLearns(b, a, Key(a.destination, id, ManifestFile), None, log);
    var got := Get(a, Key(a.destination, id, ManifestFile), None, log);
    var marker := got.value.value;
    var doc := marker.content.body.doc;
    var fetched := FetchFiles(a, id, doc, 0, [], Size(a.codec, marker.content.body), got.rest);
    var plan := Plan(a.destination, doc.batch, fetched.value, a.limits);
    ReadBackKeeps(a, plan, VersionsOf(doc.files), marker, fetched.rest);
  }

  /** And the limits of the reader held all of it. */
  lemma AcceptedFits(a: Adapter, id: SnapshotId, log: seq<Exchange>) returns (sums: seq<nat>)
    requires ReadSnapshot(a, id, log).Got?
    ensures var got := ReadSnapshot(a, id, log).value;
      && got.manifest.body.Canonical? && Sums(got.plan.objects, sums)
      && Holds(a.limits, a.codec, got.plan.objects, sums[|got.plan.objects|], got.manifest.body.doc)
  {
    hide FetchFiles, ReadBack, ManifestOf, Covers, Suffix, Get, TotalSize, OrderedMaterial, IdOf, Payload;
    var got := Get(a, Key(a.destination, id, ManifestFile), None, log);
    var marker := got.value.value;
    var doc := marker.content.body.doc;
    var fetched := FetchFiles(a, id, doc, 0, [], Size(a.codec, marker.content.body), got.rest);
    var plan := Plan(a.destination, doc.batch, fetched.value, a.limits);
    ReadBackKeeps(a, plan, VersionsOf(doc.files), marker, fetched.rest);
    AllRaw(plan);
    sums := TotalIsSum(plan.objects);
  }

  lemma AllRaw(plan: Plan)
    requires Payloads(plan.objects, plan.batch)
    ensures forall o | o in plan.objects :: o.content.body.Raw?
  {
    forall o | o in plan.objects
      ensures o.content.body.Raw?
    {
      var i :| 0 <= i < |plan.objects| && plan.objects[i] == o;
      assert Payload(plan.objects[i], plan.batch);
    }
  }
}
