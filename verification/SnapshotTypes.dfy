/** Frozen snapshot plans (`ingestion_types.py`).
    `sha256` and `canonical` are free constructors, hence injective. */
module SnapshotTypes {
  import opened Common

  type Version = Option<string>

  type pos = n: nat | 0 < n witness 1

  /** The file names `material_path` accepts, the manifest, and any other text. */
  datatype Path =
    | ObservationsTable | PackagesTable | CompleteMarker | ManifestFile
    | RawRecord(sha: string) | RawSpdx(sha: string) | NormalizationReport | RecordsReport
    | Unlisted(text: string)

  datatype Destination = Destination(bucket: string, prefix: string, region: string, owner: Option<string>)

  datatype Limits = Limits(
    objectBytes: pos, snapshotBytes: pos, objects: pos, pageSize: pos, pages: pos,
    putAttempts: pos, readChunk: pos, expandedBytes: pos)

  /** Bytes of an object: a payload file, or the canonical JSON of a manifest. */
  datatype Body = Raw(data: seq<byte>) | Canonical(doc: Manifest)

  datatype Digest = Sha256(of: Body)

  datatype Metadata = Standard(batch: string, digest: Digest) | Foreign(pairs: map<string, string>)

  datatype ContentType = Json | Parquet | OtherType(name: string)

  datatype Content = Content(body: Body, contentType: ContentType, metadata: Metadata)

  datatype FrozenObject = FrozenObject(path: Path, content: Content)

  /** The five fields `FrozenObject.inventory` reports. */
  datatype FileInfo = FileInfo(path: Path, size: nat, digest: Digest, contentType: ContentType, metadata: Metadata)

  datatype Identity = Identity(batch: string, destination: Destination, files: seq<FileInfo>)

  /** sha256(canonical(identity)). */
  datatype SnapshotId = SnapshotId(identity: Identity)

  datatype Key = Key(destination: Destination, snapshot: SnapshotId, path: Path)

  datatype FileRecord = FileRecord(info: FileInfo, key: Key, version: Version)

  datatype Manifest = Manifest(
    snapshot: SnapshotId, batch: string, destination: Destination,
    files: seq<FileRecord>, observations: string)

  datatype Plan = Plan(destination: Destination, batch: string, objects: seq<FrozenObject>, limits: Limits)

  /** What the store returns for one object: content plus the version the service gave it. */
  datatype Stored = Stored(content: Content, version: Version)

  /** Deterministic functions of bytes that the protocol calls: the length of a
      canonical manifest, the observations the frozen reader extracts (None when
      it refuses the files) and the declared Parquet expansion. */
  datatype Codec = Codec(
    manifestSize: Manifest -> nat,
    observe: seq<FrozenObject> -> Option<string>,
    expansion: seq<FrozenObject> -> nat)

  const JSON_LIMIT: nat := 4 * 1024 * 1024

  const FIXED_FILES: set<Path> := {CompleteMarker, RecordsReport, NormalizationReport, ObservationsTable, PackagesTable}

  predicate IsHash(value: string) {
    |value| == 64 && forall c | c in value :: '0' <= c <= '9' || 'a' <= c <= 'f'
  }

  predicate MaterialPath(path: Path) {
    match path
    case RawRecord(sha) => IsHash(sha)
    case RawSpdx(sha) => IsHash(sha)
    case ManifestFile => false
    case Unlisted(_) => false
    case _ => true
  }

  function Rank(path: Path): nat {
    match path
    case ObservationsTable => 0
    case PackagesTable => 1
    case CompleteMarker => 2
    case ManifestFile => 3
    case RawRecord(_) => 4
    case RawSpdx(_) => 5
    case NormalizationReport => 6
    case RecordsReport => 7
    case Unlisted(_) => 8
  }

  function PathText(path: Path): string {
    match path
    case ObservationsTable => "analytics/sbom_" + ("observations" + "/part-00000.parquet")
    case PackagesTable => "analytics/sbom_" + ("packages" + "/part-00000.parquet")
    case CompleteMarker => "complete.json"
    case ManifestFile => "ingestion-manifest.json"
    case RawRecord(sha) => "raw/records/sha256=" + sha + "/record.json"
    case RawSpdx(sha) => "raw/spdx/sha256=" + sha + "/document.spdx.json"
    case NormalizationReport => "reports/" + "normalization.json"
    case RecordsReport => "reports/" + "records.json"
    case Unlisted(text) => text
  }

  /** The order of the path texts, in which plans are sorted and the service lists keys. An
      `Unlisted` path is any other text; where the type lets it repeat a known one, the rank decides. */
  predicate Before(p: Path, q: Path) {
    Less(PathText(p), PathText(q)) || (PathText(p) == PathText(q) && Rank(p) < Rank(q))
  }

  lemma Framed(head: string, x: string, y: string, tail: string)
    requires head + x + tail == head + y + tail
    ensures x == y
  {
    assert |x| == |y|;
    assert (head + x + tail)[|head|..|head| + |x|] == x && (head + y + tail)[|head|..|head| + |y|] == y;
  }

  lemma TextAndRank(p: Path, q: Path)
    requires PathText(p) == PathText(q) && Rank(p) == Rank(q)
    ensures p == q
  {
    match p
    case RawRecord(sha) => Framed("raw/records/sha256=", sha, q.sha, "/record.json");
    case RawSpdx(sha) => Framed("raw/spdx/sha256=", sha, q.sha, "/document.spdx.json");
    case _ =>
  }

  lemma BeforeTotal(p: Path, q: Path)
    ensures p == q || Before(p, q) || Before(q, p)
    ensures !Before(p, p)
  {
    hide PathText, Rank;
    LessIrreflexive(PathText(p));
    LessTotal(PathText(p), PathText(q));
    if PathText(p) == PathText(q) && Rank(p) == Rank(q) {
      TextAndRank(p, q);
    }
  }

  lemma BeforeTransitive(p: Path, q: Path, r: Path)
    requires Before(p, q) && Before(q, r)
    ensures Before(p, r)
  {
    hide PathText, Rank;
    if Less(PathText(p), PathText(q)) && Less(PathText(q), PathText(r)) {
      LessTransitive(PathText(p), PathText(q), PathText(r));
    }
  }

  function Size(codec: Codec, body: Body): nat {
    match body
    case Raw(data) => |data|
    case Canonical(doc) => codec.manifestSize(doc)
  }

  function PayloadSize(body: Body): nat {
    if body.Raw? then |body.data| else 0
  }

  function TotalSize(objects: seq<FrozenObject>): nat {
    if objects == [] then 0 else PayloadSize(objects[0].content.body) + TotalSize(objects[1..])
  }

  function ContentTypeOf(path: Path): ContentType {
    if path.ObservationsTable? || path.PackagesTable? then Parquet else Json
  }

  function ObjectBytes(path: Path, body: Body, batch: string): FrozenObject {
    FrozenObject(path, Content(body, ContentTypeOf(path), Standard(batch, Sha256(body))))
  }

  function Inventory(item: FrozenObject): FileInfo {
    FileInfo(item.path, PayloadSize(item.content.body), Sha256(item.content.body),
             item.content.contentType, item.content.metadata)
  }

  function Inventories(objects: seq<FrozenObject>): (r: seq<FileInfo>)
    ensures |r| == |objects|
    ensures forall i :: 0 <= i < |objects| ==> r[i] == Inventory(objects[i])
  {
    if objects == [] then [] else [Inventory(objects[0])] + Inventories(objects[1..])
  }

  /** A payload object exactly as `object_bytes` builds it for this batch. */
  predicate Payload(o: FrozenObject, batch: string) {
    o.content.body.Raw? && o == ObjectBytes(o.path, o.content.body, batch)
  }

  predicate Payloads(objects: seq<FrozenObject>, batch: string) {
    forall i :: 0 <= i < |objects| ==> Payload(objects[i], batch)
  }

  predicate WithinObjectLimit(objects: seq<FrozenObject>, limit: nat) {
    forall i :: 0 <= i < |objects| ==> PayloadSize(objects[i].content.body) <= limit
  }

  predicate DistinctPaths(objects: seq<FrozenObject>) {
    && (forall i, j :: 0 <= i < j < |objects| ==> objects[i].path != objects[j].path)
    && (forall i :: 0 <= i < |objects| ==> objects[i].path != ManifestFile)
  }

  /** What `SnapshotPlan.__post_init__` and `FrozenObject.__post_init__` accept. */
  predicate ValidPlan(plan: Plan) {
    && IsHash(plan.batch)
    && Payloads(plan.objects, plan.batch)
    && OrderedMaterial(plan.objects)
    && WithinObjectLimit(plan.objects, plan.limits.objectBytes)
    && |plan.objects| + 1 <= plan.limits.objects
    && TotalSize(plan.objects) <= plan.limits.snapshotBytes
  }

  /** Material paths in strictly ascending order, with the five fixed files among them. */
  predicate OrderedMaterial(objects: seq<FrozenObject>) {
    && (forall i, j :: 0 <= i < j < |objects| ==> Ascends(objects, i, j))
    && (forall name | name in FIXED_FILES :: Contains(objects, name))
    && (forall i :: 0 <= i < |objects| ==> MaterialPath(objects[i].path))
  }

  predicate Ascends(objects: seq<FrozenObject>, i: nat, j: nat)
    requires i < |objects| && j < |objects|
  {
    Before(objects[i].path, objects[j].path)
  }

  predicate Contains(objects: seq<FrozenObject>, path: Path) {
    exists i :: 0 <= i < |objects| && objects[i].path == path
  }

  function IdOf(plan: Plan): SnapshotId {
    SnapshotId(Identity(plan.batch, plan.destination, Inventories(plan.objects)))
  }

  function KeyOf(plan: Plan, path: Path): Key {
    Key(plan.destination, IdOf(plan), path)
  }

  /** The snapshot identifier determines destination, batch and every object. */
  lemma SnapshotIdDeterminesContent(a: Plan, b: Plan)
    requires Payloads(a.objects, a.batch) && Payloads(b.objects, b.batch)
    requires IdOf(a) == IdOf(b)
    ensures a.destination == b.destination && a.batch == b.batch && a.objects == b.objects
  {
    var x, y := Inventories(a.objects), Inventories(b.objects);
    forall i | 0 <= i < |a.objects|
      ensures a.objects[i] == b.objects[i]
    {
      assert x[i] == Inventory(a.objects[i]) && y[i] == Inventory(b.objects[i]);
      assert Payload(a.objects[i], a.batch) && Payload(b.objects[i], b.batch);
    }
  }

  lemma PlanPathsDistinct(objects: seq<FrozenObject>)
    requires OrderedMaterial(objects)
    ensures DistinctPaths(objects)
  {
    hide Before;
    forall i, j | 0 <= i < j < |objects|
      ensures objects[i].path != objects[j].path
    {
      assert Ascends(objects, i, j);
      BeforeTotal(objects[i].path, objects[i].path);
    }
  }
}
