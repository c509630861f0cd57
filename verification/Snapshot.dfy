/** The store calls of `s3_ingestion.py` and the publication and read-back of
    `snapshot.py`, written as programs over the log of their own exchanges with
    the service. A program either needs its next call answered (Need), has
    stopped with an error, or has a value and the part of the log it did not use. */
module Snapshot {
  import opened Common
  import opened SnapshotTypes
  import opened Listing

  datatype Call =
    | Fetch(key: Key, version: Version)
    | Put(key: Key, content: Content)
    | ListPage(destination: Destination, snapshot: SnapshotId, size: pos, after: Option<Token>)

  /** The outcomes the adapter tells apart. `Unclear` is a timeout, a lost
      connection or a 5xx: the write may or may not have happened. */
  datatype Reply =
    | Found(stored: Stored)
    | Absent
    | Created(version: Version)
    | Precondition412
    | Conflict409
    | Unclear
    | OnePage(page: Page)
    | Failed

  datatype Exchange = Exchange(call: Call, reply: Reply)

  datatype Code =
    | TransportError | ReadSizeLimit | VersionUnavailable | VersionDiffers | InvalidVersion
    | ReadbackMissing | ContentConflict | ConditionalRetryExhausted | WriteOutcomeUnknown
    | InvalidPutRequest | TransportLimitExceeded | DestinationNotAuthorized | BatchInvalid
    | ParquetExpansionLimit | ManifestLimit | RemoteFileSetDiffers | LatestVersionDiffers
    | SnapshotPartialOrMissing | ManifestInvalid | WrongManifest | ManifestFileLimit
    | ManifestPathDiffers | ManifestSizeLimit | ManifestBytesDiffer | InvalidPlan | SnapshotIdDiffers
    | InvalidList | InvalidListToken | ListLimit

  datatype Out<+T> =
    | Need(call: Call)
    | Stop(code: Code)
    | Got(value: T, rest: seq<Exchange>)
    | Astray                              // the log answers another call
  {
    predicate IsFailure() { !Got? }

    function PropagateFailure<U>(): Out<U>
      requires IsFailure()
    {
      match this
      case Need(call) => Need(call)
      case Stop(code) => Stop(code)
      case _ => Astray
    }

    function Extract(): (T, seq<Exchange>)
      requires !IsFailure()
    {
      (value, rest)
    }
  }

  datatype Adapter = Adapter(destination: Destination, limits: Limits, codec: Codec)

  type Versions = map<Path, Version>

  datatype Status = SnapshotCreated | AlreadyPresentIdentical

  /** `VerifiedSnapshot`: the rebuilt objects and the manifest they were read through. */
  datatype Verified = Verified(plan: Plan, manifest: Content, manifestVersion: Version)

  predicate ValidVersion(version: Version) {
    version.Some? ==> 0 < |version.value| <= 1024
  }

  predicate Covers(versions: Versions, plan: Plan) {
    forall i :: 0 <= i < |plan.objects| ==> plan.objects[i].path in versions
  }

  /** What a program leaves of its log is an end of it. */
  predicate Suffix(rest: seq<Exchange>, log: seq<Exchange>) {
    |rest| <= |log| && rest == log[|log| - |rest|..]
  }

  lemma SuffixTransitive(a: seq<Exchange>, b: seq<Exchange>, c: seq<Exchange>)
    requires Suffix(a, b) && Suffix(b, c)
    ensures |a| <= |c| && Suffix(a, c)
  {
  }

  function Ask(call: Call, log: seq<Exchange>): (out: Out<Reply>)
    ensures out.Got? ==> |out.rest| <= |log| && Suffix(out.rest, log)
  {
    if log == [] then Need(call)
    else if log[0].call != call then Astray
    else Got(log[0].reply, log[1..])
  }

  /** `S3Adapter.get`: None only for an absent key read without a version. */
  function Get(a: Adapter, key: Key, version: Version, log: seq<Exchange>): (out: Out<Option<Stored>>)
    ensures out.Got? ==> |out.rest| <= |log| && Suffix(out.rest, log)
  {
    var (reply, rest) :- Ask(Fetch(key, version), log);
    match reply
    case Found(stored) =>
      if a.limits.objectBytes < Size(a.codec, stored.content.body) then Stop(ReadSizeLimit)
      else if !ValidVersion(stored.version) then Stop(InvalidVersion)
      else if version.Some? && stored.version != version then Stop(VersionDiffers)
      else Got(Some(stored), rest)
    case Absent => if version.Some? then Stop(VersionUnavailable) else Got(None, rest)
    case _ => Stop(TransportError)
  }

  /** `compare`: the stored bytes, content type and metadata are the requested ones. */
  function Compare(request: Content, observed: Option<Stored>): Option<Code> {
    if observed.None? then Some(ReadbackMissing)
    else if observed.value.content != request then Some(ContentConflict)
    else None
  }

  function GetSame(a: Adapter, key: Key, version: Version, request: Content, log: seq<Exchange>): (out: Out<Stored>)
    ensures out.Got? ==> |out.rest| <= |log| && Suffix(out.rest, log)
  {
    var (observed, rest) :- Get(a, key, version, log);
    match Compare(request, observed)
    case Some(code) => Stop(code)
    case None => Got(observed.value, rest)
  }

  /** `S3Adapter.create` from its `attempt`-th conditional PUT: whether this call
      created the object, and the version observed on read-back. */
  function Create(a: Adapter, key: Key, request: Content, attempt: nat, log: seq<Exchange>): (out: Out<(bool, Version)>)
    requires attempt < a.limits.putAttempts
    ensures out.Got? ==> |out.rest| <= |log| && Suffix(out.rest, log)
    decreases a.limits.putAttempts - attempt
  {
    var (reply, rest) :- Ask(Put(key, request), log);
    match reply
    case Conflict409 =>
      if attempt + 1 < a.limits.putAttempts then Create(a, key, request, attempt + 1, rest)
      else Stop(ConditionalRetryExhausted)
    case Precondition412 =>
      var (observed, rest') :- GetSame(a, key, None, request, rest);
      Got((false, observed.version), rest')
    case Unclear => Reconcile(a, key, request, rest)
    case Created(version) =>
      if !ValidVersion(version) then Stop(InvalidVersion)
      else
        var (observed, rest') :- GetSame(a, key, version, request, rest);
        if observed.version != version then Stop(VersionDiffers) else Got((true, version), rest')
    case _ => Stop(TransportError)
  }

  /** A lost response is resolved by reading, never by writing again. */
  function Reconcile(a: Adapter, key: Key, request: Content, log: seq<Exchange>): (out: Out<(bool, Version)>)
    ensures out.Got? ==> |out.rest| <= |log| && Suffix(out.rest, log)
  {
    match Get(a, key, None, log)
    case Need(call) => Need(call)
    case Astray => Astray
    case Stop(_) => Stop(WriteOutcomeUnknown)
    case Got(observed, rest) =>
      if observed.None? then Stop(WriteOutcomeUnknown)
      else match Compare(request, observed)
        case Some(code) => Stop(code)
        case None => Got((false, observed.value.version), rest)
  }

  /** The request check in front of the retry loop. */
  function CreateChecked(a: Adapter, key: Key, request: Content, log: seq<Exchange>): (out: Out<(bool, Version)>)
    ensures out.Got? ==> |out.rest| <= |log| && Suffix(out.rest, log)
  {
    if a.limits.objectBytes < Size(a.codec, request.body) then Stop(InvalidPutRequest)
    else Create(a, key, request, 0, log)
  }

  /** The payload loop of `publish_snapshot`, from object `i`. */
  function CreateAll(a: Adapter, plan: Plan, i: nat, versions: Versions, log: seq<Exchange>): (out: Out<Versions>)
    requires i <= |plan.objects|
    ensures out.Got? ==> |out.rest| <= |log| && Suffix(out.rest, log)
    decreases |plan.objects| - i
  {
    if i == |plan.objects| then Got(versions, log)
    else
      var o := plan.objects[i];
      var (made, rest) :- CreateChecked(a, KeyOf(plan, o.path), o.content, log);
      CreateAll(a, plan, i + 1, versions[o.path := made.1], rest)
  }

  /** One step of `_read_files`: by version, then the latest when versioned. */
  function ReadFile(a: Adapter, key: Key, request: Content, version: Version, log: seq<Exchange>): (out: Out<()>)
    ensures out.Got? ==> |out.rest| <= |log| && Suffix(out.rest, log)
  {
    var (observed, rest) :- GetSame(a, key, version, request, log);
    if observed.version != version then Stop(VersionDiffers)
    else if version.None? then Got((), rest)
    else
      var (latest, rest') :- GetSame(a, key, None, request, rest);
      if latest.version != version then Stop(LatestVersionDiffers) else Got((), rest')
  }

  function ReadFiles(a: Adapter, plan: Plan, i: nat, versions: Versions, log: seq<Exchange>): (out: Out<()>)
    requires i <= |plan.objects|
    requires Covers(versions, plan)
    ensures out.Got? ==> |out.rest| <= |log| && Suffix(out.rest, log)
    decreases |plan.objects| - i
  {
    if i == |plan.objects| then Got((), log)
    else
      var o := plan.objects[i];
      var (_, rest) :- ReadFile(a, KeyOf(plan, o.path), o.content, versions[o.path], log);
      ReadFiles(a, plan, i + 1, versions, rest)
  }

  function PayloadSizes(objects: seq<FrozenObject>): map<Path, nat> {
    if objects == [] then map[]
    else PayloadSizes(objects[1..])[objects[0].path := PayloadSize(objects[0].content.body)]
  }

  predicate FreshToken(token: Token, seen: set<Token>) {
    UsableToken(token) && token !in seen
  }

  /** `list_snapshot` from its `k`-th page, behind the token of the page before. */
  function ListPages(a: Adapter, id: SnapshotId, k: nat, after: Option<Token>, seen: set<Token>, listed: map<Path, nat>,
                     log: seq<Exchange>): (out: Out<map<Path, nat>>)
    requires k <= a.limits.pages
    ensures out.Got? ==> |out.rest| <= |log| && Suffix(out.rest, log)
    decreases a.limits.pages - k
  {
    if k == a.limits.pages then Stop(ListLimit)
    else
      var (reply, rest) :- Ask(ListPage(a.destination, id, a.limits.pageSize, after), log);
      if !reply.OnePage? then Stop(TransportError)
      else
        var page := reply.page;
        var more := AddEntries(page.entries, listed, a.limits);
        if a.limits.pageSize < |page.entries| || more.None? then Stop(InvalidList)
        else if !page.truncated then Got(more.value, rest)
        else if !FreshToken(page.token, seen) then Stop(InvalidListToken)
        else ListPages(a, id, k + 1, Some(page.token), seen + {page.token}, more.value, rest)
  }

  /** `list_snapshot`. */
  function ListSnapshot(a: Adapter, id: SnapshotId, log: seq<Exchange>): (out: Out<map<Path, nat>>)
    ensures out.Got? ==> |out.rest| <= |log| && Suffix(out.rest, log)
  {
    ListPages(a, id, 0, None, {}, map[], log)
  }

  /** The listing `_inventory` demands: with a manifest it must hold it too, without one a
      manifest another writer already finished is ignored. */
  predicate Inventoried(a: Adapter, plan: Plan, manifest: Option<Content>, sizes: map<Path, nat>) {
    match manifest
    case Some(content) => sizes == PayloadSizes(plan.objects)[ManifestFile := Size(a.codec, content.body)]
    case None => sizes - {ManifestFile} == PayloadSizes(plan.objects)
  }

  /** `_inventory`. */
  function CheckInventory(a: Adapter, plan: Plan, manifest: Option<Content>, log: seq<Exchange>): (out: Out<()>)
    ensures out.Got? ==> |out.rest| <= |log| && Suffix(out.rest, log)
  {
    var (sizes, rest) :- ListSnapshot(a, IdOf(plan), log);
    if Inventoried(a, plan, manifest, sizes) then Got((), rest) else Stop(RemoteFileSetDiffers)
  }

  function Records(plan: Plan, versions: Versions): (r: seq<FileRecord>)
    requires Covers(versions, plan)
    ensures |r| == |plan.objects|
  {
    seq(|plan.objects|, i requires 0 <= i < |plan.objects| =>
      FileRecord(Inventory(plan.objects[i]), KeyOf(plan, plan.objects[i].path), versions[plan.objects[i].path]))
  }

  /** `_manifest` before its size check. */
  function ManifestOf(plan: Plan, versions: Versions, observations: string): Content
    requires Covers(versions, plan)
  {
    var doc := Manifest(IdOf(plan), plan.batch, plan.destination, Records(plan, versions), observations);
    ObjectBytes(ManifestFile, Canonical(doc), plan.batch).content
  }

  predicate ManifestFits(codec: Codec, limits: Limits, objects: seq<FrozenObject>, manifest: Content) {
    var size := Size(codec, manifest.body);
    size <= JSON_LIMIT && size <= limits.objectBytes && size + TotalSize(objects) <= limits.snapshotBytes
  }

  /** `_validate_frozen`: the files are readable and expand within the budget. */
  function Validate(codec: Codec, objects: seq<FrozenObject>, budget: nat): Out<string> {
    if budget < codec.expansion(objects) then Stop(ParquetExpansionLimit)
    else match codec.observe(objects)
      case None => Stop(BatchInvalid)
      case Some(observations) => Got(observations, [])
  }

  /** One record of the manifest: checked, fetched by version, compared with its listing. */
  function FetchFile(a: Adapter, id: SnapshotId, batch: string, record: FileRecord, files: seq<FrozenObject>, total: nat,
                     log: seq<Exchange>): (out: Out<FrozenObject>)
    ensures out.Got? ==> |out.rest| <= |log| && Suffix(out.rest, log)
  {
    var path := record.info.path;
    var key := Key(a.destination, id, path);
    if !MaterialPath(path) || Contains(files, path) || record.key != key then Stop(ManifestPathDiffers)
    else if a.limits.objectBytes < record.info.size
         || a.limits.snapshotBytes < total + record.info.size then Stop(ManifestSizeLimit)
    else if !ValidVersion(record.version) then Stop(InvalidVersion)
    else
      var (observed, rest) :- Get(a, key, record.version, log);
      if observed.None? then Stop(ReadbackMissing)
      else
        var stored := observed.value;
        var item := ObjectBytes(path, stored.content.body, batch);
        if !stored.content.body.Raw? || Inventory(item) != record.info then Stop(ManifestBytesDiffer)
        else if stored.content != item.content then Stop(ContentConflict)
        else if stored.version != record.version then Stop(VersionDiffers)
        else Got(item, rest)
  }

  /** The manifest loop of `read_snapshot`, from record `i`. */
  function FetchFiles(a: Adapter, id: SnapshotId, doc: Manifest, i: nat, files: seq<FrozenObject>, total: nat,
                      log: seq<Exchange>): (out: Out<seq<FrozenObject>>)
    requires i <= |doc.files|
    ensures out.Got? ==> |out.rest| <= |log| && Suffix(out.rest, log)
    decreases |doc.files| - i
  {
    if i == |doc.files| then Got(files, log)
    else
      var (item, rest) :- FetchFile(a, id, doc.batch, doc.files[i], files, total, log);
      FetchFiles(a, id, doc, i + 1, files + [item], total + doc.files[i].info.size, rest)
  }

  function VersionsOf(files: seq<FileRecord>): (r: Versions)
    ensures forall f | f in files :: f.info.path in r
  {
    if files == [] then map[] else
      var last := files[|files| - 1];
      VersionsOf(files[..|files| - 1])[last.info.path := last.version]
  }

  /** `read_snapshot`. */
  function ReadSnapshot(a: Adapter, id: SnapshotId, log: seq<Exchange>): (out: Out<Verified>)
    ensures out.Got? ==> |out.rest| <= |log| && Suffix(out.rest, log)
  {
    var (found, rest) :- Get(a, Key(a.destination, id, ManifestFile), None, log);
    if found.None? then Stop(SnapshotPartialOrMissing)
    else
      var marker := found.value;
      if !marker.content.body.Canonical? || JSON_LIMIT < Size(a.codec, marker.content.body) then Stop(ManifestInvalid)
      else Rebuild(a, id, marker, rest)
  }

  /** The files the marker lists, as a plan whose identifier must be the one asked for. */
  function Rebuild(a: Adapter, id: SnapshotId, marker: Stored, log: seq<Exchange>): (out: Out<Verified>)
    requires marker.content.body.Canonical?
    ensures out.Got? ==> |out.rest| <= |log| && Suffix(out.rest, log)
  {
    var doc := marker.content.body.doc;
    if doc.snapshot != id then Stop(WrongManifest)
    else if doc.destination != a.destination then Stop(DestinationNotAuthorized)
    else if !IsHash(doc.batch) then Stop(ManifestInvalid)
    else if !(0 < |doc.files| < a.limits.objects) then Stop(ManifestFileLimit)
    else
      var (files, rest) :- FetchFiles(a, id, doc, 0, [], Size(a.codec, marker.content.body), log);
      var plan := Plan(a.destination, doc.batch, files, a.limits);
      if !ValidPlan(plan) then Stop(InvalidPlan)
      else if IdOf(plan) != id then Stop(SnapshotIdDiffers)
      else Recheck(a, plan, marker, rest)
  }

  /** The second half of `read_snapshot`: rebuild the manifest and demand the stored one. */
  function Recheck(a: Adapter, plan: Plan, marker: Stored, log: seq<Exchange>): (out: Out<Verified>)
    requires marker.content.body.Canonical?
    ensures out.Got? ==> |out.rest| <= |log| && Suffix(out.rest, log)
  {
    var versions := VersionsOf(marker.content.body.doc.files);
    match Validate(a.codec, plan.objects, a.limits.expandedBytes)
    case Got(observations, _) =>
      if !Covers(versions, plan) then Stop(ManifestInvalid)
      else
        var request := ManifestOf(plan, versions, observations);
        if !ManifestFits(a.codec, a.limits, plan.objects, request) then Stop(ManifestLimit)
        else if marker.content != request then Stop(ContentConflict)
        else ReadBack(a, plan, versions, marker, log)
    case Stop(code) => Stop(code)
    case _ => Astray
  }

  /** Everything again: the files, the manifest by version and latest, the exact inventory. */
  function ReadBack(a: Adapter, plan: Plan, versions: Versions, marker: Stored, log: seq<Exchange>): (out: Out<Verified>)
    requires Covers(versions, plan)
    ensures out.Got? ==> |out.rest| <= |log| && Suffix(out.rest, log)
  {
    hide ReadFiles, ConfirmMarker, CheckInventory, KeyOf, Covers, Suffix;
    var (_, rest) :- ReadFiles(a, plan, 0, versions, log);
    var (_, rest1) :- ConfirmMarker(a, KeyOf(plan, ManifestFile), marker, rest);
    SuffixTransitive(rest1, rest, log);
    match CheckInventory(a, plan, Some(marker.content), rest1)
    case Need(call) => Need(call)
    case Stop(code) => Stop(code)
    case Astray => Astray
    case Got(_, rest2) =>
      SuffixTransitive(rest2, rest1, log);
      Got(Verified(plan, marker.content, marker.version), rest2)
  }

  function ConfirmMarker(a: Adapter, key: Key, marker: Stored, log: seq<Exchange>): (out: Out<()>)
    ensures out.Got? ==> |out.rest| <= |log| && Suffix(out.rest, log)
  {
    var (specific, rest) :- GetSame(a, key, marker.version, marker.content, log);
    var (latest, rest') :- GetSame(a, key, None, marker.content, rest);
    if specific.version == latest.version == marker.version then Got((), rest') else Stop(LatestVersionDiffers)
  }

  /** `publish_snapshot`: payload first, everything read back, the manifest last. */
  function Publish(a: Adapter, plan: Plan, log: seq<Exchange>): (out: Out<Status>)
    ensures out.Got? ==> |out.rest| <= |log| && Suffix(out.rest, log)
  {
    hide Get, ReadSnapshot, Deposit, Validate, TotalSize, WithinObjectLimit, KeyOf, IdOf;
    if plan.destination != a.destination then Stop(DestinationNotAuthorized)
    else if a.limits.objects < |plan.objects| + 1 || a.limits.snapshotBytes < TotalSize(plan.objects)
         || !WithinObjectLimit(plan.objects, a.limits.objectBytes) then Stop(TransportLimitExceeded)
    else match Validate(a.codec, plan.objects, Min(plan.limits.expandedBytes, a.limits.expandedBytes))
      case Got(observations, _) =>
        var (existing, rest) :- Get(a, KeyOf(plan, ManifestFile), None, log);
        if existing.Some? then
          var (verified, rest1) :- ReadSnapshot(a, IdOf(plan), rest);
          if verified.plan.objects != plan.objects then Stop(ContentConflict)
          else Got(AlreadyPresentIdentical, rest1)
        else Deposit(a, plan, observations, rest)
      case Stop(code) => Stop(code)
      case _ => Astray
  }

  /** The writing branch of `publish_snapshot`. */
  function Deposit(a: Adapter, plan: Plan, observations: string, log: seq<Exchange>): (out: Out<Status>)
    ensures out.Got? ==> |out.rest| <= |log| && Suffix(out.rest, log)
  {
    var (versions, rest) :- CreateAll(a, plan, 0, map[], log);
    if !Covers(versions, plan) then Astray
    else
      var (_, rest1) :- ReadFiles(a, plan, 0, versions, rest);
      var (_, rest2) :- CheckInventory(a, plan, None, rest1);
      Seal(a, plan, ManifestOf(plan, versions, observations), rest2)
  }

  /** The marker, last, and the read-back of the whole snapshot. */
  function Seal(a: Adapter, plan: Plan, manifest: Content, log: seq<Exchange>): (out: Out<Status>)
    ensures out.Got? ==> |out.rest| <= |log| && Suffix(out.rest, log)
  {
    if !ManifestFits(a.codec, plan.limits, plan.objects, manifest) then Stop(ManifestLimit)
    else
      var (made, rest) :- CreateChecked(a, KeyOf(plan, ManifestFile), manifest, log);
      var (verified, rest1) :- ReadSnapshot(a, IdOf(plan), rest);
      if verified.plan.objects != plan.objects then Stop(ContentConflict)
      else Got(if made.0 then SnapshotCreated else AlreadyPresentIdentical, rest1)
  }
}
