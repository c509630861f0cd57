/** Any number of publishers and readers of `snapshot.py` interleaved call by call
    over one create-once store, with lost, dropped, refused and denied requests,
    invented listings, foreign writers and crashes (a client that is simply never
    scheduled again; its retry joins as a new client). */
module Fleet {
  import opened Common
  import opened SnapshotTypes
  import opened Listing
  import opened Snapshot
  import opened SnapshotLog
  import opened S3Adapter

  type Bucket = map<Key, Stored>

  /** What the service does with one request. `Answered` fills pages in the order of the keys;
      `Paged` answers a listing with any page at all. */
  datatype Fate = Answered | Lost | Dropped | Conflicting | Denied | Paged(page: Page)

  datatype Task = Publishes(plan: Plan) | Reads(snapshot: SnapshotId)

  /** Where in its log a client's latest listing began, what the store held then, and whether
      no page of it has skipped a stored key. */
  datatype Watch = Watch(at: nat, store: Bucket, truthful: bool)

  datatype Client = Client(adapter: Adapter, task: Task, log: seq<Exchange>, watch: Option<Watch>)

  datatype State = State(codec: Codec, bucket: Bucket, clients: map<nat, Client>)

  datatype Event =
    | Serves(who: nat, fate: Fate, version: Version)
    | Joins(who: nat, task: Task, destination: Destination, limits: Limits)
    | Foreign(key: Key, stored: Stored)

  function Listed(codec: Codec, b: Bucket, destination: Destination, id: SnapshotId): map<Path, nat> {
    map key | key in b && key.destination == destination && key.snapshot == id
      :: key.path := Size(codec, b[key].content.body)
  }

  function PutIfAbsent(b: Bucket, key: Key, stored: Stored): Bucket {
    if key in b then b else b[key := stored]
  }

  ghost function Serve(codec: Codec, b: Bucket, call: Call, fate: Fate, version: Version): (Bucket, Reply) {
    match call
    case Fetch(key, wanted) =>
      (b, if fate != Answered then Failed
          else if key !in b || (wanted.Some? && b[key].version != wanted) then Absent
          else Found(b[key]))
    case Put(key, content) =>
      (match fate
       case Answered => (PutIfAbsent(b, key, Stored(content, version)),
                         if key in b then Precondition412 else Created(version))
       case Lost => (PutIfAbsent(b, key, Stored(content, version)), Unclear)
       case Dropped => (b, Unclear)
       case Conflicting => (b, Conflict409)
       case _ => (b, Failed))
    case ListPage(destination, id, size, after) =>
      (b, match fate
          case Answered =>
            if after.Some? && after.value.Opaque? then Failed
            else OnePage(NextPage(Listed(codec, b, destination, id), after, size))
          case Paged(page) => OnePage(page)
          case _ => Failed)
  }

  /** A page answered from the store: no key between its cursors is missing. */
  predicate Honest(codec: Codec, b: Bucket, x: Exchange) {
    x.call.ListPage? && x.reply.OnePage?
    && SkipsNothing(Listed(codec, b, x.call.destination, x.call.snapshot), x.call.after, x.reply.page)
  }

  predicate Opens(x: Exchange) {
    x.call.ListPage? && x.call.after.None?
  }

  function Watched(codec: Codec, b: Bucket, c: Client, x: Exchange): Option<Watch> {
    if Opens(x) then Some(Watch(|c.log|, b, Honest(codec, b, x)))
    else if x.call.ListPage? && c.watch.Some?
      then Some(c.watch.value.(truthful := c.watch.value.truthful && Honest(codec, b, x)))
    else c.watch
  }

  function Pending(c: Client): Option<Call> {
    match c.task
    case Publishes(plan) => (match Publish(c.adapter, plan, c.log) case Need(call) => Some(call) case _ => None)
    case Reads(id) => (match ReadSnapshot(c.adapter, id, c.log) case Need(call) => Some(call) case _ => None)
  }

  /** The service answers `call` of client `who`. */
  ghost function Exchanged(s: State, who: nat, call: Call, fate: Fate, version: Version): State
    requires who in s.clients
  {
    var c := s.clients[who];
    var (b, reply) := Serve(s.codec, s.bucket, call, fate, version);
    var x := Exchange(call, reply);
    s.(bucket := b, clients := s.clients[who := Client(c.adapter, c.task, c.log + [x], Watched(s.codec, s.bucket, c, x))])
  }

  ghost function Apply(s: State, e: Event): State {
    match e
    case Serves(who, fate, version) =>
      if who !in s.clients || Pending(s.clients[who]).None? then s
      else
        Exchanged(s, who, Pending(s.clients[who]).value, fate, version)
    case Joins(who, task, destination, limits) =>
      if who in s.clients || (task.Publishes? && !ValidPlan(task.plan)) then s
      else s.(clients := s.clients[who := Client(Adapter(destination, limits, s.codec), task, [], None)])
    case Foreign(key, stored) =>
      if key.path == ManifestFile then s else s.(bucket := PutIfAbsent(s.bucket, key, stored))
  }

  ghost function Run(s: State, events: seq<Event>): State {
    if events == [] then s else Apply(Run(s, events[..|events| - 1]), events[|events| - 1])
  }

  // ---------------------------------------------------------------- invariants

  ghost predicate Grows(b: Bucket, b': Bucket) {
    forall key | key in b :: key in b' && b'[key] == b[key]
  }

  /** What an answered exchange keeps saying about every later bucket. */
  predicate Agrees(b: Bucket, x: Exchange) {
    match (x.call, x.reply)
    case (Fetch(key, _), Found(stored)) => key in b && b[key] == stored
    case (Put(key, content), Created(version)) => key in b && b[key] == Stored(content, version)
    case _ => true
  }

  predicate Consistent(b: Bucket, log: seq<Exchange>) {
    forall i :: 0 <= i < |log| ==> Agrees(b, log[i])
  }

  /** Every object of the plan is stored with exactly its content, at these versions. */
  predicate Held(b: Bucket, plan: Plan, versions: Versions) {
    forall i :: 0 <= i < |plan.objects| ==> HeldAt(b, plan, plan.objects[i], versions)
  }

  predicate HeldAt(b: Bucket, plan: Plan, o: FrozenObject, versions: Versions) {
    && o.path in versions
    && KeyOf(plan, o.path) in b
    && b[KeyOf(plan, o.path)] == Stored(o.content, versions[o.path])
  }

  /** The stored object is the one the record lists: bytes (by digest), size, type, metadata, version. */
  predicate Describes(record: FileRecord, stored: Stored) {
    && record.info == Inventory(FrozenObject(record.info.path, stored.content))
    && record.version == stored.version
  }

  /** A manifest at `key` lists exactly the files its snapshot identifier names, and
      each of them is in the store as listed. */
  predicate Backed(b: Bucket, key: Key, stored: Stored) {
    && stored.content.body.Canonical?
    && var doc := stored.content.body.doc;
    && doc.snapshot == key.snapshot
    && doc.destination == key.destination
    && |doc.files| == |key.snapshot.identity.files|
    && forall i :: 0 <= i < |doc.files| ==> ListedHere(b, key, doc.files[i], i)
  }

  predicate ListedHere(b: Bucket, key: Key, record: FileRecord, i: nat)
    requires i < |key.snapshot.identity.files|
  {
    && record.info == key.snapshot.identity.files[i]
    && record.key == Key(key.destination, key.snapshot, record.info.path)
    && record.key in b
    && Describes(record, b[record.key])
  }

  predicate Sound(b: Bucket) {
    forall key | key in b && key.path == ManifestFile :: Backed(b, key, b[key])
  }

  ghost predicate ClientOk(codec: Codec, b: Bucket, c: Client) {
    && c.adapter.codec == codec
    && Consistent(b, c.log)
    && (c.task.Publishes? ==> ValidPlan(c.task.plan))
  }

  ghost predicate Inv(s: State) {
    && Sound(s.bucket)
    && forall who | who in s.clients :: ClientOk(s.codec, s.bucket, s.clients[who])
  }

  // ------------------------------------------------- what a program has learnt

  lemma AskTail(b: Bucket, call: Call, log: seq<Exchange>)
    requires Consistent(b, log) && Ask(call, log).Got?
    ensures log != [] && log[0].call == call && Agrees(b, log[0])
    ensures Ask(call, log).value == log[0].reply && Consistent(b, Ask(call, log).rest)
  {
  }

  lemma SuffixConsistent(b: Bucket, rest: seq<Exchange>, log: seq<Exchange>)
    requires Consistent(b, log) && Suffix(rest, log)
    ensures Consistent(b, rest)
  {
    hide Agrees;
  }

  lemma GetLearns(b: Bucket, a: Adapter, key: Key, version: Version, log: seq<Exchange>)
    requires Consistent(b, log) && Get(a, key, version, log).Got?
    ensures Consistent(b, Get(a, key, version, log).rest)
    ensures Get(a, key, version, log).value.Some? ==> key in b && b[key] == Get(a, key, version, log).value.value
  {
    AskTail(b, Fetch(key, version), log);
  }

  lemma {:induction false} CreateLearns(b: Bucket, a: Adapter, key: Key, request: Content, attempt: nat, log: seq<Exchange>)
    requires attempt < a.limits.putAttempts
    requires Consistent(b, log) && Create(a, key, request, attempt, log).Got?
    ensures Consistent(b, Create(a, key, request, attempt, log).rest)
    ensures key in b && b[key] == Stored(request, Create(a, key, request, attempt, log).value.1)
    decreases a.limits.putAttempts - attempt
  {
    AskTail(b, Put(key, request), log);
    var rest := log[1..];
    match log[0].reply
    case Conflict409 => CreateLearns(b, a, key, request, attempt + 1, rest);
    case Precondition412 => GetLearns(b, a, key, None, rest);
    case Unclear => GetLearns(b, a, key, None, rest);
    case Created(version) => GetLearns(b, a, key, version, rest);
  }

  lemma {:induction false} CreateAllLearns(b: Bucket, a: Adapter, plan: Plan, i: nat, versions: Versions, log: seq<Exchange>)
    requires DistinctPaths(plan.objects) && i <= |plan.objects|
    requires Consistent(b, log) && CreateAll(a, plan, i, versions, log).Got?
    requires forall j :: 0 <= j < i ==> HeldAt(b, plan, plan.objects[j], versions)
    ensures Consistent(b, CreateAll(a, plan, i, versions, log).rest)
    ensures Held(b, plan, CreateAll(a, plan, i, versions, log).value)
    decreases |plan.objects| - i
  {
    if i < |plan.objects| {
      var o := plan.objects[i];
      var made := CreateChecked(a, KeyOf(plan, o.path), o.content, log);
      CreateLearns(b, a, KeyOf(plan, o.path), o.content, 0, log);
      CreateAllLearns(b, a, plan, i + 1, versions[o.path := made.value.1], made.rest);
    }
  }

  lemma ReadFileLearns(b: Bucket, a: Adapter, key: Key, request: Content, version: Version, log: seq<Exchange>)
    requires Consistent(b, log) && ReadFile(a, key, request, version, log).Got?
    ensures Consistent(b, ReadFile(a, key, request, version, log).rest)
    ensures key in b && b[key] == Stored(request, version)
  {
    GetLearns(b, a, key, version, log);
    if version.Some? {
      GetLearns(b, a, key, None, GetSame(a, key, version, request, log).rest);
    }
  }

  lemma {:induction false} ReadFilesLearns(b: Bucket, a: Adapter, plan: Plan, i: nat, versions: Versions, log: seq<Exchange>)
    requires i <= |plan.objects| && Covers(versions, plan)
    requires Consistent(b, log) && ReadFiles(a, plan, i, versions, log).Got?
    ensures Consistent(b, ReadFiles(a, plan, i, versions, log).rest)
    ensures forall j :: i <= j < |plan.objects| ==> HeldAt(b, plan, plan.objects[j], versions)
    decreases |plan.objects| - i
  {
    hide ReadFile, Consistent;
    if i < |plan.objects| {
      var o := plan.objects[i];
      ReadFileLearns(b, a, KeyOf(plan, o.path), o.content, versions[o.path], log);
      var rest := ReadFile(a, KeyOf(plan, o.path), o.content, versions[o.path], log).rest;
      ReadFilesLearns(b, a, plan, i + 1, versions, rest);
    }
  }

  // ------------------------------------------------------- completed snapshots

  /** The versions the bucket holds under the snapshot of a plan. */
  function Stamps(b: Bucket, plan: Plan): Versions {
    map key | key in b && key.destination == plan.destination && key.snapshot == IdOf(plan)
      :: key.path := b[key].version
  }

  /** All payload objects as planned, and the one manifest that lists their versions. */
  predicate Complete(codec: Codec, b: Bucket, plan: Plan) {
    && Covers(Stamps(b, plan), plan)
    && Held(b, plan, Stamps(b, plan))
    && KeyOf(plan, ManifestFile) in b
    && codec.observe(plan.objects).Some?
    && b[KeyOf(plan, ManifestFile)].content == ManifestOf(plan, Stamps(b, plan), codec.observe(plan.objects).value)
  }

  lemma HeldStamps(b: Bucket, plan: Plan, versions: Versions)
    requires Held(b, plan, versions)
    ensures Held(b, plan, Stamps(b, plan))
    ensures Covers(versions, plan) && Covers(Stamps(b, plan), plan)
    ensures forall i :: 0 <= i < |plan.objects| ==> Stamps(b, plan)[plan.objects[i].path] == versions[plan.objects[i].path]
  {
    forall i | 0 <= i < |plan.objects|
      ensures HeldAt(b, plan, plan.objects[i], Stamps(b, plan))
      ensures plan.objects[i].path in versions
           && Stamps(b, plan)[plan.objects[i].path] == versions[plan.objects[i].path]
    {
      assert HeldAt(b, plan, plan.objects[i], versions);
      assert KeyOf(plan, plan.objects[i].path) in b;
    }
  }

  lemma {:induction false} PayloadSizesAre(objects: seq<FrozenObject>)
    requires DistinctPaths(objects)
    ensures forall path :: path in PayloadSizes(objects) <==> Contains(objects, path)
    ensures forall i :: 0 <= i < |objects| ==>
              objects[i].path in PayloadSizes(objects)
              && PayloadSizes(objects)[objects[i].path] == PayloadSize(objects[i].content.body)
  {
    if objects != [] {
      PayloadSizesAre(objects[1..]);
      forall path
        ensures Contains(objects, path) <==> path == objects[0].path || Contains(objects[1..], path)
      {
        if Contains(objects[1..], path) {
          var i :| 0 <= i < |objects[1..]| && objects[1..][i].path == path;
          assert objects[i + 1].path == path;
        }
        if Contains(objects, path) {
          var i :| 0 <= i < |objects| && objects[i].path == path;
          assert i > 0 ==> objects[1..][i - 1].path == path;
        }
      }
      forall i | 0 <= i < |objects|
        ensures objects[i].path in PayloadSizes(objects)
        ensures PayloadSizes(objects)[objects[i].path] == PayloadSize(objects[i].content.body)
      {
        if i > 0 {
          assert objects[1..][i - 1] == objects[i];
        }
      }
    }
  }

  lemma ListedAt(codec: Codec, b: Bucket, plan: Plan, path: Path)
    ensures var listed := Listed(codec, b, plan.destination, IdOf(plan));
            && (path in listed <==> KeyOf(plan, path) in b)
            && (path in listed ==> listed[path] == Size(codec, b[KeyOf(plan, path)].content.body))
  {
    var listed := Listed(codec, b, plan.destination, IdOf(plan));
    if KeyOf(plan, path) in b {
      assert KeyOf(plan, path).path in listed;
    }
  }

  lemma HeldIsListed(codec: Codec, b: Bucket, plan: Plan, path: Path)
    requires Payloads(plan.objects, plan.batch) && DistinctPaths(plan.objects) && Held(b, plan, Stamps(b, plan))
    requires path in PayloadSizes(plan.objects)
    ensures KeyOf(plan, path) in b && path != ManifestFile
    ensures Size(codec, b[KeyOf(plan, path)].content.body) == PayloadSizes(plan.objects)[path]
  {
    PayloadSizesAre(plan.objects);
    var i :| 0 <= i < |plan.objects| && plan.objects[i].path == path;
    assert HeldAt(b, plan, plan.objects[i], Stamps(b, plan)) && Payload(plan.objects[i], plan.batch);
  }

  lemma SameVersionsSameManifest(plan: Plan, u: Versions, v: Versions, observations: string)
    requires Covers(u, plan) && Covers(v, plan)
    requires forall i :: 0 <= i < |plan.objects| ==> u[plan.objects[i].path] == v[plan.objects[i].path]
    ensures ManifestOf(plan, u, observations) == ManifestOf(plan, v, observations)
  {
    assert Records(plan, u) == Records(plan, v);
  }

  lemma RecheckLearns(b: Bucket, a: Adapter, plan: Plan, marker: Stored, log: seq<Exchange>)
    requires marker.content.body.Canonical?
    requires KeyOf(plan, ManifestFile) in b && b[KeyOf(plan, ManifestFile)] == marker
    requires Consistent(b, log) && Recheck(a, plan, marker, log).Got?
    ensures Recheck(a, plan, marker, log).value.plan == plan
    ensures Complete(a.codec, b, plan)
  {
    hide ReadFiles, ManifestFits, PayloadSizes, HeldAt;
    var versions := VersionsOf(marker.content.body.doc.files);
    var observations := a.codec.observe(plan.objects).value;
    ReadFilesLearns(b, a, plan, 0, versions, log);
    HeldStamps(b, plan, versions);
    SameVersionsSameManifest(plan, versions, Stamps(b, plan), observations);
  }

  /** Accepting a snapshot proves it complete, and rebuilds the plan its identifier names. */
  lemma ReadSnapshotLearns(b: Bucket, a: Adapter, id: SnapshotId, log: seq<Exchange>)
    requires Consistent(b, log) && ReadSnapshot(a, id, log).Got?
    ensures var plan := ReadSnapshot(a, id, log).value.plan;
            && ValidPlan(plan) && plan.destination == a.destination && IdOf(plan) == id
            && Complete(a.codec, b, plan)
  {
    var markerKey := Key(a.destination, id, ManifestFile);
    GetLearns(b, a, markerKey, None, log);
    var got := Get(a, markerKey, None, log);
    var marker := got.value.value;
    var doc := marker.content.body.doc;
    var total := Size(a.codec, marker.content.body);
    var fetched := FetchFiles(a, id, doc, 0, [], total, got.rest);
    SuffixConsistent(b, fetched.rest, got.rest);
    RecheckLearns(b, a, Plan(a.destination, doc.batch, fetched.value, a.limits), marker, fetched.rest);
  }

  // ------------------------------------------------------------- pending writes

  lemma {:induction false} CreateWrites(a: Adapter, key: Key, request: Content, attempt: nat, log: seq<Exchange>)
    requires attempt < a.limits.putAttempts
    ensures var out := Create(a, key, request, attempt, log);
            out.Need? && out.call.Put? ==> out.call == Put(key, request)
    decreases a.limits.putAttempts - attempt
  {
    if log != [] && log[0] == Exchange(Put(key, request), Conflict409) && attempt + 1 < a.limits.putAttempts {
      CreateWrites(a, key, request, attempt + 1, log[1..]);
    }
  }

  predicate PayloadWrite(plan: Plan, call: Call) {
    exists i :: 0 <= i < |plan.objects| && call == Put(KeyOf(plan, plan.objects[i].path), plan.objects[i].content)
  }

  lemma {:induction false} CreateAllWrites(a: Adapter, plan: Plan, i: nat, versions: Versions, log: seq<Exchange>)
    requires i <= |plan.objects|
    ensures var out := CreateAll(a, plan, i, versions, log);
            out.Need? && out.call.Put? ==> PayloadWrite(plan, out.call)
    decreases |plan.objects| - i
  {
    if i < |plan.objects| {
      var o := plan.objects[i];
      if Size(a.codec, o.content.body) <= a.limits.objectBytes {
        CreateWrites(a, KeyOf(plan, o.path), o.content, 0, log);
      }
      var made := CreateChecked(a, KeyOf(plan, o.path), o.content, log);
      if made.Got? {
        CreateAllWrites(a, plan, i + 1, versions[o.path := made.value.1], made.rest);
      }
    }
  }

  lemma {:induction false} ReadFilesWritesNothing(a: Adapter, plan: Plan, i: nat, versions: Versions, log: seq<Exchange>)
    requires i <= |plan.objects| && Covers(versions, plan)
    ensures var out := ReadFiles(a, plan, i, versions, log); out.Need? ==> !out.call.Put?
    decreases |plan.objects| - i
  {
    if i < |plan.objects| {
      var o := plan.objects[i];
      var read := ReadFile(a, KeyOf(plan, o.path), o.content, versions[o.path], log);
      if read.Got? {
        ReadFilesWritesNothing(a, plan, i + 1, versions, read.rest);
      }
    }
  }

  lemma {:induction false} FetchFilesWritesNothing(a: Adapter, id: SnapshotId, doc: Manifest, i: nat,
                                                   files: seq<FrozenObject>, total: nat, log: seq<Exchange>)
    requires i <= |doc.files|
    ensures var out := FetchFiles(a, id, doc, i, files, total, log); out.Need? ==> !out.call.Put?
    decreases |doc.files| - i
  {
    hide Suffix;
    if i < |doc.files| {
      var record := doc.files[i];
      var item := FetchFile(a, id, doc.batch, record, files, total, log);
      if item.Got? {
        FetchFilesWritesNothing(a, id, doc, i + 1, files + [item.value], total + record.info.size, item.rest);
      }
    }
  }

  lemma {:induction false} ListPagesWritesNothing(a: Adapter, id: SnapshotId, k: nat, after: Option<Token>, seen: set<Token>,
                                                  listed: map<Path, nat>, log: seq<Exchange>)
    requires k <= a.limits.pages
    ensures var out := ListPages(a, id, k, after, seen, listed, log); out.Need? ==> !out.call.Put?
    decreases a.limits.pages - k
  {
    hide Suffix, AddEntries, UsableToken;
    if k < a.limits.pages && log != [] && log[0].reply.OnePage? {
      var page := log[0].reply.page;
      var more := AddEntries(page.entries, listed, a.limits);
      if more.Some? && FreshToken(page.token, seen) {
        ListPagesWritesNothing(a, id, k + 1, Some(page.token), seen + {page.token}, more.value, log[1..]);
      }
    }
  }

  lemma CheckInventoryWritesNothing(a: Adapter, plan: Plan, manifest: Option<Content>, log: seq<Exchange>)
    ensures var out := CheckInventory(a, plan, manifest, log); out.Need? ==> !out.call.Put?
  {
    hide ListPages;
    ListPagesWritesNothing(a, IdOf(plan), 0, None, {}, map[], log);
  }

  lemma ReadBackWritesNothing(a: Adapter, plan: Plan, versions: Versions, marker: Stored, log: seq<Exchange>)
    requires Covers(versions, plan)
    ensures var out := ReadBack(a, plan, versions, marker, log); out.Need? ==> !out.call.Put?
  {
    hide ReadFiles, CheckInventory, Suffix;
    ReadFilesWritesNothing(a, plan, 0, versions, log);
    var read := ReadFiles(a, plan, 0, versions, log);
    if read.Got? {
      var confirmed := ConfirmMarker(a, KeyOf(plan, ManifestFile), marker, read.rest);
      if confirmed.Got? {
        CheckInventoryWritesNothing(a, plan, Some(marker.content), confirmed.rest);
      }
    }
  }

  /** Reading a snapshot back never writes. */
  lemma ReadSnapshotWritesNothing(a: Adapter, id: SnapshotId, log: seq<Exchange>)
    ensures var out := ReadSnapshot(a, id, log); out.Need? ==> !out.call.Put?
  {
    hide FetchFiles, ReadBack, ManifestOf, ManifestFits, ValidPlan, Validate;
    var got := Get(a, Key(a.destination, id, ManifestFile), None, log);
    if got.Got? && got.value.Some? && got.value.value.content.body.Canonical? {
      var marker := got.value.value;
      var doc := marker.content.body.doc;
      var total := Size(a.codec, marker.content.body);
      FetchFilesWritesNothing(a, id, doc, 0, [], total, got.rest);
      var fetched := FetchFiles(a, id, doc, 0, [], total, got.rest);
      if fetched.Got? {
        var plan := Plan(a.destination, doc.batch, fetched.value, a.limits);
        if Covers(VersionsOf(doc.files), plan) {
          ReadBackWritesNothing(a, plan, VersionsOf(doc.files), marker, fetched.rest);
        }
      }
    }
  }

  lemma SealWrites(a: Adapter, plan: Plan, manifest: Content, log: seq<Exchange>)
    ensures var out := Seal(a, plan, manifest, log);
            out.Need? && out.call.Put? ==> out.call == Put(KeyOf(plan, ManifestFile), manifest)
  {
    if Size(a.codec, manifest.body) <= a.limits.objectBytes {
      CreateWrites(a, KeyOf(plan, ManifestFile), manifest, 0, log);
      var made := CreateChecked(a, KeyOf(plan, ManifestFile), manifest, log);
      if made.Got? {
        ReadSnapshotWritesNothing(a, IdOf(plan), made.rest);
      }
    }
  }

  /** After the payload the only write left is the manifest over the versions created. */
  lemma DepositWrites(a: Adapter, plan: Plan, observations: string, log: seq<Exchange>)
    requires CreateAll(a, plan, 0, map[], log).Got?
    requires Covers(CreateAll(a, plan, 0, map[], log).value, plan)
    ensures var out := Deposit(a, plan, observations, log);
            var manifest := ManifestOf(plan, CreateAll(a, plan, 0, map[], log).value, observations);
            out.Need? && out.call.Put? ==> out.call == Put(KeyOf(plan, ManifestFile), manifest)
  {
    var created := CreateAll(a, plan, 0, map[], log);
    ReadFilesWritesNothing(a, plan, 0, created.value, created.rest);
    var read := ReadFiles(a, plan, 0, created.value, created.rest);
    if read.Got? {
      CheckInventoryWritesNothing(a, plan, None, read.rest);
      var inventory := CheckInventory(a, plan, None, read.rest);
      if inventory.Got? {
        SealWrites(a, plan, ManifestOf(plan, created.value, observations), inventory.rest);
      }
    }
  }

  /** The manifest write of a plan: everything is stored, and the bytes are the ones the
      plan and the stored versions determine, whoever writes them. */
  predicate ManifestWrite(codec: Codec, b: Bucket, plan: Plan, call: Call) {
    && Held(b, plan, Stamps(b, plan))
    && Covers(Stamps(b, plan), plan)
    && codec.observe(plan.objects).Some?
    && call == Put(KeyOf(plan, ManifestFile), ManifestOf(plan, Stamps(b, plan), codec.observe(plan.objects).value))
  }

  lemma DepositWritesLast(b: Bucket, a: Adapter, plan: Plan, observations: string, log: seq<Exchange>)
    requires ValidPlan(plan) && Consistent(b, log) && a.codec.observe(plan.objects) == Some(observations)
    ensures var out := Deposit(a, plan, observations, log);
            out.Need? && out.call.Put? ==> PayloadWrite(plan, out.call) || ManifestWrite(a.codec, b, plan, out.call)
  {
    hide CreateAll, ReadFiles, Seal, Held, PayloadWrite, ManifestOf, OrderedMaterial;
    PlanPathsDistinct(plan.objects);
    CreateAllWrites(a, plan, 0, map[], log);
    var created := CreateAll(a, plan, 0, map[], log);
    if created.Got? && Covers(created.value, plan) {
      CreateAllLearns(b, a, plan, 0, map[], log);
      HeldStamps(b, plan, created.value);
      SameVersionsSameManifest(plan, created.value, Stamps(b, plan), observations);
      DepositWrites(a, plan, observations, log);
    }
  }

  /** A publisher only ever writes the objects of its plan and, once all of them are
      stored, the one manifest the plan and the store determine. */
  lemma PublishWrites(b: Bucket, a: Adapter, plan: Plan, log: seq<Exchange>)
    requires ValidPlan(plan) && Consistent(b, log)
    ensures var out := Publish(a, plan, log);
            out.Need? && out.call.Put? ==> PayloadWrite(plan, out.call) || ManifestWrite(a.codec, b, plan, out.call)
  {
    hide ReadSnapshot, Deposit, PayloadWrite, ManifestWrite, ValidPlan, Consistent;
    var existing := Get(a, KeyOf(plan, ManifestFile), None, log);
    if existing.Got? {
      ReadSnapshotWritesNothing(a, IdOf(plan), existing.rest);
      GetLearns(b, a, KeyOf(plan, ManifestFile), None, log);
      match Validate(a.codec, plan.objects, Min(plan.limits.expandedBytes, a.limits.expandedBytes))
      case Got(observations, _) => DepositWritesLast(b, a, plan, observations, existing.rest);
      case _ =>
    }
  }

  /** A manifest over held versions is backed, whatever version the store gives it. */
  lemma HeldIsBacked(b: Bucket, plan: Plan, versions: Versions, observations: string, version: Version)
    requires Payloads(plan.objects, plan.batch) && Held(b, plan, versions) && Covers(versions, plan)
    ensures Backed(b, KeyOf(plan, ManifestFile), Stored(ManifestOf(plan, versions, observations), version))
  {
    var key := KeyOf(plan, ManifestFile);
    var doc := ManifestOf(plan, versions, observations).body.doc;
    forall i | 0 <= i < |doc.files|
      ensures ListedHere(b, key, doc.files[i], i)
    {
      assert HeldAt(b, plan, plan.objects[i], versions);
      assert Payload(plan.objects[i], plan.batch);
    }
  }

  // ----------------------------------------------------------- one step, all runs

  lemma GrowsKeepsLog(b: Bucket, b': Bucket, log: seq<Exchange>)
    requires Grows(b, b') && Consistent(b, log)
    ensures Consistent(b', log)
  {
    forall i | 0 <= i < |log|
      ensures Agrees(b', log[i])
    {
      assert Agrees(b, log[i]);
    }
  }

  lemma GrowsKeepsBacked(b: Bucket, b': Bucket, key: Key, stored: Stored)
    requires Grows(b, b') && Backed(b, key, stored)
    ensures Backed(b', key, stored)
  {
    var doc := stored.content.body.doc;
    forall i | 0 <= i < |doc.files|
      ensures ListedHere(b', key, doc.files[i], i)
    {
      assert ListedHere(b, key, doc.files[i], i);
    }
  }

  lemma PutKeepsSound(b: Bucket, key: Key, stored: Stored)
    requires Sound(b) && (key.path == ManifestFile ==> Backed(b, key, stored))
    ensures Grows(b, PutIfAbsent(b, key, stored)) && Sound(PutIfAbsent(b, key, stored))
  {
    var b' := PutIfAbsent(b, key, stored);
    forall k | k in b' && k.path == ManifestFile
      ensures Backed(b', k, b'[k])
    {
      GrowsKeepsBacked(b, b', k, b'[k]);
    }
  }

  lemma ServeKeeps(codec: Codec, b: Bucket, call: Call, fate: Fate, version: Version)
    requires Sound(b)
    requires call.Put? && call.key.path == ManifestFile ==>
               forall v :: Backed(b, call.key, Stored(call.content, v))
    ensures var (b', reply) := Serve(codec, b, call, fate, version);
            Grows(b, b') && Sound(b') && Agrees(b', Exchange(call, reply))
  {
    if call.Put? {
      PutKeepsSound(b, call.key, Stored(call.content, version));
    }
  }

  lemma PendingIsBacked(codec: Codec, b: Bucket, c: Client, call: Call)
    requires ClientOk(codec, b, c) && Pending(c) == Some(call)
    requires call.Put? && call.key.path == ManifestFile
    ensures forall version :: Backed(b, call.key, Stored(call.content, version))
  {
    hide Publish, ReadSnapshot, Backed, Held, ManifestOf;
    if c.task.Publishes? {
      PublishWrites(b, c.adapter, c.task.plan, c.log);
      PlanPathsDistinct(c.task.plan.objects);
      var plan := c.task.plan;
      if ManifestWrite(codec, b, plan, call) {
        forall version {
          HeldIsBacked(b, plan, Stamps(b, plan), codec.observe(plan.objects).value, version);
        }
      }
    } else {
      ReadSnapshotWritesNothing(c.adapter, c.task.snapshot, c.log);
    }
  }

  lemma AppendConsistent(b: Bucket, log: seq<Exchange>, x: Exchange)
    requires Consistent(b, log) && Agrees(b, x)
    ensures Consistent(b, log + [x])
  {
  }

  lemma ClientsKeep(s: State, b': Bucket)
    requires Inv(s) && Grows(s.bucket, b')
    ensures forall w | w in s.clients :: ClientOk(s.codec, b', s.clients[w])
  {
    forall w | w in s.clients
      ensures ClientOk(s.codec, b', s.clients[w])
    {
      GrowsKeepsLog(s.bucket, b', s.clients[w].log);
    }
  }

  lemma ExchangedKeeps(s: State, who: nat, call: Call, fate: Fate, version: Version)
    requires Inv(s) && who in s.clients
    requires call.Put? && call.key.path == ManifestFile ==>
               forall v :: Backed(s.bucket, call.key, Stored(call.content, v))
    ensures var s' := Exchanged(s, who, call, fate, version); Inv(s') && Grows(s.bucket, s'.bucket)
  {
    ServeKeeps(s.codec, s.bucket, call, fate, version);
    hide Serve, Backed, Agrees, Consistent, Sound;
    var (b', reply) := Serve(s.codec, s.bucket, call, fate, version);
    ClientsKeep(s, b');
    AppendConsistent(b', s.clients[who].log, Exchange(call, reply));
  }

  /** One event of anybody keeps the invariant and only ever adds objects. */
  lemma StepKeeps(s: State, e: Event)
    requires Inv(s)
    ensures Inv(Apply(s, e)) && Grows(s.bucket, Apply(s, e).bucket) && Apply(s, e).codec == s.codec
  {
    hide Pending;
    match e
    case Serves(who, fate, version) =>
      if who in s.clients && Pending(s.clients[who]).Some? {
        var call := Pending(s.clients[who]).value;
        if call.Put? && call.key.path == ManifestFile {
          PendingIsBacked(s.codec, s.bucket, s.clients[who], call);
        }
        ExchangedKeeps(s, who, call, fate, version);
      }
    case Foreign(key, stored) =>
      if key.path != ManifestFile {
        PutKeepsSound(s.bucket, key, stored);
        ClientsKeep(s, PutIfAbsent(s.bucket, key, stored));
      }
    case _ =>
  }

  ghost predicate Initial(s: State) {
    s.clients == map[] && Sound(s.bucket)
  }

  /** Main safety theorem: after any run of any number of clients, with any faults,
      every manifest key present is backed by exactly the objects it lists. */
  lemma {:induction false} ManifestsAlwaysBacked(s: State, events: seq<Event>)
    requires Initial(s)
    ensures Inv(Run(s, events)) && Sound(Run(s, events).bucket) && Run(s, events).codec == s.codec
  {
    if events != [] {
      var before := events[..|events| - 1];
      ManifestsAlwaysBacked(s, before);
      StepKeeps(Run(s, before), events[|events| - 1]);
    }
  }

  /** No key's content, metadata or version ever changes again once written. */
  lemma {:induction false} ContentNeverReplaced(s: State, events: seq<Event>, more: seq<Event>)
    requires Initial(s)
    ensures Grows(Run(s, events).bucket, Run(s, events + more).bucket)
  {
    if more == [] {
      assert events + more == events;
    } else {
      var before := more[..|more| - 1];
      ContentNeverReplaced(s, events, before);
      assert (events + more)[..|events + more| - 1] == events + before;
      ManifestsAlwaysBacked(s, events + before);
      StepKeeps(Run(s, events + before), more[|more| - 1]);
    }
  }

  /** Every publisher that reported success left its snapshot complete: all objects as
      planned, and the manifest is the one this plan and the stored versions determine. */
  lemma SuccessMeansComplete(s: State, events: seq<Event>, who: nat)
    requires Initial(s) && who in Run(s, events).clients
    requires var c := Run(s, events).clients[who]; c.task.Publishes? && Publish(c.adapter, c.task.plan, c.log).Got?
    ensures var t := Run(s, events); Complete(s.codec, t.bucket, t.clients[who].task.plan)
  {
    ManifestsAlwaysBacked(s, events);
    var t := Run(s, events);
    var c := t.clients[who];
    PublishLearns(t.bucket, c.adapter, c.task.plan, c.log);
  }

  lemma PublishLearns(b: Bucket, a: Adapter, plan: Plan, log: seq<Exchange>)
    requires ValidPlan(plan) && Consistent(b, log) && Publish(a, plan, log).Got?
    ensures Complete(a.codec, b, plan)
  {
    hide ReadSnapshot, Deposit, Complete, ValidPlan;
    var existing := Get(a, KeyOf(plan, ManifestFile), None, log);
    GetLearns(b, a, KeyOf(plan, ManifestFile), None, log);
    if existing.value.Some? {
      VerifiedIsComplete(b, a, plan, existing.rest);
    } else {
      var observations := Validate(a.codec, plan.objects, Min(plan.limits.expandedBytes, a.limits.expandedBytes)).value;
      DepositLearns(b, a, plan, observations, existing.rest);
    }
  }

  lemma VerifiedIsComplete(b: Bucket, a: Adapter, plan: Plan, log: seq<Exchange>)
    requires ValidPlan(plan) && plan.destination == a.destination
    requires Consistent(b, log) && ReadSnapshot(a, IdOf(plan), log).Got?
    ensures Complete(a.codec, b, plan) && ReadSnapshot(a, IdOf(plan), log).value.plan.objects == plan.objects
  {
    ReadSnapshotLearns(b, a, IdOf(plan), log);
    var rebuilt := ReadSnapshot(a, IdOf(plan), log).value.plan;
    SnapshotIdDeterminesContent(rebuilt, plan);
    SamePlanSameComplete(a.codec, b, rebuilt, plan);
  }

  /** Limits play no part in what a plan stores. */
  lemma SamePlanSameComplete(codec: Codec, b: Bucket, p: Plan, q: Plan)
    requires p.(limits := q.limits) == q && Complete(codec, b, p)
    ensures Complete(codec, b, q)
  {
    assert Stamps(b, p) == Stamps(b, q);
    forall i | 0 <= i < |q.objects|
      ensures HeldAt(b, q, q.objects[i], Stamps(b, q))
    {
      assert HeldAt(b, p, p.objects[i], Stamps(b, p));
    }
    assert Records(p, Stamps(b, p)) == Records(q, Stamps(b, q));
  }

  lemma DepositLearns(b: Bucket, a: Adapter, plan: Plan, observations: string, log: seq<Exchange>)
    requires ValidPlan(plan) && plan.destination == a.destination
    requires Consistent(b, log) && Deposit(a, plan, observations, log).Got?
    ensures Complete(a.codec, b, plan)
  {
    hide CreateAll, ReadFiles, ReadSnapshot, Complete, Held, ManifestOf, PayloadSizes, Create, OrderedMaterial, Agrees;
    PlanPathsDistinct(plan.objects);
    var created := CreateAll(a, plan, 0, map[], log);
    CreateAllLearns(b, a, plan, 0, map[], log);
    ReadFilesLearns(b, a, plan, 0, created.value, created.rest);
    var read := ReadFiles(a, plan, 0, created.value, created.rest);
    SuffixConsistent(b, CheckInventory(a, plan, None, read.rest).rest, read.rest);
    var rest := CheckInventory(a, plan, None, read.rest).rest;
    var manifest := ManifestOf(plan, created.value, observations);
    CreateLearns(b, a, KeyOf(plan, ManifestFile), manifest, 0, rest);
    VerifiedIsComplete(b, a, plan, CreateChecked(a, KeyOf(plan, ManifestFile), manifest, rest).rest);
  }

  /** Readers only accept complete snapshots, and rebuild the objects of whoever published. */
  lemma AcceptedMeansComplete(s: State, events: seq<Event>, who: nat, plan: Plan)
    requires Initial(s) && who in Run(s, events).clients && ValidPlan(plan)
    requires var c := Run(s, events).clients[who];
             c.task == Reads(IdOf(plan)) && c.adapter.destination == plan.destination
             && ReadSnapshot(c.adapter, c.task.snapshot, c.log).Got?
    ensures var t := Run(s, events);
            var c := t.clients[who];
            && Complete(s.codec, t.bucket, plan)
            && ReadSnapshot(c.adapter, c.task.snapshot, c.log).value.plan.objects == plan.objects
  {
    ManifestsAlwaysBacked(s, events);
    var t := Run(s, events);
    VerifiedIsComplete(t.bucket, t.clients[who].adapter, plan, t.clients[who].log);
  }

  // ------------------------------------------------------ one creator per key

  predicate Creates(c: Client, i: nat, key: Key) {
    i < |c.log| && c.log[i].call.Put? && c.log[i].call.key == key && c.log[i].reply.Created?
  }

  ghost predicate OneCreator(s: State) {
    forall u, v, i, j, key ::
      u in s.clients && v in s.clients && Creates(s.clients[u], i, key) && Creates(s.clients[v], j, key)
      ==> u == v && i == j
  }

  lemma CreatedIsPresent(b: Bucket, c: Client, i: nat, key: Key)
    requires Consistent(b, c.log) && Creates(c, i, key)
    ensures key in b
  {
    assert Agrees(b, c.log[i]);
  }

  lemma CreatedWasAbsent(codec: Codec, b: Bucket, call: Call, fate: Fate, version: Version)
    ensures call.Put? && Serve(codec, b, call, fate, version).1.Created? ==> call.key !in b
  {
  }

  /** Only the exchange an event appends can be a new creation, and then its key was absent. */
  lemma NewCreation(s: State, e: Event, u: nat, i: nat, key: Key)
    requires Inv(s) && u in Apply(s, e).clients && Creates(Apply(s, e).clients[u], i, key)
    ensures if key in s.bucket then u in s.clients && Creates(s.clients[u], i, key)
            else e.Serves? && u == e.who && u in s.clients && i == |s.clients[u].log|
  {
    hide Pending, Serve;
    if u in s.clients && i < |s.clients[u].log| {
      assert Creates(s.clients[u], i, key);
      CreatedIsPresent(s.bucket, s.clients[u], i, key);
    } else if e.Serves? && u == e.who && u in s.clients && Pending(s.clients[u]).Some? {
      CreatedWasAbsent(s.codec, s.bucket, Pending(s.clients[u]).value, e.fate, e.version);
    }
  }

  lemma StepKeepsOneCreator(s: State, e: Event)
    requires Inv(s) && OneCreator(s)
    ensures OneCreator(Apply(s, e))
  {
    var s' := Apply(s, e);
    forall u, v, i, j, key | u in s'.clients && v in s'.clients
                             && Creates(s'.clients[u], i, key) && Creates(s'.clients[v], j, key)
      ensures u == v && i == j
    {
      NewCreation(s, e, u, i, key);
      NewCreation(s, e, v, j, key);
    }
  }

  /** Over any run at most one conditional create of a key is answered CREATED. */
  lemma {:induction false} AtMostOneCreatedPerKey(s: State, events: seq<Event>)
    requires Initial(s)
    ensures OneCreator(Run(s, events))
  {
    if events != [] {
      var before := events[..|events| - 1];
      AtMostOneCreatedPerKey(s, before);
      ManifestsAlwaysBacked(s, before);
      StepKeepsOneCreator(Run(s, before), events[|events| - 1]);
    }
  }
}
