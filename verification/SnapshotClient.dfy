/** `create`, `publish_snapshot` and `read_snapshot` as they run: loops that call the
    service, which may answer anything. Each method is proved to make exactly the calls
    and reach exactly the outcome of the program of the same name over its log, so what
    is proved of the programs in `Fleet` and `Recovery` holds of these loops. */
module SnapshotClient {
  import opened Common
  import opened SnapshotTypes
  import opened Listing
  import opened Snapshot
  import opened SnapshotLog

  type Outcome<T> = Result<T, Code>

  /** The program consumed its whole log and ended with this outcome. */
  predicate Ends<T(==)>(out: Out<T>, r: Outcome<T>) {
    match r
    case Ok(value) => out == Got(value, [])
    case Err(code) => out == Stop(code)
  }

  class Client {
    const a: Adapter
    var answers: seq<Reply>          // what the service is going to say, in order
    ghost var log: seq<Exchange>

    constructor (a: Adapter, answers: seq<Reply>)
      ensures this.a == a && this.answers == answers && log == []
    {
      this.a, this.answers, this.log := a, answers, [];
    }

    method Send(call: Call) returns (reply: Reply)
      modifies this
      ensures log == old(log) + [Exchange(call, reply)]
    {
      reply := if answers == [] then Failed else answers[0];
      answers := if answers == [] then [] else answers[1..];
      log := log + [Exchange(call, reply)];
    }

    method Fetches(key: Key, version: Version) returns (r: Outcome<Option<Stored>>)
      modifies this
      ensures old(log) <= log && Ends(Get(a, key, version, log[|old(log)|..]), r)
    {
      var reply := Send(Fetch(key, version));
      assert log[|old(log)|..] == [Exchange(Fetch(key, version), reply)];
      match reply
      case Found(stored) =>
        if a.limits.objectBytes < Size(a.codec, stored.content.body) {
          r := Err(ReadSizeLimit);
        } else if !ValidVersion(stored.version) {
          r := Err(InvalidVersion);
        } else if version.Some? && stored.version != version {
          r := Err(VersionDiffers);
        } else {
          r := Ok(Some(stored));
        }
      case Absent => r := if version.Some? then Err(VersionUnavailable) else Ok(None);
      case _ => r := Err(TransportError);
    }

    method FetchesSame(key: Key, version: Version, request: Content) returns (r: Outcome<Stored>)
      modifies this
      ensures old(log) <= log && Ends(GetSame(a, key, version, request, log[|old(log)|..]), r)
    {
      var observed := Fetches(key, version);
      if observed.Err? {
        return Err(observed.error);
      }
      match Compare(request, observed.value)
      case Some(code) => r := Err(code);
      case None => r := Ok(observed.value.value);
    }

    /** Everything `create` does about an answer to its put other than a conflict. */
    method Settles(key: Key, request: Content, ghost attempt: nat, reply: Reply) returns (r: Outcome<(bool, Version)>)
      requires attempt < a.limits.putAttempts && !reply.Conflict409?
      modifies this
      ensures old(log) <= log
      ensures Ends(Create(a, key, request, attempt, [Exchange(Put(key, request), reply)] + log[|old(log)|..]), r)
    {
      match reply
      case Precondition412 =>
        var observed := FetchesSame(key, None, request);
        r := if observed.Ok? then Ok((false, observed.value.version)) else Err(observed.error);
      case Unclear =>
        var observed := Fetches(key, None);
        if observed.Err? || observed.value.None? {
          r := Err(WriteOutcomeUnknown);
        } else {
          var difference := Compare(request, observed.value);
          r := if difference.Some? then Err(difference.value) else Ok((false, observed.value.value.version));
        }
      case Created(version) =>
        if !ValidVersion(version) {
          return Err(InvalidVersion);
        }
        var observed := FetchesSame(key, version, request);
        r := if observed.Err? then Err(observed.error)
             else if observed.value.version != version then Err(VersionDiffers)
             else Ok((true, version));
      case _ => r := Err(TransportError);
    }

    /** `S3Adapter.create`: conditional puts of one frozen request, then a read. */
    method Creates(key: Key, request: Content) returns (r: Outcome<(bool, Version)>)
      modifies this
      ensures old(log) <= log && Ends(CreateChecked(a, key, request, log[|old(log)|..]), r)
    {
      if a.limits.objectBytes < Size(a.codec, request.body) {
        return Err(InvalidPutRequest);
      }
      for attempt := 0 to a.limits.putAttempts
        invariant attempt < a.limits.putAttempts
        invariant old(log) <= log && log[|old(log)|..] == Conflicts(key, request, attempt)
      {
        var reply := Send(Put(key, request));
        ghost var first := [Exchange(Put(key, request), reply)];
        assert log[|old(log)|..] == Conflicts(key, request, attempt) + first;
        if reply == Conflict409 && attempt + 1 < a.limits.putAttempts {
          continue;
        }
        if reply == Conflict409 {
          Resume(a, key, request, attempt, first);
          return Err(ConditionalRetryExhausted);
        }
        ghost var start := log;
        r := Settles(key, request, attempt, reply);
        assert log[|old(log)|..] == Conflicts(key, request, attempt) + (first + log[|start|..]);
        Resume(a, key, request, attempt, first + log[|start|..]);
        return;
      }
      assert false;
    }

    /** The payload loop of `publish_snapshot`, filling `versions`. */
    method CreatesAll(plan: Plan) returns (r: Outcome<Versions>)
      modifies this
      ensures old(log) <= log && Ends(CreateAll(a, plan, 0, map[], log[|old(log)|..]), r)
      ensures r.Ok? ==> Covers(r.value, plan)
    {
      hide CreateAll, CreateChecked, CreatedSoFar;
      var versions: Versions := map[];
      ghost var before := log;
      CreateAtStart(a, plan, log[|before|..]);
      for i := 0 to |plan.objects|
        invariant before <= log && CreatedSoFar(a, plan, i, versions, log[|before|..])
        invariant forall j :: 0 <= j < i ==> plan.objects[j].path in versions
      {
        var o := plan.objects[i];
        ghost var start := log;
        var made := Creates(KeyOf(plan, o.path), o.content);
        Splice(before, start, log);
        CreateStep(a, plan, i, versions, start[|before|..], log[|start|..], made);
        if made.Err? {
          return Err(made.error);
        }
        versions := versions[o.path := made.value.1];
      }
      CreateAtEnd(a, plan, versions, log[|before|..]);
      r := Ok(versions);
    }

    method ReadsFile(key: Key, request: Content, version: Version) returns (r: Outcome<()>)
      modifies this
      ensures old(log) <= log && Ends(ReadFile(a, key, request, version, log[|old(log)|..]), r)
    {
      hide GetSame;
      var observed := FetchesSame(key, version, request);
      if observed.Err? {
        return Err(observed.error);
      }
      if observed.value.version != version {
        return Err(VersionDiffers);
      }
      if version.None? {
        return Ok(());
      }
      ghost var start := log;
      var latest := FetchesSame(key, None, request);
      Splice(old(log), start, log);
      GetSameExtends(a, key, version, request, start[|old(log)|..], log[|start|..]);
      r := if latest.Err? then Err(latest.error)
           else if latest.value.version != version then Err(LatestVersionDiffers)
           else Ok(());
    }

    /** `_read_files`. */
    method ReadsFiles(plan: Plan, versions: Versions) returns (r: Outcome<()>)
      requires Covers(versions, plan)
      modifies this
      ensures old(log) <= log && Ends(ReadFiles(a, plan, 0, versions, log[|old(log)|..]), r)
    {
      hide ReadFiles, ReadFile, ReadSoFar;
      ghost var before := log;
      ReadAtStart(a, plan, versions, log[|before|..]);
      for i := 0 to |plan.objects|
        invariant before <= log && ReadSoFar(a, plan, i, versions, log[|before|..])
      {
        var o := plan.objects[i];
        ghost var start := log;
        var read := ReadsFile(KeyOf(plan, o.path), o.content, versions[o.path]);
        Splice(before, start, log);
        ReadStep(a, plan, i, versions, start[|before|..], log[|start|..], read);
        if read.Err? {
          return Err(read.error);
        }
      }
      ReadAtEnd(a, plan, versions, log[|before|..]);
      r := Ok(());
    }

    /** `list_snapshot`: pages until one ends the listing, at most as many as the budget. */
    method ListsSnapshot(id: SnapshotId) returns (r: Outcome<map<Path, nat>>)
      modifies this
      ensures old(log) <= log && Ends(ListSnapshot(a, id, log[|old(log)|..]), r)
    {
      hide ListPages, AddEntries, ListedSoFar, FreshToken, Suffix;
      var listed: map<Path, nat>, tokens: set<Token>, after: Option<Token> := map[], {}, None;
      ghost var before := log;
      ListAtStart(a, id, log[|before|..]);
      for k := 0 to a.limits.pages
        invariant before <= log && ListedSoFar(a, id, k, after, tokens, listed, log[|before|..])
      {
        var call := ListPage(a.destination, id, a.limits.pageSize, after);
        ghost var start := log;
        var reply := Send(call);
        Splice(before, start, log);
        assert log[|start|..] == [Exchange(call, reply)];
        ListStep(a, id, k, after, tokens, listed, start[|before|..], Exchange(call, reply));
        if !reply.OnePage? {
          return Err(TransportError);
        }
        var page := reply.page;
        var more := AddEntries(page.entries, listed, a.limits);
        if a.limits.pageSize < |page.entries| || more.None? {
          return Err(InvalidList);
        }
        listed := more.value;
        if !page.truncated {
          return Ok(listed);
        }
        if !FreshToken(page.token, tokens) {
          return Err(InvalidListToken);
        }
        tokens, after := tokens + {page.token}, Some(page.token);
      }
      ListAtEnd(a, id, after, tokens, listed, log[|before|..]);
      r := Err(ListLimit);
    }

    /** `_inventory`. */
    method ChecksInventory(plan: Plan, manifest: Option<Content>) returns (r: Outcome<()>)
      modifies this
      ensures old(log) <= log && Ends(CheckInventory(a, plan, manifest, log[|old(log)|..]), r)
    {
      hide ListPages;
      var sizes := ListsSnapshot(IdOf(plan));
      if sizes.Err? {
        return Err(sizes.error);
      }
      var expected, listed := PayloadSizes(plan.objects), sizes.value;
      if manifest.Some? {
        expected := expected[ManifestFile := Size(a.codec, manifest.value.body)];
      } else {
        listed := listed - {ManifestFile};
      }
      r := if listed == expected then Ok(()) else Err(RemoteFileSetDiffers);
    }

    method FetchesFile(id: SnapshotId, batch: string, record: FileRecord, files: seq<FrozenObject>, total: nat)
      returns (r: Outcome<FrozenObject>)
      modifies this
      ensures old(log) <= log && Ends(FetchFile(a, id, batch, record, files, total, log[|old(log)|..]), r)
    {
      var path := record.info.path;
      var key := Key(a.destination, id, path);
      if !MaterialPath(path) || Contains(files, path) || record.key != key {
        return Err(ManifestPathDiffers);
      }
      if a.limits.objectBytes < record.info.size || a.limits.snapshotBytes < total + record.info.size {
        return Err(ManifestSizeLimit);
      }
      if !ValidVersion(record.version) {
        return Err(InvalidVersion);
      }
      var observed := Fetches(key, record.version);
      if observed.Err? {
        return Err(observed.error);
      }
      if observed.value.None? {
        return Err(ReadbackMissing);
      }
      var stored := observed.value.value;
      var item := ObjectBytes(path, stored.content.body, batch);
      r := if !stored.content.body.Raw? || Inventory(item) != record.info then Err(ManifestBytesDiffer)
           else if stored.content != item.content then Err(ContentConflict)
           else if stored.version != record.version then Err(VersionDiffers)
           else Ok(item);
    }

    /** The loop of `read_snapshot` over the manifest, growing `files` and `total`. */
    method FetchesFiles(id: SnapshotId, doc: Manifest, size: nat) returns (r: Outcome<seq<FrozenObject>>)
      modifies this
      ensures old(log) <= log && Ends(FetchFiles(a, id, doc, 0, [], size, log[|old(log)|..]), r)
    {
      hide FetchFiles, FetchFile, FetchedSoFar;
      var files: seq<FrozenObject>, total: nat := [], size;
      ghost var before := log;
      FetchAtStart(a, id, doc, size, log[|before|..]);
      for i := 0 to |doc.files|
        invariant before <= log && FetchedSoFar(a, id, doc, size, i, files, total, log[|before|..])
      {
        ghost var start := log;
        var item := FetchesFile(id, doc.batch, doc.files[i], files, total);
        Splice(before, start, log);
        FetchStep(a, id, doc, size, i, files, total, start[|before|..], log[|start|..], item);
        if item.Err? {
          return Err(item.error);
        }
        files, total := files + [item.value], total + doc.files[i].info.size;
      }
      FetchAtEnd(a, id, doc, size, files, total, log[|before|..]);
      r := Ok(files);
    }

    method ConfirmsMarker(key: Key, marker: Stored) returns (r: Outcome<()>)
      modifies this
      ensures old(log) <= log && Ends(ConfirmMarker(a, key, marker, log[|old(log)|..]), r)
    {
      hide GetSame;
      var specific := FetchesSame(key, marker.version, marker.content);
      if specific.Err? {
        return Err(specific.error);
      }
      ghost var start := log;
      var latest := FetchesSame(key, None, marker.content);
      Splice(old(log), start, log);
      GetSameExtends(a, key, marker.version, marker.content, start[|old(log)|..], log[|start|..]);
      r := if latest.Err? then Err(latest.error)
           else if specific.value.version == latest.value.version == marker.version then Ok(())
           else Err(LatestVersionDiffers);
    }

    method ReadsBack(plan: Plan, versions: Versions, marker: Stored) returns (r: Outcome<Verified>)
      requires Covers(versions, plan)
      modifies this
      ensures old(log) <= log && Ends(ReadBack(a, plan, versions, marker, log[|old(log)|..]), r)
    {
      hide ReadFiles, ConfirmMarker, CheckInventory;
      var key := KeyOf(plan, ManifestFile);
      var read := ReadsFiles(plan, versions);
      if read.Err? {
        return Err(read.error);
      }
      ghost var start := log;
      var confirmed := ConfirmsMarker(key, marker);
      Splice(old(log), start, log);
      ReadFilesExtends(a, plan, 0, versions, start[|old(log)|..], log[|start|..]);
      if confirmed.Err? {
        return Err(confirmed.error);
      }
      ghost var middle := log;
      var listed := ChecksInventory(plan, Some(marker.content));
      Splice(start, middle, log);
      Splice(old(log), start, log);
      ConfirmMarkerExtends(a, key, marker, middle[|start|..], log[|middle|..]);
      ReadFilesExtends(a, plan, 0, versions, start[|old(log)|..], log[|start|..]);
      r := if listed.Err? then Err(listed.error) else Ok(Verified(plan, marker.content, marker.version));
    }

    method Rechecks(plan: Plan, marker: Stored) returns (r: Outcome<Verified>)
      requires marker.content.body.Canonical?
      modifies this
      ensures old(log) <= log && Ends(Recheck(a, plan, marker, log[|old(log)|..]), r)
    {
      hide ReadBack, ManifestOf, ManifestFits;
      var versions := VersionsOf(marker.content.body.doc.files);
      if a.limits.expandedBytes < a.codec.expansion(plan.objects) {
        return Err(ParquetExpansionLimit);
      }
      var observations := a.codec.observe(plan.objects);
      if observations.None? {
        return Err(BatchInvalid);
      }
      if !Covers(versions, plan) {
        return Err(ManifestInvalid);
      }
      var request := ManifestOf(plan, versions, observations.value);
      if !ManifestFits(a.codec, a.limits, plan.objects, request) {
        return Err(ManifestLimit);
      }
      if marker.content != request {
        return Err(ContentConflict);
      }
      r := ReadsBack(plan, versions, marker);
    }

    method Rebuilds(id: SnapshotId, marker: Stored) returns (r: Outcome<Verified>)
      requires marker.content.body.Canonical?
      modifies this
      ensures old(log) <= log && Ends(Rebuild(a, id, marker, log[|old(log)|..]), r)
    {
      hide FetchFiles, Recheck, ValidPlan;
      var doc := marker.content.body.doc;
      if doc.snapshot != id {
        return Err(WrongManifest);
      }
      if doc.destination != a.destination {
        return Err(DestinationNotAuthorized);
      }
      if !IsHash(doc.batch) {
        return Err(ManifestInvalid);
      }
      if !(0 < |doc.files| < a.limits.objects) {
        return Err(ManifestFileLimit);
      }
      var size := Size(a.codec, marker.content.body);
      var files := FetchesFiles(id, doc, size);
      if files.Err? {
        return Err(files.error);
      }
      var plan := Plan(a.destination, doc.batch, files.value, a.limits);
      if !ValidPlan(plan) {
        return Err(InvalidPlan);
      }
      if IdOf(plan) != id {
        return Err(SnapshotIdDiffers);
      }
      ghost var start := log;
      r := Rechecks(plan, marker);
      Splice(old(log), start, log);
      FetchFilesExtends(a, id, doc, 0, [], size, start[|old(log)|..], log[|start|..]);
    }

    /** `read_snapshot`. */
    method ReadsSnapshot(id: SnapshotId) returns (r: Outcome<Verified>)
      modifies this
      ensures old(log) <= log && Ends(ReadSnapshot(a, id, log[|old(log)|..]), r)
    {
      hide Get, Rebuild;
      var key := Key(a.destination, id, ManifestFile);
      var found := Fetches(key, None);
      if found.Err? {
        return Err(found.error);
      }
      if found.value.None? {
        return Err(SnapshotPartialOrMissing);
      }
      var marker := found.value.value;
      if !marker.content.body.Canonical? || JSON_LIMIT < Size(a.codec, marker.content.body) {
        return Err(ManifestInvalid);
      }
      ghost var start := log;
      r := Rebuilds(id, marker);
      Splice(old(log), start, log);
      GetExtends(a, key, None, start[|old(log)|..], log[|start|..]);
    }

    /** The marker, last, and the read-back that decides the status. */
    method Seals(plan: Plan, manifest: Content) returns (r: Outcome<Status>)
      modifies this
      ensures old(log) <= log && Ends(Seal(a, plan, manifest, log[|old(log)|..]), r)
    {
      hide CreateChecked, ReadSnapshot, ManifestFits;
      if !ManifestFits(a.codec, plan.limits, plan.objects, manifest) {
        return Err(ManifestLimit);
      }
      var key := KeyOf(plan, ManifestFile);
      var made := Creates(key, manifest);
      if made.Err? {
        return Err(made.error);
      }
      ghost var start := log;
      var verified := ReadsSnapshot(IdOf(plan));
      Splice(old(log), start, log);
      CreateCheckedExtends(a, key, manifest, start[|old(log)|..], log[|start|..]);
      r := if verified.Err? then Err(verified.error)
           else if verified.value.plan.objects != plan.objects then Err(ContentConflict)
           else Ok(if made.value.0 then SnapshotCreated else AlreadyPresentIdentical);
    }

    method Deposits(plan: Plan, observations: string) returns (r: Outcome<Status>)
      modifies this
      ensures old(log) <= log && Ends(Deposit(a, plan, observations, log[|old(log)|..]), r)
    {
      hide CreateAll, ReadFiles, CheckInventory, Seal, ManifestOf;
      var versions := CreatesAll(plan);
      if versions.Err? {
        return Err(versions.error);
      }
      ghost var start := log;
      var read := ReadsFiles(plan, versions.value);
      Splice(old(log), start, log);
      CreateAllExtends(a, plan, 0, map[], start[|old(log)|..], log[|start|..]);
      if read.Err? {
        return Err(read.error);
      }
      ghost var middle := log;
      var listed := ChecksInventory(plan, None);
      Splice(start, middle, log);
      ReadFilesExtends(a, plan, 0, versions.value, middle[|start|..], log[|middle|..]);
      if listed.Err? {
        Splice(old(log), start, log);
        CreateAllExtends(a, plan, 0, map[], start[|old(log)|..], log[|start|..]);
        return Err(listed.error);
      }
      ghost var late := log;
      r := Seals(plan, ManifestOf(plan, versions.value, observations));
      Splice(middle, late, log);
      Splice(start, middle, log);
      Splice(old(log), start, log);
      CheckInventoryExtends(a, plan, None, late[|middle|..], log[|late|..]);
      ReadFilesExtends(a, plan, 0, versions.value, middle[|start|..], log[|middle|..]);
      CreateAllExtends(a, plan, 0, map[], start[|old(log)|..], log[|start|..]);
    }

    /** `publish_snapshot`. */
    method Publishes(plan: Plan) returns (r: Outcome<Status>)
      modifies this
      ensures old(log) <= log && Ends(Publish(a, plan, log[|old(log)|..]), r)
    {
      hide Get, ReadSnapshot, Deposit, TotalSize, WithinObjectLimit;
      if plan.destination != a.destination {
        return Err(DestinationNotAuthorized);
      }
      if a.limits.objects < |plan.objects| + 1 || a.limits.snapshotBytes < TotalSize(plan.objects)
         || !WithinObjectLimit(plan.objects, a.limits.objectBytes) {
        return Err(TransportLimitExceeded);
      }
      if Min(plan.limits.expandedBytes, a.limits.expandedBytes) < a.codec.expansion(plan.objects) {
        return Err(ParquetExpansionLimit);
      }
      var observations := a.codec.observe(plan.objects);
      if observations.None? {
        return Err(BatchInvalid);
      }
      var key := KeyOf(plan, ManifestFile);
      var existing := Fetches(key, None);
      if existing.Err? {
        return Err(existing.error);
      }
      ghost var start := log;
      if existing.value.Some? {
        var verified := ReadsSnapshot(IdOf(plan));
        r := if verified.Err? then Err(verified.error)
             else if verified.value.plan.objects != plan.objects then Err(ContentConflict)
             else Ok(AlreadyPresentIdentical);
      } else {
        r := Deposits(plan, observations.value);
      }
      Splice(old(log), start, log);
      GetExtends(a, key, None, start[|old(log)|..], log[|start|..]);
    }
  }

  /** What is logged after `before` is what was logged up to `start`, then the rest. */
  lemma Splice(before: seq<Exchange>, start: seq<Exchange>, now: seq<Exchange>)
    requires before <= start <= now
    ensures now[|before|..] == start[|before|..] + now[|start|..]
    ensures [] + now[|start|..] == now[|start|..]
  {
  }

  ghost predicate CreatedSoFar(a: Adapter, plan: Plan, i: nat, versions: Versions, done: seq<Exchange>)
    requires i <= |plan.objects|
  {
    forall more: seq<Exchange> :: CreateAll(a, plan, 0, map[], done + more) == CreateAll(a, plan, i, versions, more)
  }

  lemma CreateAtStart(a: Adapter, plan: Plan, done: seq<Exchange>)
    requires done == []
    ensures CreatedSoFar(a, plan, 0, map[], done)
  {
    hide Suffix, CreateAll;
    forall more: seq<Exchange>
      ensures done + more == more
    {
    }
  }

  lemma CreateOne(a: Adapter, plan: Plan, i: nat, versions: Versions, piece: seq<Exchange>,
                  made: Outcome<(bool, Version)>, more: seq<Exchange>)
    requires i < |plan.objects|
    requires Ends(CreateChecked(a, KeyOf(plan, plan.objects[i].path), plan.objects[i].content, piece), made)
    ensures made.Err? ==> CreateAll(a, plan, i, versions, piece) == Stop(made.error)
    ensures made.Ok? ==>
      CreateAll(a, plan, i, versions, piece + more)
        == CreateAll(a, plan, i + 1, versions[plan.objects[i].path := made.value.1], more)
  {
    hide Suffix, CreateChecked;
    CreateCheckedExtends(a, KeyOf(plan, plan.objects[i].path), plan.objects[i].content, piece, more);
    assert [] + more == more;
  }

  lemma CreateStep(a: Adapter, plan: Plan, i: nat, versions: Versions, done: seq<Exchange>, piece: seq<Exchange>,
                   made: Outcome<(bool, Version)>)
    requires i < |plan.objects| && CreatedSoFar(a, plan, i, versions, done)
    requires Ends(CreateChecked(a, KeyOf(plan, plan.objects[i].path), plan.objects[i].content, piece), made)
    ensures made.Err? ==> CreateAll(a, plan, 0, map[], done + piece) == Stop(made.error)
    ensures made.Ok? ==> CreatedSoFar(a, plan, i + 1, versions[plan.objects[i].path := made.value.1], done + piece)
  {
    hide Suffix, CreateChecked, CreateAll;
    CreateOne(a, plan, i, versions, piece, made, []);
    forall more: seq<Exchange> | made.Ok?
      ensures CreateAll(a, plan, 0, map[], done + piece + more)
           == CreateAll(a, plan, i + 1, versions[plan.objects[i].path := made.value.1], more)
    {
      assert done + piece + more == done + (piece + more);
      CreateOne(a, plan, i, versions, piece, made, more);
    }
  }

  lemma CreateAtEnd(a: Adapter, plan: Plan, versions: Versions, done: seq<Exchange>)
    requires CreatedSoFar(a, plan, |plan.objects|, versions, done)
    ensures CreateAll(a, plan, 0, map[], done) == Got(versions, [])
  {
    assert done + [] == done;
  }

  ghost predicate ListedSoFar(a: Adapter, id: SnapshotId, k: nat, after: Option<Token>, seen: set<Token>, listed: map<Path, nat>,
                              done: seq<Exchange>)
    requires k <= a.limits.pages
  {
    forall more: seq<Exchange> :: ListSnapshot(a, id, done + more) == ListPages(a, id, k, after, seen, listed, more)
  }

  lemma ListAtStart(a: Adapter, id: SnapshotId, done: seq<Exchange>)
    requires done == []
    ensures ListedSoFar(a, id, 0, None, {}, map[], done)
  {
    hide Suffix, ListPages;
    forall more: seq<Exchange>
      ensures done + more == more
    {
    }
  }

  lemma ListOne(a: Adapter, id: SnapshotId, k: nat, after: Option<Token>, seen: set<Token>, listed: map<Path, nat>, x: Exchange,
                more: seq<Exchange>)
    requires k < a.limits.pages && x.call == ListPage(a.destination, id, a.limits.pageSize, after)
    ensures ListPages(a, id, k, after, seen, listed, [x] + more)
         == if !x.reply.OnePage? then Stop(TransportError) else OnPage(a, id, k, seen, listed, x.reply.page, more)
  {
    hide Suffix, AddEntries;
    assert ([x] + more)[1..] == more;
  }

  /** What `list_snapshot` makes of one page. */
  function OnPage(a: Adapter, id: SnapshotId, k: nat, seen: set<Token>, listed: map<Path, nat>, page: Page, more: seq<Exchange>):
    Out<map<Path, nat>>
    requires k < a.limits.pages
  {
    var added := AddEntries(page.entries, listed, a.limits);
    if a.limits.pageSize < |page.entries| || added.None? then Stop(InvalidList)
    else if !page.truncated then Got(added.value, more)
    else if !FreshToken(page.token, seen) then Stop(InvalidListToken)
    else ListPages(a, id, k + 1, Some(page.token), seen + {page.token}, added.value, more)
  }

  lemma ListStep(a: Adapter, id: SnapshotId, k: nat, after: Option<Token>, seen: set<Token>, listed: map<Path, nat>,
                 done: seq<Exchange>, x: Exchange)
    requires k < a.limits.pages && ListedSoFar(a, id, k, after, seen, listed, done)
    requires x.call == ListPage(a.destination, id, a.limits.pageSize, after)
    ensures !x.reply.OnePage? ==> ListSnapshot(a, id, done + [x]) == Stop(TransportError)
    ensures x.reply.OnePage? ==>
      var page := x.reply.page;
      var added := AddEntries(page.entries, listed, a.limits);
      if a.limits.pageSize < |page.entries| || added.None? then ListSnapshot(a, id, done + [x]) == Stop(InvalidList)
      else if !page.truncated then ListSnapshot(a, id, done + [x]) == Got(added.value, [])
      else if !FreshToken(page.token, seen) then ListSnapshot(a, id, done + [x]) == Stop(InvalidListToken)
      else ListedSoFar(a, id, k + 1, Some(page.token), seen + {page.token}, added.value, done + [x])
  {
    hide ListPages, ListSnapshot, AddEntries, FreshToken, Suffix;
    forall more: seq<Exchange>
      ensures ListSnapshot(a, id, done + [x] + more)
           == if !x.reply.OnePage? then Stop(TransportError) else OnPage(a, id, k, seen, listed, x.reply.page, more)
    {
      assert done + [x] + more == done + ([x] + more);
      ListOne(a, id, k, after, seen, listed, x, more);
    }
    assert done + [x] + [] == done + [x];
  }

  lemma ListAtEnd(a: Adapter, id: SnapshotId, after: Option<Token>, seen: set<Token>, listed: map<Path, nat>, done: seq<Exchange>)
    requires ListedSoFar(a, id, a.limits.pages, after, seen, listed, done)
    ensures ListSnapshot(a, id, done) == Stop(ListLimit)
  {
    assert done + [] == done;
  }

  ghost predicate ReadSoFar(a: Adapter, plan: Plan, i: nat, versions: Versions, done: seq<Exchange>)
    requires i <= |plan.objects| && Covers(versions, plan)
  {
    forall more: seq<Exchange> :: ReadFiles(a, plan, 0, versions, done + more) == ReadFiles(a, plan, i, versions, more)
  }

  lemma ReadAtStart(a: Adapter, plan: Plan, versions: Versions, done: seq<Exchange>)
    requires done == [] && Covers(versions, plan)
    ensures ReadSoFar(a, plan, 0, versions, done)
  {
    hide ReadFiles;
    forall more: seq<Exchange>
      ensures done + more == more
    {
    }
  }

  lemma ReadOne(a: Adapter, plan: Plan, i: nat, versions: Versions, piece: seq<Exchange>, read: Outcome<()>,
                more: seq<Exchange>)
    requires i < |plan.objects| && Covers(versions, plan)
    requires var o := plan.objects[i]; Ends(ReadFile(a, KeyOf(plan, o.path), o.content, versions[o.path], piece), read)
    ensures read.Err? ==> ReadFiles(a, plan, i, versions, piece) == Stop(read.error)
    ensures read.Ok? ==> ReadFiles(a, plan, i, versions, piece + more) == ReadFiles(a, plan, i + 1, versions, more)
  {
    hide Suffix, ReadFile;
    var o := plan.objects[i];
    ReadFileExtends(a, KeyOf(plan, o.path), o.content, versions[o.path], piece, more);
    assert [] + more == more;
  }

  lemma ReadStep(a: Adapter, plan: Plan, i: nat, versions: Versions, done: seq<Exchange>, piece: seq<Exchange>,
                 read: Outcome<()>)
    requires i < |plan.objects| && Covers(versions, plan) && ReadSoFar(a, plan, i, versions, done)
    requires var o := plan.objects[i]; Ends(ReadFile(a, KeyOf(plan, o.path), o.content, versions[o.path], piece), read)
    ensures read.Err? ==> ReadFiles(a, plan, 0, versions, done + piece) == Stop(read.error)
    ensures read.Ok? ==> ReadSoFar(a, plan, i + 1, versions, done + piece)
  {
    hide Suffix, ReadFile, ReadFiles;
    ReadOne(a, plan, i, versions, piece, read, []);
    forall more: seq<Exchange> | read.Ok?
      ensures ReadFiles(a, plan, 0, versions, done + piece + more) == ReadFiles(a, plan, i + 1, versions, more)
    {
      assert done + piece + more == done + (piece + more);
      ReadOne(a, plan, i, versions, piece, read, more);
    }
  }

  lemma ReadAtEnd(a: Adapter, plan: Plan, versions: Versions, done: seq<Exchange>)
    requires Covers(versions, plan) && ReadSoFar(a, plan, |plan.objects|, versions, done)
    ensures ReadFiles(a, plan, 0, versions, done) == Got((), [])
  {
    assert done + [] == done;
  }

  ghost predicate FetchedSoFar(a: Adapter, id: SnapshotId, doc: Manifest, size: nat, i: nat, files: seq<FrozenObject>,
                               total: nat, done: seq<Exchange>)
    requires i <= |doc.files|
  {
    forall more: seq<Exchange> ::
      FetchFiles(a, id, doc, 0, [], size, done + more) == FetchFiles(a, id, doc, i, files, total, more)
  }

  lemma FetchAtStart(a: Adapter, id: SnapshotId, doc: Manifest, size: nat, done: seq<Exchange>)
    requires done == []
    ensures FetchedSoFar(a, id, doc, size, 0, [], size, done)
  {
    hide FetchFiles;
    forall more: seq<Exchange>
      ensures done + more == more
    {
    }
  }

  lemma FetchOne(a: Adapter, id: SnapshotId, doc: Manifest, i: nat, files: seq<FrozenObject>, total: nat,
                 piece: seq<Exchange>, item: Outcome<FrozenObject>, more: seq<Exchange>)
    requires i < |doc.files| && Ends(FetchFile(a, id, doc.batch, doc.files[i], files, total, piece), item)
    ensures item.Err? ==> FetchFiles(a, id, doc, i, files, total, piece) == Stop(item.error)
    ensures item.Ok? ==>
      FetchFiles(a, id, doc, i, files, total, piece + more)
        == FetchFiles(a, id, doc, i + 1, files + [item.value], total + doc.files[i].info.size, more)
  {
    hide Suffix, FetchFile;
    FetchFileExtends(a, id, doc.batch, doc.files[i], files, total, piece, more);
    assert [] + more == more;
  }

  lemma FetchStep(a: Adapter, id: SnapshotId, doc: Manifest, size: nat, i: nat, files: seq<FrozenObject>, total: nat,
                  done: seq<Exchange>, piece: seq<Exchange>, item: Outcome<FrozenObject>)
    requires i < |doc.files| && FetchedSoFar(a, id, doc, size, i, files, total, done)
    requires Ends(FetchFile(a, id, doc.batch, doc.files[i], files, total, piece), item)
    ensures item.Err? ==> FetchFiles(a, id, doc, 0, [], size, done + piece) == Stop(item.error)
    ensures item.Ok? ==>
      FetchedSoFar(a, id, doc, size, i + 1, files + [item.value], total + doc.files[i].info.size, done + piece)
  {
    hide Suffix, FetchFile, FetchFiles;
    FetchOne(a, id, doc, i, files, total, piece, item, []);
    forall more: seq<Exchange> | item.Ok?
      ensures FetchFiles(a, id, doc, 0, [], size, done + piece + more)
           == FetchFiles(a, id, doc, i + 1, files + [item.value], total + doc.files[i].info.size, more)
    {
      assert done + piece + more == done + (piece + more);
      FetchOne(a, id, doc, i, files, total, piece, item, more);
    }
  }

  lemma FetchAtEnd(a: Adapter, id: SnapshotId, doc: Manifest, size: nat, files: seq<FrozenObject>, total: nat,
                   done: seq<Exchange>)
    requires FetchedSoFar(a, id, doc, size, |doc.files|, files, total, done)
    ensures FetchFiles(a, id, doc, 0, [], size, done) == Got(files, [])
  {
    assert done + [] == done;
  }

  /** The log of a put answered 409 that many times. */
  ghost function Conflicts(key: Key, request: Content, n: nat): seq<Exchange> {
    seq(n, i => Exchange(Put(key, request), Conflict409))
  }

  lemma Resume(a: Adapter, key: Key, request: Content, attempt: nat, next: seq<Exchange>)
    requires attempt < a.limits.putAttempts
    ensures Create(a, key, request, 0, Conflicts(key, request, attempt) + next) == Create(a, key, request, attempt, next)
  {
    ResumeFrom(a, key, request, 0, attempt, next);
  }

  lemma {:induction false} ResumeFrom(a: Adapter, key: Key, request: Content, k: nat, attempt: nat, next: seq<Exchange>)
    requires k <= attempt < a.limits.putAttempts
    ensures Create(a, key, request, k, Conflicts(key, request, attempt - k) + next) == Create(a, key, request, attempt, next)
    decreases attempt - k
  {
    var done := Conflicts(key, request, attempt - k);
    if k == attempt {
      assert done + next == next;
    } else {
      assert (done + next)[1..] == Conflicts(key, request, attempt - k - 1) + next;
      ResumeFrom(a, key, request, k + 1, attempt, next);
    }
  }
}
