/** Programs over a log read it from the front: a finished program stays finished with the
    extra exchanges left over, and one that needs more consumes some of what it is given. */
module SnapshotLog {
  import opened Common
  import opened SnapshotTypes
  import opened Listing
  import opened Snapshot

  /** `later` is `out` on a log with `more` appended. */
  predicate Extends<T(==)>(out: Out<T>, later: Out<T>, more: seq<Exchange>) {
    match out
    case Got(value, rest) => later == Got(value, rest + more)
    case Stop(code) => later == Stop(code)
    case Need(_) => later.Got? ==> |later.rest| < |more|
    case Astray => !later.Got?
  }

  lemma AskExtends(call: Call, log: seq<Exchange>, more: seq<Exchange>)
    ensures Extends(Ask(call, log), Ask(call, log + more), more)
  {
    hide Suffix;
    if log != [] {
      assert (log + more)[1..] == log[1..] + more;
    }
  }

  lemma GetExtends(a: Adapter, key: Key, version: Version, log: seq<Exchange>, more: seq<Exchange>)
    ensures Extends(Get(a, key, version, log), Get(a, key, version, log + more), more)
  {
    hide Suffix;
    AskExtends(Fetch(key, version), log, more);
  }

  lemma GetSameExtends(a: Adapter, key: Key, version: Version, request: Content, log: seq<Exchange>, more: seq<Exchange>)
    ensures Extends(GetSame(a, key, version, request, log), GetSame(a, key, version, request, log + more), more)
  {
    hide Suffix;
    GetExtends(a, key, version, log, more);
  }

  lemma {:induction false} CreateExtends(a: Adapter, key: Key, request: Content, attempt: nat,
                                         log: seq<Exchange>, more: seq<Exchange>)
    requires attempt < a.limits.putAttempts
    ensures Extends(Create(a, key, request, attempt, log), Create(a, key, request, attempt, log + more), more)
    decreases a.limits.putAttempts - attempt
  {
    hide Get, GetSame, Suffix;
    AskExtends(Put(key, request), log, more);
    if Ask(Put(key, request), log).Got? {
      var rest := log[1..];
      match log[0].reply
      case Conflict409 =>
        if attempt + 1 < a.limits.putAttempts {
          CreateExtends(a, key, request, attempt + 1, rest, more);
        }
      case Precondition412 => GetSameExtends(a, key, None, request, rest, more);
      case Unclear => GetExtends(a, key, None, rest, more);
      case Created(version) => GetSameExtends(a, key, version, request, rest, more);
      case _ =>
    }
  }

  lemma CreateCheckedExtends(a: Adapter, key: Key, request: Content, log: seq<Exchange>, more: seq<Exchange>)
    ensures Extends(CreateChecked(a, key, request, log), CreateChecked(a, key, request, log + more), more)
  {
    hide Suffix;
    CreateExtends(a, key, request, 0, log, more);
  }

  lemma {:induction false} CreateAllExtends(a: Adapter, plan: Plan, i: nat, versions: Versions,
                                            log: seq<Exchange>, more: seq<Exchange>)
    requires i <= |plan.objects|
    ensures Extends(CreateAll(a, plan, i, versions, log), CreateAll(a, plan, i, versions, log + more), more)
    decreases |plan.objects| - i
  {
    hide Suffix;
    if i < |plan.objects| {
      var o := plan.objects[i];
      CreateCheckedExtends(a, KeyOf(plan, o.path), o.content, log, more);
      var made := CreateChecked(a, KeyOf(plan, o.path), o.content, log);
      if made.Got? {
        CreateAllExtends(a, plan, i + 1, versions[o.path := made.value.1], made.rest, more);
      }
    }
  }

  lemma ReadFileExtends(a: Adapter, key: Key, request: Content, version: Version, log: seq<Exchange>, more: seq<Exchange>)
    ensures Extends(ReadFile(a, key, request, version, log), ReadFile(a, key, request, version, log + more), more)
  {
    hide GetSame, Suffix;
    GetSameExtends(a, key, version, request, log, more);
    var observed := GetSame(a, key, version, request, log);
    if observed.Got? {
      GetSameExtends(a, key, None, request, observed.rest, more);
    }
  }

  lemma {:induction false} ReadFilesExtends(a: Adapter, plan: Plan, i: nat, versions: Versions,
                                            log: seq<Exchange>, more: seq<Exchange>)
    requires i <= |plan.objects| && Covers(versions, plan)
    ensures Extends(ReadFiles(a, plan, i, versions, log), ReadFiles(a, plan, i, versions, log + more), more)
    decreases |plan.objects| - i
  {
    hide ReadFile, KeyOf, Suffix;
    if i < |plan.objects| {
      var o := plan.objects[i];
      ReadFileExtends(a, KeyOf(plan, o.path), o.content, versions[o.path], log, more);
      var read := ReadFile(a, KeyOf(plan, o.path), o.content, versions[o.path], log);
      if read.Got? {
        ReadFilesExtends(a, plan, i + 1, versions, read.rest, more);
      }
    }
  }

  lemma {:induction false} ListPagesExtends(a: Adapter, id: SnapshotId, k: nat, after: Option<Token>, seen: set<Token>,
                                            listed: map<Path, nat>, log: seq<Exchange>, more: seq<Exchange>)
    requires k <= a.limits.pages
    ensures Extends(ListPages(a, id, k, after, seen, listed, log), ListPages(a, id, k, after, seen, listed, log + more), more)
    decreases a.limits.pages - k
  {
    hide Suffix, AddEntries;
    if k < a.limits.pages {
      var call := ListPage(a.destination, id, a.limits.pageSize, after);
      AskExtends(call, log, more);
      if Ask(call, log).Got? && log[0].reply.OnePage? {
        var page := log[0].reply.page;
        var added := AddEntries(page.entries, listed, a.limits);
        if |page.entries| <= a.limits.pageSize && added.Some? && page.truncated && FreshToken(page.token, seen) {
          ListPagesExtends(a, id, k + 1, Some(page.token), seen + {page.token}, added.value, log[1..], more);
        }
      }
    }
  }

  lemma CheckInventoryExtends(a: Adapter, plan: Plan, manifest: Option<Content>, log: seq<Exchange>, more: seq<Exchange>)
    ensures Extends(CheckInventory(a, plan, manifest, log), CheckInventory(a, plan, manifest, log + more), more)
  {
    hide Suffix, ListPages;
    ListPagesExtends(a, IdOf(plan), 0, None, {}, map[], log, more);
  }

  lemma FetchFileExtends(a: Adapter, id: SnapshotId, batch: string, record: FileRecord, files: seq<FrozenObject>,
                         total: nat, log: seq<Exchange>, more: seq<Exchange>)
    ensures Extends(FetchFile(a, id, batch, record, files, total, log),
                    FetchFile(a, id, batch, record, files, total, log + more), more)
  {
    hide Suffix;
    GetExtends(a, Key(a.destination, id, record.info.path), record.version, log, more);
  }

  lemma {:induction false} FetchFilesExtends(a: Adapter, id: SnapshotId, doc: Manifest, i: nat, files: seq<FrozenObject>,
                                             total: nat, log: seq<Exchange>, more: seq<Exchange>)
    requires i <= |doc.files|
    ensures Extends(FetchFiles(a, id, doc, i, files, total, log), FetchFiles(a, id, doc, i, files, total, log + more), more)
    decreases |doc.files| - i
  {
    hide Suffix, FetchFile;
    if i < |doc.files| {
      var record := doc.files[i];
      FetchFileExtends(a, id, doc.batch, record, files, total, log, more);
      var item := FetchFile(a, id, doc.batch, record, files, total, log);
      if item.Got? {
        FetchFilesExtends(a, id, doc, i + 1, files + [item.value], total + record.info.size, item.rest, more);
      }
    }
  }

  lemma ConfirmMarkerExtends(a: Adapter, key: Key, marker: Stored, log: seq<Exchange>, more: seq<Exchange>)
    ensures Extends(ConfirmMarker(a, key, marker, log), ConfirmMarker(a, key, marker, log + more), more)
  {
    hide Suffix, GetSame;
    GetSameExtends(a, key, marker.version, marker.content, log, more);
    var specific := GetSame(a, key, marker.version, marker.content, log);
    if specific.Got? {
      GetSameExtends(a, key, None, marker.content, specific.rest, more);
    }
  }

  lemma ReadBackExtends(a: Adapter, plan: Plan, versions: Versions, marker: Stored, log: seq<Exchange>, more: seq<Exchange>)
    requires Covers(versions, plan)
    ensures Extends(ReadBack(a, plan, versions, marker, log), ReadBack(a, plan, versions, marker, log + more), more)
  {
    hide Suffix, ReadFiles, ConfirmMarker, CheckInventory;
    ReadFilesExtends(a, plan, 0, versions, log, more);
    var read := ReadFiles(a, plan, 0, versions, log);
    if read.Got? {
      ConfirmMarkerExtends(a, KeyOf(plan, ManifestFile), marker, read.rest, more);
      var confirmed := ConfirmMarker(a, KeyOf(plan, ManifestFile), marker, read.rest);
      if confirmed.Got? {
        CheckInventoryExtends(a, plan, Some(marker.content), confirmed.rest, more);
      }
    }
  }

  lemma RecheckExtends(a: Adapter, plan: Plan, marker: Stored, log: seq<Exchange>, more: seq<Exchange>)
    requires marker.content.body.Canonical?
    ensures Extends(Recheck(a, plan, marker, log), Recheck(a, plan, marker, log + more), more)
  {
    hide Suffix, ReadBack, ManifestOf, ManifestFits;
    var versions := VersionsOf(marker.content.body.doc.files);
    if Covers(versions, plan) {
      ReadBackExtends(a, plan, versions, marker, log, more);
    }
  }

  lemma RebuildExtends(a: Adapter, id: SnapshotId, marker: Stored, log: seq<Exchange>, more: seq<Exchange>)
    requires marker.content.body.Canonical?
    ensures Extends(Rebuild(a, id, marker, log), Rebuild(a, id, marker, log + more), more)
  {
    hide Suffix, FetchFiles, Recheck, ValidPlan;
    var doc := marker.content.body.doc;
    var total := Size(a.codec, marker.content.body);
    FetchFilesExtends(a, id, doc, 0, [], total, log, more);
    var fetched := FetchFiles(a, id, doc, 0, [], total, log);
    if fetched.Got? {
      RecheckExtends(a, Plan(a.destination, doc.batch, fetched.value, a.limits), marker, fetched.rest, more);
    }
  }

  lemma ReadSnapshotExtends(a: Adapter, id: SnapshotId, log: seq<Exchange>, more: seq<Exchange>)
    ensures Extends(ReadSnapshot(a, id, log), ReadSnapshot(a, id, log + more), more)
  {
    hide Suffix, Rebuild, Get;
    var key := Key(a.destination, id, ManifestFile);
    GetExtends(a, key, None, log, more);
    var got := Get(a, key, None, log);
    if got.Got? && got.value.Some? && got.value.value.content.body.Canonical? {
      RebuildExtends(a, id, got.value.value, got.rest, more);
    }
  }

  lemma SealExtends(a: Adapter, plan: Plan, manifest: Content, log: seq<Exchange>, more: seq<Exchange>)
    ensures Extends(Seal(a, plan, manifest, log), Seal(a, plan, manifest, log + more), more)
  {
    hide Suffix, CreateChecked, ReadSnapshot, ManifestFits;
    var key := KeyOf(plan, ManifestFile);
    CreateCheckedExtends(a, key, manifest, log, more);
    var made := CreateChecked(a, key, manifest, log);
    if made.Got? {
      ReadSnapshotExtends(a, IdOf(plan), made.rest, more);
    }
  }

  lemma DepositExtends(a: Adapter, plan: Plan, observations: string, log: seq<Exchange>, more: seq<Exchange>)
    ensures Extends(Deposit(a, plan, observations, log), Deposit(a, plan, observations, log + more), more)
  {
    hide Suffix, CreateAll, ReadFiles, CheckInventory, Seal, ManifestOf;
    CreateAllExtends(a, plan, 0, map[], log, more);
    var created := CreateAll(a, plan, 0, map[], log);
    if created.Got? && Covers(created.value, plan) {
      ReadFilesExtends(a, plan, 0, created.value, created.rest, more);
      var read := ReadFiles(a, plan, 0, created.value, created.rest);
      if read.Got? {
        CheckInventoryExtends(a, plan, None, read.rest, more);
        var checked := CheckInventory(a, plan, None, read.rest);
        if checked.Got? {
          SealExtends(a, plan, ManifestOf(plan, created.value, observations), checked.rest, more);
        }
      }
    }
  }

  lemma PublishExtends(a: Adapter, plan: Plan, log: seq<Exchange>, more: seq<Exchange>)
    ensures Extends(Publish(a, plan, log), Publish(a, plan, log + more), more)
  {
    hide Suffix, Get, ReadSnapshot, Deposit, TotalSize, WithinObjectLimit;
    var key := KeyOf(plan, ManifestFile);
    GetExtends(a, key, None, log, more);
    var existing := Get(a, key, None, log);
    if existing.Got? {
      ReadSnapshotExtends(a, IdOf(plan), existing.rest, more);
      if a.codec.observe(plan.objects).Some? {
        DepositExtends(a, plan, a.codec.observe(plan.objects).value, existing.rest, more);
      }
    }
  }
}
