/** What `create` reports, whatever it is answered: a creation exactly when its own conditional put
    was acknowledged. A put whose response was lost is never reported as one. */
module Creation {
  import opened Common
  import opened SnapshotTypes
  import opened Listing
  import opened Snapshot
  import opened SnapshotLog
  import opened Fleet

  // ------------------------------------------------------------- one call of create

  /** `n` conflicts, the put that settles it, and the read that finds the requested content. */
  predicate Settled(a: Adapter, key: Key, request: Content, log: seq<Exchange>, n: nat, created: bool, version: Version) {
    && n + 1 < |log|
    && (forall i :: 0 <= i < n ==> log[i] == Exchange(Put(key, request), Conflict409))
    && log[n].call == Put(key, request)
    && log[n + 1].reply == Found(Stored(request, version))
    && Size(a.codec, request.body) <= a.limits.objectBytes
    && (version.Some? ==> 0 < |version.value| <= 1024)
    && if created then log[n].reply == Created(version) && log[n + 1].call == Fetch(key, version)
       else log[n].reply in {Precondition412, Unclear} && log[n + 1].call == Fetch(key, None)
  }

  lemma {:induction false} CreateSettles(a: Adapter, key: Key, request: Content, attempt: nat, log: seq<Exchange>) returns (n: nat)
    requires attempt < a.limits.putAttempts && Create(a, key, request, attempt, log).Got?
    ensures attempt + n < a.limits.putAttempts
    ensures var out := Create(a, key, request, attempt, log);
      Settled(a, key, request, log, n, out.value.0, out.value.1) && out.rest == log[n + 2..]
    decreases a.limits.putAttempts - attempt
  {
    hide Suffix;
    if log[0].reply == Conflict409 {
      n := CreateSettles(a, key, request, attempt + 1, log[1..]);
      n := n + 1;
      forall i | 0 <= i < n
        ensures log[i] == Exchange(Put(key, request), Conflict409)
      {
        assert i > 0 ==> log[i] == log[1..][i - 1];
      }
    } else {
      n := 0;
    }
  }

  lemma {:induction false} SettledCreates(a: Adapter, key: Key, request: Content, attempt: nat, log: seq<Exchange>, n: nat,
                                          created: bool, version: Version)
    requires attempt + n < a.limits.putAttempts && Settled(a, key, request, log, n, created, version)
    ensures Create(a, key, request, attempt, log) == Got((created, version), log[n + 2..])
    decreases n
  {
    hide Suffix;
    if n > 0 {
      SettledCreates(a, key, request, attempt + 1, log[1..], n - 1, created, version);
    } else {
      assert log[1..][1..] == log[2..];
    }
  }

  /** Exactly when `create` ends well, and what it then reports: a creation when the put was
      acknowledged, content that is already there when it was refused or its response was lost. */
  lemma CreatesExactly(a: Adapter, key: Key, request: Content, log: seq<Exchange>, created: bool, version: Version,
                       rest: seq<Exchange>)
    ensures CreateChecked(a, key, request, log) == Got((created, version), rest) <==>
      exists n :: 0 <= n < a.limits.putAttempts && Settled(a, key, request, log, n, created, version) && rest == log[n + 2..]
  {
    hide Create;
    if CreateChecked(a, key, request, log) == Got((created, version), rest) {
      var n := CreateSettles(a, key, request, 0, log);
    }
    forall n | 0 <= n < a.limits.putAttempts && n + 2 <= |log| && Settled(a, key, request, log, n, created, version)
               && rest == log[n + 2..]
      ensures CreateChecked(a, key, request, log) == Got((created, version), rest)
    {
      SettledCreates(a, key, request, 0, log, n, created, version);
      SettledFits(a, key, request, log, n, created, version);
    }
  }

  lemma SettledFits(a: Adapter, key: Key, request: Content, log: seq<Exchange>, n: nat, created: bool, version: Version)
    requires Settled(a, key, request, log, n, created, version)
    ensures Size(a.codec, request.body) <= a.limits.objectBytes
  {
  }

  /** Once a put has had no clear answer the outcome is never a creation, and nothing but the content
      itself can make it known. */
  lemma UnclearNeverCreates(a: Adapter, key: Key, request: Content, log: seq<Exchange>)
    requires 2 <= |log| && log[0] == Exchange(Put(key, request), Unclear) && log[1].call == Fetch(key, None)
    requires Size(a.codec, request.body) <= a.limits.objectBytes
    ensures var out := CreateChecked(a, key, request, log);
      match log[1].reply
      case Found(stored) =>
        if Size(a.codec, stored.content.body) <= a.limits.objectBytes && ValidVersion(stored.version)
        then if stored.content == request then out == Got((false, stored.version), log[2..]) else out == Stop(ContentConflict)
        else out == Stop(WriteOutcomeUnknown)
      case _ => out == Stop(WriteOutcomeUnknown)
  {
    assert log[1..][1..] == log[2..];
  }

  /** A refused put is settled by reading: the same content is success without a creation, any other
      content is a conflict. */
  lemma RefusedPutCompares(a: Adapter, key: Key, request: Content, log: seq<Exchange>)
    requires 2 <= |log| && log[0] == Exchange(Put(key, request), Precondition412) && log[1].call == Fetch(key, None)
    requires Size(a.codec, request.body) <= a.limits.objectBytes
    requires log[1].reply.Found? ==>
      Size(a.codec, log[1].reply.stored.content.body) <= a.limits.objectBytes && ValidVersion(log[1].reply.stored.version)
    ensures var out := CreateChecked(a, key, request, log);
      match log[1].reply
      case Found(stored) =>
        if stored.content == request then out == Got((false, stored.version), log[2..]) else out == Stop(ContentConflict)
      case Absent => out == Stop(ReadbackMissing)
      case _ => out == Stop(TransportError)
  {
    assert log[1..][1..] == log[2..];
  }

  /** As many conflicts as there are attempts, and no other log, exhaust the retries. */
  lemma {:induction false} ExhaustedExactly(a: Adapter, key: Key, request: Content, attempt: nat, log: seq<Exchange>)
    requires attempt < a.limits.putAttempts
    ensures Create(a, key, request, attempt, log) == Stop(ConditionalRetryExhausted) <==>
      a.limits.putAttempts - attempt <= |log|
      && forall i :: 0 <= i < a.limits.putAttempts - attempt ==> log[i] == Exchange(Put(key, request), Conflict409)
    decreases a.limits.putAttempts - attempt
  {
    hide Suffix;
    if log != [] && log[0] == Exchange(Put(key, request), Conflict409) && attempt + 1 < a.limits.putAttempts {
      ExhaustedExactly(a, key, request, attempt + 1, log[1..]);
      assert log == [log[0]] + log[1..];
    }
  }

  // ---------------------------------------------------------- what a program consumed

  /** None of the first `n` exchanges is a put. */
  predicate OnlyReads(log: seq<Exchange>, n: int) {
    n <= |log| && forall i :: 0 <= i < n ==> !log[i].call.Put?
  }

  function Used<T>(out: Out<T>, log: seq<Exchange>): int
    requires out.Got?
  {
    |log| - |out.rest|
  }

  lemma ReadsThenReads(log: seq<Exchange>, middle: seq<Exchange>, rest: seq<Exchange>)
    requires Suffix(middle, log) && Suffix(rest, middle)
    requires OnlyReads(log, |log| - |middle|) && OnlyReads(middle, |middle| - |rest|)
    ensures Suffix(rest, log) && OnlyReads(log, |log| - |rest|)
  {
    forall i | |log| - |middle| <= i < |log| - |rest|
      ensures !log[i].call.Put?
    {
      assert log[i] == middle[i - (|log| - |middle|)];
    }
  }

  lemma GetReads(a: Adapter, key: Key, version: Version, log: seq<Exchange>)
    requires Get(a, key, version, log).Got?
    ensures OnlyReads(log, Used(Get(a, key, version, log), log))
  {
  }

  lemma ReadFileReads(a: Adapter, key: Key, request: Content, version: Version, log: seq<Exchange>)
    requires ReadFile(a, key, request, version, log).Got?
    ensures OnlyReads(log, Used(ReadFile(a, key, request, version, log), log))
  {
    hide Get, Compare, Suffix, OnlyReads;
    GetReads(a, key, version, log);
    var first := GetSame(a, key, version, request, log);
    if version.Some? {
      GetReads(a, key, None, first.rest);
      ReadsThenReads(log, first.rest, ReadFile(a, key, request, version, log).rest);
    }
  }

  lemma {:induction false} ReadFilesReads(a: Adapter, plan: Plan, i: nat, versions: Versions, log: seq<Exchange>)
    requires i <= |plan.objects| && Covers(versions, plan) && ReadFiles(a, plan, i, versions, log).Got?
    ensures OnlyReads(log, Used(ReadFiles(a, plan, i, versions, log), log))
    decreases |plan.objects| - i
  {
    hide ReadFile, Suffix;
    if i < |plan.objects| {
      var o := plan.objects[i];
      ReadFileReads(a, KeyOf(plan, o.path), o.content, versions[o.path], log);
      var rest := ReadFile(a, KeyOf(plan, o.path), o.content, versions[o.path], log).rest;
      ReadFilesReads(a, plan, i + 1, versions, rest);
      ReadsThenReads(log, rest, ReadFiles(a, plan, i, versions, log).rest);
    }
  }

  lemma {:induction false} ListPagesReads(a: Adapter, id: SnapshotId, k: nat, after: Option<Token>, seen: set<Token>,
                                          listed: map<Path, nat>, log: seq<Exchange>)
    requires k <= a.limits.pages && ListPages(a, id, k, after, seen, listed, log).Got?
    ensures OnlyReads(log, Used(ListPages(a, id, k, after, seen, listed, log), log))
    decreases a.limits.pages - k
  {
    hide AddEntries, UsableToken;
    var page := log[0].reply.page;
    if page.truncated {
      var more := AddEntries(page.entries, listed, a.limits).value;
      ListPagesReads(a, id, k + 1, Some(page.token), seen + {page.token}, more, log[1..]);
      ReadsThenReads(log, log[1..], ListPages(a, id, k, after, seen, listed, log).rest);
    }
  }

  lemma CheckInventoryReads(a: Adapter, plan: Plan, manifest: Option<Content>, log: seq<Exchange>)
    requires CheckInventory(a, plan, manifest, log).Got?
    ensures OnlyReads(log, Used(CheckInventory(a, plan, manifest, log), log))
  {
    hide ListPages, Inventoried;
    ListPagesReads(a, IdOf(plan), 0, None, {}, map[], log);
  }

  lemma {:induction false} FetchFilesReads(a: Adapter, id: SnapshotId, doc: Manifest, i: nat, files: seq<FrozenObject>,
                                           total: nat, log: seq<Exchange>)
    requires i <= |doc.files| && FetchFiles(a, id, doc, i, files, total, log).Got?
    ensures OnlyReads(log, Used(FetchFiles(a, id, doc, i, files, total, log), log))
    decreases |doc.files| - i
  {
    hide Suffix, FetchFile;
    if i < |doc.files| {
      var record := doc.files[i];
      FetchFileReads(a, id, doc.batch, record, files, total, log);
      var item := FetchFile(a, id, doc.batch, record, files, total, log);
      FetchFilesReads(a, id, doc, i + 1, files + [item.value], total + record.info.size, item.rest);
      ReadsThenReads(log, item.rest, FetchFiles(a, id, doc, i, files, total, log).rest);
    }
  }

  lemma FetchFileReads(a: Adapter, id: SnapshotId, batch: string, record: FileRecord, files: seq<FrozenObject>, total: nat,
                       log: seq<Exchange>)
    requires FetchFile(a, id, batch, record, files, total, log).Got?
    ensures OnlyReads(log, Used(FetchFile(a, id, batch, record, files, total, log), log))
  {
    hide Get, Suffix, OnlyReads;
    var key := Key(a.destination, id, record.info.path);
    GetReads(a, key, record.version, log);
  }

  lemma ReadBackReads(a: Adapter, plan: Plan, versions: Versions, marker: Stored, log: seq<Exchange>)
    requires Covers(versions, plan) && ReadBack(a, plan, versions, marker, log).Got?
    ensures OnlyReads(log, Used(ReadBack(a, plan, versions, marker, log), log))
  {
    hide ReadFiles, CheckInventory, Suffix, OnlyReads, GetSame, KeyOf;
    ReadFilesReads(a, plan, 0, versions, log);
    var read := ReadFiles(a, plan, 0, versions, log);
    var confirmed := ConfirmMarker(a, KeyOf(plan, ManifestFile), marker, read.rest);
    ConfirmMarkerReads(a, KeyOf(plan, ManifestFile), marker, read.rest);
    CheckInventoryReads(a, plan, Some(marker.content), confirmed.rest);
    var out := ReadBack(a, plan, versions, marker, log);
    ReadsThenReads(log, read.rest, confirmed.rest);
    ReadsThenReads(log, confirmed.rest, out.rest);
  }

  lemma ConfirmMarkerReads(a: Adapter, key: Key, marker: Stored, log: seq<Exchange>)
    requires ConfirmMarker(a, key, marker, log).Got?
    ensures OnlyReads(log, Used(ConfirmMarker(a, key, marker, log), log))
  {
    hide Get, Compare, Suffix, OnlyReads;
    GetReads(a, key, marker.version, log);
    var first := GetSame(a, key, marker.version, marker.content, log);
    GetReads(a, key, None, first.rest);
    ReadsThenReads(log, first.rest, ConfirmMarker(a, key, marker, log).rest);
  }

  lemma ReadSnapshotReads(a: Adapter, id: SnapshotId, log: seq<Exchange>)
    requires ReadSnapshot(a, id, log).Got?
    ensures OnlyReads(log, Used(ReadSnapshot(a, id, log), log))
  {
    hide Get, FetchFiles, ReadBack, ValidPlan, ManifestFits, ManifestOf, Covers, Suffix, OnlyReads, Validate;
    var got := Get(a, Key(a.destination, id, ManifestFile), None, log);
    var marker := got.value.value;
    var doc := marker.content.body.doc;
    var fetched := FetchFiles(a, id, doc, 0, [], Size(a.codec, marker.content.body), got.rest);
    var plan := Plan(a.destination, doc.batch, fetched.value, a.limits);
    GetReads(a, Key(a.destination, id, ManifestFile), None, log);
    FetchFilesReads(a, id, doc, 0, [], Size(a.codec, marker.content.body), got.rest);
    ReadBackReads(a, plan, VersionsOf(doc.files), marker, fetched.rest);
    ReadsThenReads(log, got.rest, fetched.rest);
    ReadsThenReads(log, fetched.rest, ReadSnapshot(a, id, log).rest);
  }

  // --------------------------------------------------------- what a publisher reports

  /** Among the first `n` exchanges a put of the key was acknowledged. */
  predicate MadeIn(log: seq<Exchange>, n: int, key: Key) {
    exists i :: 0 <= i < n && i < |log| && Makes(log[i], key)
  }

  predicate Makes(x: Exchange, key: Key) {
    x.call.Put? && x.call.key == key && x.reply.Created?
  }

  lemma MadeSplits(log: seq<Exchange>, middle: seq<Exchange>, rest: seq<Exchange>, key: Key)
    requires Suffix(middle, log) && Suffix(rest, middle)
    ensures Suffix(rest, log)
    ensures MadeIn(log, |log| - |rest|, key) <==> MadeIn(log, |log| - |middle|, key) || MadeIn(middle, |middle| - |rest|, key)
  {
    SuffixTransitive(rest, middle, log);
    var p := |log| - |middle|;
    hide Makes, Suffix;
    SuffixItems(middle, log);
    if MadeIn(log, |log| - |rest|, key) {
      var i :| 0 <= i < |log| - |rest| && i < |log| && Makes(log[i], key);
      assert i >= p ==> Makes(middle[i - p], key);
    }
    if MadeIn(middle, |middle| - |rest|, key) {
      var j :| 0 <= j < |middle| - |rest| && j < |middle| && Makes(middle[j], key);
      assert Makes(log[p + j], key);
    }
  }

  lemma SuffixItems(rest: seq<Exchange>, log: seq<Exchange>)
    requires Suffix(rest, log)
    ensures |rest| <= |log| && forall j :: 0 <= j < |rest| ==> rest[j] == log[|log| - |rest| + j]
  {
  }

  lemma ReadsMakeNothing(log: seq<Exchange>, n: int, key: Key)
    requires OnlyReads(log, n)
    ensures !MadeIn(log, n, key)
  {
  }

  lemma CreateMakes(a: Adapter, key: Key, request: Content, log: seq<Exchange>, other: Key)
    requires CreateChecked(a, key, request, log).Got?
    ensures var out := CreateChecked(a, key, request, log);
      MadeIn(log, Used(out, log), other) <==> other == key && out.value.0
  {
    hide Create, Suffix;
    var n := CreateSettles(a, key, request, 0, log);
    assert log[n].call == Put(key, request) && (CreateChecked(a, key, request, log).value.0 ==> Makes(log[n], key));
  }

  lemma {:induction false} CreateAllMakes(a: Adapter, plan: Plan, i: nat, versions: Versions, log: seq<Exchange>, key: Key)
    requires i <= |plan.objects| && CreateAll(a, plan, i, versions, log).Got?
    requires forall j :: 0 <= j < |plan.objects| ==> KeyOf(plan, plan.objects[j].path) != key
    ensures !MadeIn(log, Used(CreateAll(a, plan, i, versions, log), log), key)
    decreases |plan.objects| - i
  {
    hide CreateChecked, KeyOf, Suffix, MadeIn;
    if i < |plan.objects| {
      var o := plan.objects[i];
      var made := CreateChecked(a, KeyOf(plan, o.path), o.content, log);
      CreateMakes(a, KeyOf(plan, o.path), o.content, log, key);
      CreateAllMakes(a, plan, i + 1, versions[o.path := made.value.1], made.rest, key);
      MadeSplits(log, made.rest, CreateAll(a, plan, i, versions, log).rest, key);
    } else {
      ReadsMakeNothing(log, 0, key);
    }
  }

  lemma DepositMakes(a: Adapter, plan: Plan, observations: string, log: seq<Exchange>)
    requires DistinctPaths(plan.objects) && Deposit(a, plan, observations, log).Got?
    ensures var out := Deposit(a, plan, observations, log);
      out.value == SnapshotCreated <==> MadeIn(log, Used(out, log), KeyOf(plan, ManifestFile))
  {
    var key := KeyOf(plan, ManifestFile);
    hide CreateAll, ReadFiles, CheckInventory, ManifestOf, ManifestFits, CreateChecked, ReadSnapshot, Suffix, MadeIn, OnlyReads;
    var created := CreateAll(a, plan, 0, map[], log);
    CreateAllMakes(a, plan, 0, map[], log, key);
    var read := ReadFiles(a, plan, 0, created.value, created.rest);
    ReadFilesReads(a, plan, 0, created.value, created.rest);
    ReadsMakeNothing(created.rest, Used(read, created.rest), key);
    var checked := CheckInventory(a, plan, None, read.rest);
    CheckInventoryReads(a, plan, None, read.rest);
    ReadsMakeNothing(read.rest, Used(checked, read.rest), key);
    var manifest := ManifestOf(plan, created.value, observations);
    var made := CreateChecked(a, key, manifest, checked.rest);
    CreateMakes(a, key, manifest, checked.rest, key);
    var last := ReadSnapshot(a, IdOf(plan), made.rest);
    ReadSnapshotReads(a, IdOf(plan), made.rest);
    ReadsMakeNothing(made.rest, Used(last, made.rest), key);
    MadeSplits(checked.rest, made.rest, last.rest, key);
    MadeSplits(read.rest, checked.rest, last.rest, key);
    MadeSplits(created.rest, read.rest, last.rest, key);
    MadeSplits(log, created.rest, last.rest, key);
  }

  /** A publisher reports a created snapshot exactly when its own put of the manifest was
      acknowledged, whatever else it was answered. */
  lemma StatusExactly(a: Adapter, plan: Plan, log: seq<Exchange>)
    requires DistinctPaths(plan.objects) && Publish(a, plan, log).Got?
    ensures var out := Publish(a, plan, log);
      out.value == SnapshotCreated <==> MadeIn(log, Used(out, log), KeyOf(plan, ManifestFile))
  {
    var key := KeyOf(plan, ManifestFile);
    hide Get, ReadSnapshot, Deposit, TotalSize, WithinObjectLimit, Suffix, MadeIn, OnlyReads, KeyOf;
    var existing := Get(a, key, None, log);
    GetReads(a, key, None, log);
    ReadsMakeNothing(log, Used(existing, log), key);
    if existing.value.Some? {
      var last := ReadSnapshot(a, IdOf(plan), existing.rest);
      ReadSnapshotReads(a, IdOf(plan), existing.rest);
      ReadsMakeNothing(existing.rest, Used(last, existing.rest), key);
      MadeSplits(log, existing.rest, last.rest, key);
    } else {
      var observations := Validate(a.codec, plan.objects, Min(plan.limits.expandedBytes, a.limits.expandedBytes)).value;
      DepositMakes(a, plan, observations, existing.rest);
      MadeSplits(log, existing.rest, Publish(a, plan, log).rest, key);
    }
  }

  // ------------------------------------------------------------------ over whole runs

  /** From `p` on the client's log is a call of `create` that reported a creation. */
  ghost predicate ReportsAt(c: Client, p: nat, key: Key) {
    p <= |c.log| && exists request :: Reports(c.adapter, key, request, c.log[p..])
  }

  predicate Reports(a: Adapter, key: Key, request: Content, log: seq<Exchange>) {
    CreateChecked(a, key, request, log).Got? && CreateChecked(a, key, request, log).value.0
  }

  lemma ReportIsCreation(c: Client, p: nat, key: Key) returns (n: nat)
    requires ReportsAt(c, p, key)
    ensures Fleet.Creates(c, p + n, key)
    ensures forall i :: p <= i < p + n ==> c.log[i].call.Put? && c.log[i].reply == Conflict409
  {
    var request :| Reports(c.adapter, key, request, c.log[p..]);
    n := CreateSettles(c.adapter, key, request, 0, c.log[p..]);
    var log := c.log[p..];
    forall i | p <= i < p + n
      ensures c.log[i].call.Put? && c.log[i].reply == Conflict409
    {
      assert log[i - p] == c.log[i];
    }
    assert log[n] == c.log[p + n];
  }

  /** Over every run at most one call of `create` for a key reports a creation: two reports are by
      one client, and end in the same put. */
  lemma OneReportPerKey(s: State, events: seq<Event>, u: nat, p: nat, v: nat, q: nat, key: Key) returns (i: nat, j: nat)
    requires Initial(s) && u in Run(s, events).clients && v in Run(s, events).clients
    requires ReportsAt(Run(s, events).clients[u], p, key) && ReportsAt(Run(s, events).clients[v], q, key)
    ensures u == v && p + i == q + j && Fleet.Creates(Run(s, events).clients[u], p + i, key)
    ensures forall k :: p <= k < p + i ==> Run(s, events).clients[u].log[k].reply == Conflict409
    ensures forall k :: q <= k < q + j ==> Run(s, events).clients[v].log[k].reply == Conflict409
  {
    hide Run, ReportsAt;
    i := ReportIsCreation(Run(s, events).clients[u], p, key);
    j := ReportIsCreation(Run(s, events).clients[v], q, key);
    AtMostOneCreatedPerKey(s, events);
  }

  predicate ReportsCreated(c: Client) {
    c.task.Publishes? && Publish(c.adapter, c.task.plan, c.log).Got?
    && Publish(c.adapter, c.task.plan, c.log).value == SnapshotCreated
  }

  /** Over every run at most one publisher of a snapshot ends with SNAPSHOT_CREATED. */
  lemma OnePublisherCreates(s: State, events: seq<Event>, u: nat, v: nat)
    requires Initial(s) && u in Run(s, events).clients && v in Run(s, events).clients
    requires var t := Run(s, events);
      && ReportsCreated(t.clients[u]) && ReportsCreated(t.clients[v])
      && t.clients[u].task.plan.destination == t.clients[v].task.plan.destination
      && IdOf(t.clients[u].task.plan) == IdOf(t.clients[v].task.plan)
    ensures u == v
  {
    hide Run, Publish, Suffix;
    AtMostOneCreatedPerKey(s, events);
    ManifestsAlwaysBacked(s, events);
    var t := Run(s, events);
    var i := ManifestPut(t.clients[u]);
    var j := ManifestPut(t.clients[v]);
  }

  lemma MakesIsCreation(c: Client, n: nat, key: Key)
    requires n < |c.log| && Makes(c.log[n], key)
    ensures Fleet.Creates(c, n, key)
  {
  }

  lemma ManifestPut(c: Client) returns (i: nat)
    requires ReportsCreated(c) && ValidPlan(c.task.plan)
    ensures Fleet.Creates(c, i, KeyOf(c.task.plan, ManifestFile))
  {
    hide Publish, Suffix, KeyOf, IdOf, OrderedMaterial;
    var plan := c.task.plan;
    var key := KeyOf(plan, ManifestFile);
    PlanPathsDistinct(plan.objects);
    StatusExactly(c.adapter, plan, c.log);
    assert MadeIn(c.log, Used(Publish(c.adapter, plan, c.log), c.log), key);
    var n :| 0 <= n < |c.log| && Makes(c.log[n], key);
    MakesIsCreation(c, n, key);
    i := n;
  }
}
