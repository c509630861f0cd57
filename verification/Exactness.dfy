/** What the inventory check of `snapshot.py` adds to a complete snapshot: when a publisher or a
    reader accepts, there was nothing else under the prefix when its last listing began. Listings
    are read page by page while others write, so this is the moment that can be promised. */
module Exactness {
  import opened Common
  import opened SnapshotTypes
  import opened Listing
  import opened Snapshot
  import opened SnapshotLog
  import opened S3Adapter
  import opened Fleet

  // ------------------------------------------------- where the last listing begins

  /** From `p` on the log is a listing of exactly the plan's files and its manifest. */
  predicate ListedFrom(a: Adapter, plan: Plan, manifest: Content, log: seq<Exchange>, p: nat, rest: seq<Exchange>) {
    && p <= |log|
    && var out := ListSnapshot(a, IdOf(plan), log[p..]);
    out.Got? && out.rest == rest && Inventoried(a, plan, Some(manifest), out.value)
  }

  lemma EarlierListedFrom(a: Adapter, plan: Plan, manifest: Content, tail: seq<Exchange>, log: seq<Exchange>, p: nat,
                          rest: seq<Exchange>) returns (q: nat)
    requires Suffix(tail, log) && ListedFrom(a, plan, manifest, tail, p, rest)
    ensures ListedFrom(a, plan, manifest, log, q, rest)
  {
    hide ListPages, Inventoried;
    q := |log| - |tail| + p;
    assert log[q..] == log[|log| - |tail|..][p..];
  }

  lemma ReadBackLists(a: Adapter, plan: Plan, versions: Versions, marker: Stored, log: seq<Exchange>) returns (p: nat)
    requires Covers(versions, plan) && ReadBack(a, plan, versions, marker, log).Got?
    ensures ListedFrom(a, plan, marker.content, log, p, ReadBack(a, plan, versions, marker, log).rest)
  {
    hide ReadFiles, ConfirmMarker, ListPages, Inventoried;
    var read := ReadFiles(a, plan, 0, versions, log);
    var confirmed := ConfirmMarker(a, KeyOf(plan, ManifestFile), marker, read.rest);
    var out := ReadBack(a, plan, versions, marker, log);
    assert confirmed.rest[0..] == confirmed.rest;
    assert ListedFrom(a, plan, marker.content, confirmed.rest, 0, out.rest);
    p := EarlierListedFrom(a, plan, marker.content, confirmed.rest, read.rest, 0, out.rest);
    p := EarlierListedFrom(a, plan, marker.content, read.rest, log, p, out.rest);
  }

  lemma ReadSnapshotLists(a: Adapter, id: SnapshotId, log: seq<Exchange>) returns (p: nat)
    requires ReadSnapshot(a, id, log).Got?
    ensures var out := ReadSnapshot(a, id, log);
      ListedFrom(a, out.value.plan, out.value.manifest, log, p, out.rest)
  {
    hide Get, FetchFiles, ReadBack, ValidPlan, ManifestFits, ManifestOf, ListedFrom, Covers, Suffix;
    var got := Get(a, Key(a.destination, id, ManifestFile), None, log);
    var marker := got.value.value;
    var doc := marker.content.body.doc;
    var fetched := FetchFiles(a, id, doc, 0, [], Size(a.codec, marker.content.body), got.rest);
    var plan := Plan(a.destination, doc.batch, fetched.value, a.limits);
    var out := ReadSnapshot(a, id, log);
    assert out == ReadBack(a, plan, VersionsOf(doc.files), marker, fetched.rest);
    ReadBackKeeps(a, plan, VersionsOf(doc.files), marker, fetched.rest);
    p := ReadBackLists(a, plan, VersionsOf(doc.files), marker, fetched.rest);
    p := EarlierListedFrom(a, plan, marker.content, fetched.rest, got.rest, p, out.rest);
    p := EarlierListedFrom(a, plan, marker.content, got.rest, log, p, out.rest);
  }

  lemma ReadBackKeeps(a: Adapter, plan: Plan, versions: Versions, marker: Stored, log: seq<Exchange>)
    requires Covers(versions, plan) && ReadBack(a, plan, versions, marker, log).Got?
    ensures ReadBack(a, plan, versions, marker, log).value == Verified(plan, marker.content, marker.version)
  {
  }

  /** What `ReadSnapshot` returns is what is stored under the marker. */
  lemma ManifestIsStored(b: Bucket, a: Adapter, id: SnapshotId, log: seq<Exchange>)
    requires Consistent(b, log) && ReadSnapshot(a, id, log).Got?
    ensures var key := Key(a.destination, id, ManifestFile);
      key in b && ReadSnapshot(a, id, log).value.manifest == b[key].content
  {
    hide FetchFiles, ReadBack, ValidPlan, ManifestFits, ManifestOf, Covers, Suffix, Get, Consistent;
    GetLearns(b, a, Key(a.destination, id, ManifestFile), None, log);
    var got := Get(a, Key(a.destination, id, ManifestFile), None, log);
    var marker := got.value.value;
    var doc := marker.content.body.doc;
    var fetched := FetchFiles(a, id, doc, 0, [], Size(a.codec, marker.content.body), got.rest);
    var plan := Plan(a.destination, doc.batch, fetched.value, a.limits);
    ReadBackKeeps(a, plan, VersionsOf(doc.files), marker, fetched.rest);
  }

  /** A publisher that succeeds ends by reading its snapshot back. */
  lemma PublishReads(a: Adapter, plan: Plan, log: seq<Exchange>) returns (q: nat)
    requires Publish(a, plan, log).Got?
    ensures q <= |log| && a.destination == plan.destination
    ensures var out := ReadSnapshot(a, IdOf(plan), log[q..]);
      out.Got? && out.rest == Publish(a, plan, log).rest && out.value.plan.objects == plan.objects
  {
    hide Get, ReadSnapshot, Deposit, TotalSize, WithinObjectLimit, Suffix;
    var existing := Get(a, KeyOf(plan, ManifestFile), None, log);
    SuffixIs(existing.rest, log);
    q := |log| - |existing.rest|;
    if existing.value.None? {
      var observations := Validate(a.codec, plan.objects, Min(plan.limits.expandedBytes, a.limits.expandedBytes)).value;
      var m := DepositReads(a, plan, observations, existing.rest);
      assert log[q..][m..] == log[q + m..];
      q := q + m;
    }
  }

  lemma SuffixIs(rest: seq<Exchange>, log: seq<Exchange>)
    requires Suffix(rest, log)
    ensures |rest| <= |log| && rest == log[|log| - |rest|..]
  {
  }

  lemma DepositReads(a: Adapter, plan: Plan, observations: string, log: seq<Exchange>) returns (q: nat)
    requires Deposit(a, plan, observations, log).Got?
    ensures q <= |log|
    ensures var out := ReadSnapshot(a, IdOf(plan), log[q..]);
      out.Got? && out.rest == Deposit(a, plan, observations, log).rest && out.value.plan.objects == plan.objects
  {
    hide CreateAll, ReadFiles, CheckInventory, ManifestOf, ManifestFits, CreateChecked, ReadSnapshot, Suffix;
    var created := CreateAll(a, plan, 0, map[], log);
    var read := ReadFiles(a, plan, 0, created.value, created.rest);
    var checked := CheckInventory(a, plan, None, read.rest);
    var made := CreateChecked(a, KeyOf(plan, ManifestFile), ManifestOf(plan, created.value, observations), checked.rest);
    SuffixIs(created.rest, log);
    SuffixIs(read.rest, created.rest);
    SuffixIs(checked.rest, read.rest);
    SuffixIs(made.rest, checked.rest);
    q := |log| - |made.rest|;
    assert log[q..] == made.rest;
  }

  // --------------------------------------------------------- what its pages covered

  lemma {:induction false} AskedAt(a: Adapter, id: SnapshotId, after: Option<Token>, log: seq<Exchange>, i: nat)
    requires AskedInTurn(a, id, after, log) && i < |log|
    ensures log[i].reply.OnePage? && log[i].call.ListPage?
    ensures log[i].call.destination == a.destination && log[i].call.snapshot == id
    ensures Opens(log[i]) <==> i == 0 && after.None?
    decreases |log|
  {
    if i > 0 {
      AskedAt(a, id, Some(log[0].reply.page.token), log[1..], i - 1);
    }
  }

  predicate AllHonest(codec: Codec, b: Bucket, log: seq<Exchange>) {
    forall i :: 0 <= i < |log| ==> Honest(codec, b, log[i])
  }

  /** Pages that skip nothing, asked for in turn up to one that ends, hold every stored key. */
  lemma {:induction false} NothingMissed(a: Adapter, id: SnapshotId, b: Bucket, after: Option<Token>, log: seq<Exchange>, path: Path)
    requires log != [] && AskedInTurn(a, id, after, log) && AllHonest(a.codec, b, log)
    requires !PagesOf(log)[|PagesOf(log)| - 1].truncated
    requires path in Listed(a.codec, b, a.destination, id) && Behind(after, path)
    ensures (path, Listed(a.codec, b, a.destination, id)[path]) in Entries(PagesOf(log))
    decreases |log|
  {
    hide Listed, Before;
    var page := log[0].reply.page;
    assert Honest(a.codec, b, log[0]);
    assert OnPage(Listed(a.codec, b, a.destination, id), path, page);
    if (path, Listed(a.codec, b, a.destination, id)[path]) !in page.entries {
      assert PagesOf(log) == [page] + PagesOf(log[1..]);
      PagesCounted(a, id, Some(page.token), log[1..]);
      HonestTail(a.codec, b, log);
      NothingMissed(a, id, b, Some(page.token), log[1..], path);
    }
  }

  lemma HonestTail(codec: Codec, b: Bucket, log: seq<Exchange>)
    requires AllHonest(codec, b, log) && log != []
    ensures AllHonest(codec, b, log[1..])
  {
    hide Honest;
  }

  /** The accepted listing, against the store it was answered from: every key is in it. */
  lemma AcceptedHoldsAll(a: Adapter, id: SnapshotId, b: Bucket, log: seq<Exchange>)
    requires ListSnapshot(a, id, log).Got? && ListSnapshot(a, id, log).rest == [] && AllHonest(a.codec, b, log)
    ensures var files := ListSnapshot(a, id, log).value;
      var listed := Listed(a.codec, b, a.destination, id);
      forall path | path in listed :: path in files && files[path] == listed[path]
  {
    hide ListPages, EndsAt, AddEntries, Entries, Listed, AllHonest, Suffix;
    var files := ListSnapshot(a, id, log).value;
    NothingInHand(a);
    var n := ListedMeans(a, id, [], {}, map[], log);
    assert log[..n] == log;
    var pages := PagesOf(log);
    assert [] + pages == pages && pages[..|pages|] == pages;
    LastPageEnds(a, log);
    CollectsExactly(Entries(pages), map[], files, a.limits);
    var listed := Listed(a.codec, b, a.destination, id);
    forall path | path in listed
      ensures path in files && files[path] == listed[path]
    {
      NothingMissed(a, id, b, None, log, path);
      var i :| 0 <= i < |Entries(pages)| && Entries(pages)[i] == (path, listed[path]);
    }
  }

  lemma LastPageEnds(a: Adapter, log: seq<Exchange>)
    requires EndsAt(PagesOf(log), |PagesOf(log)|, a.limits)
    ensures PagesOf(log) != [] && !PagesOf(log)[|PagesOf(log)| - 1].truncated
  {
    hide Continued;
  }

  // --------------------------------------------------------------------- exactness

  /** Complete, with nothing else under the prefix: the listing is the plan's files and the manifest. */
  predicate Exact(codec: Codec, b: Bucket, plan: Plan) {
    && Complete(codec, b, plan)
    && Listed(codec, b, plan.destination, IdOf(plan))
         == PayloadSizes(plan.objects)[ManifestFile := Size(codec, b[KeyOf(plan, ManifestFile)].content.body)]
  }

  /** The history kept of a client's latest listing is true of its log and of the stores since. */
  ghost predicate WatchOk(codec: Codec, b: Bucket, c: Client) {
    match c.watch
    case None => forall i :: 0 <= i < |c.log| ==> !Opens(c.log[i])
    case Some(w) =>
      && w.at < |c.log| && Opens(c.log[w.at]) && (forall i :: w.at < i < |c.log| ==> !Opens(c.log[i]))
      && Grows(w.store, b) && Consistent(w.store, c.log[..w.at])
      && (w.truthful ==> forall i :: w.at <= i < |c.log| && c.log[i].call.ListPage? ==> Honest(codec, w.store, c.log[i]))
  }

  /** A client whose program has ended has nothing left in its log. */
  predicate Spent(c: Client) {
    match c.task
    case Publishes(plan) => Publish(c.adapter, plan, c.log).Got? ==> Publish(c.adapter, plan, c.log).rest == []
    case Reads(id) => ReadSnapshot(c.adapter, id, c.log).Got? ==> ReadSnapshot(c.adapter, id, c.log).rest == []
  }

  ghost predicate Watchful(s: State) {
    forall who | who in s.clients :: WatchOk(s.codec, s.bucket, s.clients[who]) && Spent(s.clients[who])
  }

  lemma GrowsTransitive(a: Bucket, b: Bucket, c: Bucket)
    requires Grows(a, b) && Grows(b, c)
    ensures Grows(a, c)
  {
  }

  lemma WatchKept(codec: Codec, b: Bucket, b': Bucket, c: Client)
    requires WatchOk(codec, b, c) && Grows(b, b')
    ensures WatchOk(codec, b', c)
  {
    hide Honest, Consistent;
    if c.watch.Some? {
      GrowsTransitive(c.watch.value.store, b, b');
    }
  }

  /** A page that skips nothing of a store skips nothing of what that store held before. */
  lemma HonestBefore(codec: Codec, was: Bucket, b: Bucket, x: Exchange)
    requires Grows(was, b) && Honest(codec, b, x)
    ensures Honest(codec, was, x)
  {
    hide Behind;
    var earlier := Listed(codec, was, x.call.destination, x.call.snapshot);
    var now := Listed(codec, b, x.call.destination, x.call.snapshot);
    forall path | path in earlier && Behind(x.call.after, path)
      ensures OnPage(earlier, path, x.reply.page)
    {
      var key := Key(x.call.destination, x.call.snapshot, path);
      assert key in was && key in b && key.path in now && earlier[path] == now[path];
      assert OnPage(now, path, x.reply.page);
    }
  }

  lemma WatchExtended(codec: Codec, b: Bucket, c: Client, x: Exchange)
    requires WatchOk(codec, b, c) && Consistent(b, c.log)
    ensures WatchOk(codec, b, Client(c.adapter, c.task, c.log + [x], Watched(codec, b, c, x)))
  {
    hide Honest, Consistent;
    var log := c.log + [x];
    assert log[|c.log|] == x && log[..|c.log|] == c.log;
    if !Opens(x) && c.watch.Some? {
      var w := c.watch.value;
      assert log[..w.at] == c.log[..w.at] && log[w.at] == c.log[w.at];
      if x.call.ListPage? && Honest(codec, b, x) {
        HonestBefore(codec, w.store, b, x);
      }
    }
  }

  lemma SpentExtended(c: Client, x: Exchange, watch: Option<Watch>)
    requires Pending(c).Some?
    ensures Spent(Client(c.adapter, c.task, c.log + [x], watch))
  {
    hide Publish, ReadSnapshot;
    match c.task
    case Publishes(plan) => PublishExtends(c.adapter, plan, c.log, [x]);
    case Reads(id) => ReadSnapshotExtends(c.adapter, id, c.log, [x]);
  }

  lemma NothingSpent(c: Client)
    requires c.log == []
    ensures Spent(c)
  {
    hide Publish, ReadSnapshot;
  }

  lemma StepKeepsWatchful(s: State, e: Event)
    requires Inv(s) && Watchful(s)
    ensures Watchful(Apply(s, e))
  {
    hide Pending, WatchOk, Spent, Serve, Watched, Sound, Agrees;
    StepKeeps(s, e);
    var t := Apply(s, e);
    forall who | who in t.clients
      ensures WatchOk(t.codec, t.bucket, t.clients[who]) && Spent(t.clients[who])
    {
      if who in s.clients && t.clients[who] == s.clients[who] {
        WatchKept(s.codec, s.bucket, t.bucket, s.clients[who]);
      } else if e.Joins? {
        NothingSpent(t.clients[who]);
        NothingWatched(t.codec, t.bucket, t.clients[who]);
      } else {
        var c := s.clients[who];
        var x := Exchange(Pending(c).value, Serve(s.codec, s.bucket, Pending(c).value, e.fate, e.version).1);
        WatchExtended(s.codec, s.bucket, c, x);
        WatchKept(s.codec, s.bucket, t.bucket, t.clients[who]);
        SpentExtended(c, x, t.clients[who].watch);
      }
    }
  }

  lemma NothingWatched(codec: Codec, b: Bucket, c: Client)
    requires c.log == [] && c.watch == None
    ensures WatchOk(codec, b, c)
  {
  }

  lemma {:induction false} AlwaysWatchful(s: State, events: seq<Event>)
    requires Initial(s)
    ensures Inv(Run(s, events)) && Watchful(Run(s, events)) && Run(s, events).codec == s.codec
  {
    ManifestsAlwaysBacked(s, events);
    if events != [] {
      var before := events[..|events| - 1];
      AlwaysWatchful(s, before);
      StepKeepsWatchful(Run(s, before), events[|events| - 1]);
    }
  }

  /** The store a client's latest listing began in is one the run went through. */
  lemma {:induction false} WatchIsAMoment(s: State, events: seq<Event>, who: nat) returns (k: nat)
    requires Initial(s) && who in Run(s, events).clients && Run(s, events).clients[who].watch.Some?
    ensures k <= |events| && Run(s, events[..k]).bucket == Run(s, events).clients[who].watch.value.store
  {
    hide Pending, Serve, Honest;
    var before, e := events[..|events| - 1], events[|events| - 1];
    var u := Run(s, before);
    if who in u.clients && u.clients[who].watch.Some?
       && u.clients[who].watch.value.store == Run(s, events).clients[who].watch.value.store {
      k := WatchIsAMoment(s, before, who);
      assert before[..k] == events[..k];
    } else {
      k := |events| - 1;
    }
  }

  lemma SuffixAt(log: seq<Exchange>, q: nat, p: nat)
    requires q <= |log| && p <= |log[q..]|
    ensures log[q..][p..] == log[q + p..]
  {
  }

  lemma ConsistentFrom(b: Bucket, log: seq<Exchange>, q: nat)
    requires Consistent(b, log) && q <= |log|
    ensures Consistent(b, log[q..])
  {
    hide Agrees;
  }

  /** A listing that ends the log is the latest one the client began. */
  lemma ListingOpens(codec: Codec, b: Bucket, c: Client, id: SnapshotId, p: nat)
    requires WatchOk(codec, b, c) && p <= |c.log|
    requires var out := ListSnapshot(c.adapter, id, c.log[p..]); out.Got? && out.rest == []
    ensures c.watch.Some? && c.watch.value.at == p
    ensures forall i :: p <= i < |c.log| ==> c.log[i].call.ListPage?
  {
    hide ListPages, EndsAt, Collected, Honest, Consistent, Suffix, Grows;
    var log := c.log[p..];
    NothingInHand(c.adapter);
    var n := ListedMeans(c.adapter, id, [], {}, map[], log);
    assert log[..n] == log;
    forall i | p <= i < |c.log|
      ensures c.log[i].call.ListPage? && (Opens(c.log[i]) <==> i == p)
    {
      AskedAt(c.adapter, id, None, log, i - p);
      assert log[i - p] == c.log[i];
    }
    assert Opens(c.log[p]);
  }

  /** What a client was told before and during its latest listing agrees with the store it began in. */
  lemma ConsistentThrough(codec: Codec, b: Bucket, c: Client)
    requires WatchOk(codec, b, c) && c.watch.Some?
    requires forall i :: c.watch.value.at <= i < |c.log| ==> c.log[i].call.ListPage?
    ensures Consistent(c.watch.value.store, c.log)
  {
    hide Honest, Grows;
    var w := c.watch.value;
    forall i | 0 <= i < |c.log|
      ensures Agrees(w.store, c.log[i])
    {
      if i < w.at {
        assert c.log[..w.at][i] == c.log[i] && Agrees(w.store, c.log[..w.at][i]);
      }
    }
  }

  lemma PagesHonest(codec: Codec, b: Bucket, c: Client)
    requires WatchOk(codec, b, c) && c.watch.Some? && c.watch.value.truthful
    requires forall i :: c.watch.value.at <= i < |c.log| ==> c.log[i].call.ListPage?
    ensures AllHonest(codec, c.watch.value.store, c.log[c.watch.value.at..])
  {
    hide Honest, Grows, Consistent;
  }

  /** A complete snapshot all of whose keys are in the demanded listing has exactly those keys. */
  lemma ExactOf(a: Adapter, b: Bucket, plan: Plan, files: map<Path, nat>)
    requires ValidPlan(plan) && Complete(a.codec, b, plan)
    requires Inventoried(a, plan, Some(b[KeyOf(plan, ManifestFile)].content), files)
    requires var listed := Listed(a.codec, b, plan.destination, IdOf(plan));
      forall path | path in listed :: path in files && files[path] == listed[path]
    ensures Exact(a.codec, b, plan)
  {
    hide Listed, PayloadSizes, Complete, ValidPlan, KeyOf, IdOf, Size;
    var listed := Listed(a.codec, b, plan.destination, IdOf(plan));
    forall path | path in files
      ensures path in listed
    {
      FileStored(a.codec, b, plan, path);
    }
    assert listed == files;
  }

  lemma FileStored(codec: Codec, b: Bucket, plan: Plan, path: Path)
    requires ValidPlan(plan) && Complete(codec, b, plan) && (path == ManifestFile || path in PayloadSizes(plan.objects))
    ensures path in Listed(codec, b, plan.destination, IdOf(plan))
  {
    PlanPathsDistinct(plan.objects);
    hide Listed, PayloadSizes, Held, OrderedMaterial, DistinctPaths, Stamps, Size, ManifestOf;
    if path != ManifestFile {
      HeldIsListed(codec, b, plan, path);
    }
    ListedAt(codec, b, plan, path);
  }

  /** An accepted reading at the end of a client's log, against the store its last listing began in. */
  lemma AcceptedWasExact(codec: Codec, b: Bucket, c: Client, id: SnapshotId, q: nat, plan: Plan)
    requires ClientOk(codec, b, c) && WatchOk(codec, b, c) && q <= |c.log|
    requires var out := ReadSnapshot(c.adapter, id, c.log[q..]);
      out.Got? && out.rest == [] && plan == out.value.plan
    ensures c.watch.Some? && Complete(codec, c.watch.value.store, plan)
    ensures c.watch.value.truthful ==> Exact(codec, c.watch.value.store, plan)
  {
    hide ReadSnapshot, ListPages, Consistent, Honest, Complete, Listed, Inventoried, Exact, ValidPlan, WatchOk, AllHonest;
    var log := c.log[q..];
    var p := ReadSnapshotLists(c.adapter, id, log);
    SuffixAt(c.log, q, p);
    ConsistentFrom(b, c.log, q);
    ReadSnapshotLearns(b, c.adapter, id, log);
    ListingOpens(codec, b, c, id, q + p);
    var w := c.watch.value;
    ConsistentThrough(codec, b, c);
    ConsistentFrom(w.store, c.log, q);
    ReadSnapshotLearns(w.store, c.adapter, id, log);
    if w.truthful {
      ManifestIsStored(w.store, c.adapter, id, log);
      PagesHonest(codec, b, c);
      AcceptedHoldsAll(c.adapter, id, w.store, c.log[q + p..]);
      ExactOf(c.adapter, w.store, plan, ListSnapshot(c.adapter, id, c.log[q + p..]).value);
    }
  }

  /** In any run, with any faults and foreign writers: when a reader has accepted, the snapshot was
      complete at the moment its last listing began, a moment of this run; and if no page of that
      listing skipped a stored key, there was nothing else under the prefix at that moment. */
  lemma AcceptedMeansExact(s: State, events: seq<Event>, who: nat) returns (k: nat)
    requires Initial(s) && who in Run(s, events).clients
    requires var c := Run(s, events).clients[who];
      c.task.Reads? && ReadSnapshot(c.adapter, c.task.snapshot, c.log).Got?
    ensures k <= |events| && Run(s, events).clients[who].watch.Some?
    ensures var c := Run(s, events).clients[who];
      var plan := ReadSnapshot(c.adapter, c.task.snapshot, c.log).value.plan;
      && IdOf(plan) == c.task.snapshot && plan.destination == c.adapter.destination
      && Complete(s.codec, Run(s, events[..k]).bucket, plan)
      && (c.watch.value.truthful ==> Exact(s.codec, Run(s, events[..k]).bucket, plan))
  {
    hide Run, Complete, Exact, ReadSnapshot, Sound, ValidPlan, WatchOk;
    AlwaysWatchful(s, events);
    var t := Run(s, events);
    var c := t.clients[who];
    assert c.log[0..] == c.log;
    ReadSnapshotLearns(t.bucket, c.adapter, c.task.snapshot, c.log);
    AcceptedWasExact(s.codec, t.bucket, c, c.task.snapshot, 0, ReadSnapshot(c.adapter, c.task.snapshot, c.log).value.plan);
    k := WatchIsAMoment(s, events, who);
  }

  /** The same of every publisher that has succeeded, for the plan it published. */
  lemma SuccessMeansExact(s: State, events: seq<Event>, who: nat) returns (k: nat)
    requires Initial(s) && who in Run(s, events).clients
    requires var c := Run(s, events).clients[who]; c.task.Publishes? && Publish(c.adapter, c.task.plan, c.log).Got?
    ensures k <= |events| && Run(s, events).clients[who].watch.Some?
    ensures var c := Run(s, events).clients[who];
      && Complete(s.codec, Run(s, events[..k]).bucket, c.task.plan)
      && (c.watch.value.truthful ==> Exact(s.codec, Run(s, events[..k]).bucket, c.task.plan))
  {
    hide Run, Complete, Exact, ReadSnapshot, Publish, Sound, ValidPlan, WatchOk;
    AlwaysWatchful(s, events);
    var t := Run(s, events);
    var c := t.clients[who];
    var plan := c.task.plan;
    var q := PublishReads(c.adapter, plan, c.log);
    var read := ReadSnapshot(c.adapter, IdOf(plan), c.log[q..]).value.plan;
    ConsistentFrom(t.bucket, c.log, q);
    ReadSnapshotLearns(t.bucket, c.adapter, IdOf(plan), c.log[q..]);
    AcceptedWasExact(s.codec, t.bucket, c, IdOf(plan), q, read);
    SamePlan(read, plan);
    SamePlanSameComplete(s.codec, c.watch.value.store, read, plan);
    if c.watch.value.truthful {
      SamePlanSameExact(s.codec, c.watch.value.store, read, plan);
    }
    k := WatchIsAMoment(s, events, who);
  }

  lemma SamePlan(read: Plan, plan: Plan)
    requires ValidPlan(read) && ValidPlan(plan) && IdOf(read) == IdOf(plan)
    ensures read.(limits := plan.limits) == plan
  {
    SnapshotIdDeterminesContent(read, plan);
  }

  lemma SamePlanSameExact(codec: Codec, b: Bucket, read: Plan, plan: Plan)
    requires read.(limits := plan.limits) == plan && Exact(codec, b, read)
    ensures Exact(codec, b, plan)
  {
    hide Complete;
    SamePlanSameComplete(codec, b, read, plan);
  }

  /** A service that fills its pages from the store skips nothing. */
  lemma AnsweredIsHonest(codec: Codec, b: Bucket, call: Call, version: Version)
    requires call.ListPage? && Serve(codec, b, call, Answered, version).1.OnePage?
    ensures Honest(codec, b, Exchange(call, Serve(codec, b, call, Answered, version).1))
  {
    hide NextPage, SkipsNothing;
    NextPageSkipsNothing(Listed(codec, b, call.destination, call.snapshot), call.after, call.size);
  }
}
