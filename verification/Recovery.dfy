/** Recovery of a snapshot: from whatever crashed or concurrent publishers of one plan
    left behind, a publisher that meets no fault finishes it, unless a configured
    limit cannot hold the manifest. */
module Recovery {
  import opened Common
  import opened SnapshotTypes
  import opened Listing
  import opened Snapshot
  import opened SnapshotLog
  import opened Fleet

  // ------------------------------------------- what publishers of one plan leave

  predicate Under(plan: Plan, key: Key) {
    key.destination == plan.destination && key.snapshot == IdOf(plan)
  }

  predicate PlannedContent(plan: Plan, path: Path, content: Content) {
    exists i :: 0 <= i < |plan.objects| && plan.objects[i].path == path && plan.objects[i].content == content
  }

  predicate SealedBy(codec: Codec, b: Bucket, plan: Plan, content: Content) {
    && Held(b, plan, Stamps(b, plan))
    && Covers(Stamps(b, plan), plan)
    && codec.observe(plan.objects).Some?
    && content == ManifestOf(plan, Stamps(b, plan), codec.observe(plan.objects).value)
  }

  /** Under the snapshot there is nothing but planned objects and, once all of them are
      there, the manifest the plan and the stored versions determine. */
  predicate Tidy(codec: Codec, b: Bucket, plan: Plan) {
    forall key | key in b && Under(plan, key) :: TidyAt(codec, b, plan, key)
  }

  predicate TidyAt(codec: Codec, b: Bucket, plan: Plan, key: Key)
    requires key in b
  {
    && ValidVersion(b[key].version)
    && if key.path == ManifestFile then SealedBy(codec, b, plan, b[key].content)
       else PlannedContent(plan, key.path, b[key].content)
  }

  /** No foreign writer uses the snapshot's prefix, and the service hands out usable versions. */
  predicate Undisturbed(plan: Plan, e: Event) {
    match e
    case Foreign(key, _) => !Under(plan, key)
    case Serves(_, _, version) => ValidVersion(version)
    case _ => true
  }

  lemma SealedKeeps(codec: Codec, b: Bucket, b': Bucket, plan: Plan, content: Content)
    requires SealedBy(codec, b, plan, content) && Grows(b, b')
    ensures SealedBy(codec, b', plan, content)
  {
    forall i | 0 <= i < |plan.objects|
      ensures HeldAt(b', plan, plan.objects[i], Stamps(b, plan))
    {
      assert HeldAt(b, plan, plan.objects[i], Stamps(b, plan));
    }
    HeldStamps(b', plan, Stamps(b, plan));
    SameVersionsSameManifest(plan, Stamps(b, plan), Stamps(b', plan), codec.observe(plan.objects).value);
  }

  lemma TidyPut(codec: Codec, b: Bucket, plan: Plan, key: Key, stored: Stored)
    requires Tidy(codec, b, plan)
    requires Under(plan, key) ==>
               && ValidVersion(stored.version)
               && if key.path == ManifestFile then SealedBy(codec, b, plan, stored.content)
                  else PlannedContent(plan, key.path, stored.content)
    ensures Tidy(codec, PutIfAbsent(b, key, stored), plan)
  {
    var b' := PutIfAbsent(b, key, stored);
    forall k | k in b' && Under(plan, k)
      ensures TidyAt(codec, b', plan, k)
    {
      hide SealedBy, PlannedContent;
      if k in b {
        assert TidyAt(codec, b, plan, k);
      }
      if k.path == ManifestFile {
        SealedKeeps(codec, b, b', plan, b'[k].content);
      }
    }
  }

  /** Whatever a publisher writes under this snapshot is what this plan would write. */
  lemma WritesAgree(codec: Codec, b: Bucket, plan: Plan, other: Plan, call: Call)
    requires ValidPlan(plan) && ValidPlan(other) && call.Put? && Under(plan, call.key)
    requires PayloadWrite(other, call) || ManifestWrite(codec, b, other, call)
    ensures if call.key.path == ManifestFile then SealedBy(codec, b, plan, call.content)
            else PlannedContent(plan, call.key.path, call.content)
  {
    SnapshotIdDeterminesContent(plan, other);
    PlanPathsDistinct(plan.objects);
    if ManifestWrite(codec, b, other, call) {
      assert Stamps(b, plan) == Stamps(b, other);
      assert Records(plan, Stamps(b, plan)) == Records(other, Stamps(b, other));
      forall i | 0 <= i < |plan.objects|
        ensures HeldAt(b, plan, plan.objects[i], Stamps(b, plan))
      {
        assert HeldAt(b, other, other.objects[i], Stamps(b, other));
      }
    }
  }

  lemma StepKeepsTidy(s: State, e: Event, plan: Plan)
    requires Inv(s) && ValidPlan(plan) && Tidy(s.codec, s.bucket, plan) && Undisturbed(plan, e)
    ensures Tidy(s.codec, Apply(s, e).bucket, plan)
  {
    hide Pending, Tidy, ValidPlan, PayloadWrite, ManifestWrite, SealedBy, PlannedContent, Publish, ReadSnapshot;
    match e
    case Serves(who, fate, version) =>
      if who in s.clients && Pending(s.clients[who]).Some? {
        var c := s.clients[who];
        var call := Pending(c).value;
        if call.Put? {
          PendingWrites(s.codec, s.bucket, c, call);
          if Under(plan, call.key) {
            WritesAgree(s.codec, s.bucket, plan, c.task.plan, call);
          }
          TidyPut(s.codec, s.bucket, plan, call.key, Stored(call.content, version));
        }
      }
    case Foreign(key, stored) => TidyPut(s.codec, s.bucket, plan, key, stored);
    case _ =>
  }

  lemma PendingWrites(codec: Codec, b: Bucket, c: Client, call: Call)
    requires ClientOk(codec, b, c) && Pending(c) == Some(call) && call.Put?
    ensures c.task.Publishes? && (PayloadWrite(c.task.plan, call) || ManifestWrite(codec, b, c.task.plan, call))
  {
    hide Publish, ReadSnapshot, PayloadWrite, ManifestWrite;
    if c.task.Publishes? {
      PublishWrites(b, c.adapter, c.task.plan, c.log);
    } else {
      ReadSnapshotWritesNothing(c.adapter, c.task.snapshot, c.log);
    }
  }

  /** Every state that publishers and readers reach, with any faults, is tidy for the plan. */
  lemma {:induction false} PublishersLeaveTidy(s: State, events: seq<Event>, plan: Plan)
    requires Initial(s) && ValidPlan(plan) && Tidy(s.codec, s.bucket, plan)
    requires forall i :: 0 <= i < |events| ==> Undisturbed(plan, events[i])
    ensures Tidy(s.codec, Run(s, events).bucket, plan)
  {
    if events != [] {
      var before := events[..|events| - 1];
      PublishersLeaveTidy(s, before, plan);
      ManifestsAlwaysBacked(s, before);
      StepKeepsTidy(Run(s, before), events[|events| - 1], plan);
    }
  }

  // --------------------------------------------------------- fault-free exchanges

  /** The log of one client to whom the service answers every call at once, alone. */
  ghost predicate Faultless(codec: Codec, stamp: Key -> Version, b: Bucket, log: seq<Exchange>, b': Bucket)
    decreases |log|
  {
    if log == [] then b' == b
    else
      var call := log[0].call;
      var version := if call.Put? then stamp(call.key) else None;
      var (next, reply) := Serve(codec, b, call, Answered, version);
      reply == log[0].reply && Faultless(codec, stamp, next, log[1..], b')
  }

  lemma {:induction false} FaultlessConcat(codec: Codec, stamp: Key -> Version, b: Bucket, l: seq<Exchange>, b1: Bucket,
                                           m: seq<Exchange>, b2: Bucket)
    requires Faultless(codec, stamp, b, l, b1) && Faultless(codec, stamp, b1, m, b2)
    ensures Faultless(codec, stamp, b, l + m, b2)
    decreases |l|
  {
    hide Serve;
    if l == [] {
      assert l + m == m;
    } else {
      var version := if l[0].call.Put? then stamp(l[0].call.key) else None;
      var next := Serve(codec, b, l[0].call, Answered, version).0;
      FaultlessConcat(codec, stamp, next, l[1..], b1, m, b2);
      assert (l + m)[1..] == l[1..] + m;
    }
  }

  lemma GetRuns(a: Adapter, stamp: Key -> Version, b: Bucket, key: Key, version: Version) returns (l: seq<Exchange>)
    requires key in b && (version.Some? ==> b[key].version == version) && ValidVersion(b[key].version)
    requires Size(a.codec, b[key].content.body) <= a.limits.objectBytes
    ensures Faultless(a.codec, stamp, b, l, b)
    ensures Get(a, key, version, l) == Got(Some(b[key]), [])
  {
    l := [Exchange(Fetch(key, version), Found(b[key]))];
  }

  /** What a create answers: whether the key was absent, and the version stored. */
  function Answer(b: Bucket, key: Key, version: Version): (bool, Version) {
    (key !in b, version)
  }

  lemma CreateRuns(a: Adapter, stamp: Key -> Version, b: Bucket, key: Key, content: Content)
    returns (l: seq<Exchange>, version: Version)
    requires Size(a.codec, content.body) <= a.limits.objectBytes && ValidVersion(stamp(key))
    requires key in b ==> b[key].content == content && ValidVersion(b[key].version)
    ensures Faultless(a.codec, stamp, b, l, PutIfAbsent(b, key, Stored(content, stamp(key))))
    ensures PutIfAbsent(b, key, Stored(content, stamp(key)))[key] == Stored(content, version)
    ensures CreateChecked(a, key, content, l) == Got(Answer(b, key, version), [])
  {
    var b' := PutIfAbsent(b, key, Stored(content, stamp(key)));
    version := b'[key].version;
    var first := if key in b then Exchange(Put(key, content), Precondition412)
                 else Exchange(Put(key, content), Created(version));
    var tail := GetRuns(a, stamp, b', key, if key in b then None else version);
    l := [first] + tail;
    assert l[1..] == tail;
  }

  /** The bucket once every object from the `i`-th on has been created. */
  function Filled(b: Bucket, plan: Plan, stamp: Key -> Version, i: nat): Bucket
    requires i <= |plan.objects|
    decreases |plan.objects| - i
  {
    if i == |plan.objects| then b
    else
      var key := KeyOf(plan, plan.objects[i].path);
      Filled(PutIfAbsent(b, key, Stored(plan.objects[i].content, stamp(key))), plan, stamp, i + 1)
  }

  predicate Usable(stamp: Key -> Version, b: Bucket, plan: Plan) {
    forall i :: 0 <= i < |plan.objects| ==>
      var key := KeyOf(plan, plan.objects[i].path);
      && ValidVersion(stamp(key))
      && (key in b ==> b[key].content == plan.objects[i].content && ValidVersion(b[key].version))
  }

  lemma {:induction false} CreateAllRuns(a: Adapter, stamp: Key -> Version, b: Bucket, plan: Plan, i: nat, versions: Versions)
    returns (l: seq<Exchange>, final: Versions)
    requires i <= |plan.objects| && DistinctPaths(plan.objects) && Payloads(plan.objects, plan.batch)
    requires WithinObjectLimit(plan.objects, a.limits.objectBytes) && Usable(stamp, b, plan)
    requires forall j :: 0 <= j < i ==> HeldAt(b, plan, plan.objects[j], versions)
    ensures Faultless(a.codec, stamp, b, l, Filled(b, plan, stamp, i))
    ensures Held(Filled(b, plan, stamp, i), plan, final)
    ensures CreateAll(a, plan, i, versions, l) == Got(final, [])
    decreases |plan.objects| - i
  {
    if i == |plan.objects| {
      l, final := [], versions;
    } else {
      var o := plan.objects[i];
      var key := KeyOf(plan, o.path);
      assert Payload(o, plan.batch);
      var l1, version := CreateRuns(a, stamp, b, key, o.content);
      var b1 := PutIfAbsent(b, key, Stored(o.content, stamp(key)));
      var l2;
      l2, final := CreateAllRuns(a, stamp, b1, plan, i + 1, versions[o.path := version]);
      l := l1 + l2;
      FaultlessConcat(a.codec, stamp, b, l1, b1, l2, Filled(b, plan, stamp, i));
      CreateCheckedExtends(a, key, o.content, l1, l2);
      assert [] + l2 == l2;
    }
  }

  lemma {:induction false} ReadFilesRuns(a: Adapter, stamp: Key -> Version, b: Bucket, plan: Plan, i: nat, versions: Versions)
    returns (l: seq<Exchange>)
    requires i <= |plan.objects| && Covers(versions, plan) && Held(b, plan, versions)
    requires forall j :: 0 <= j < |plan.objects| ==> ReadableHere(a, plan.objects[j], versions)
    ensures Faultless(a.codec, stamp, b, l, b)
    ensures ReadFiles(a, plan, i, versions, l) == Got((), [])
    decreases |plan.objects| - i
  {
    if i == |plan.objects| {
      l := [];
    } else {
      var o := plan.objects[i];
      var key := KeyOf(plan, o.path);
      assert HeldAt(b, plan, o, versions) && ReadableHere(a, o, versions);
      var l1 := ReadFileRuns(a, stamp, b, key, o.content, versions[o.path]);
      var l2 := ReadFilesRuns(a, stamp, b, plan, i + 1, versions);
      l := l1 + l2;
      FaultlessConcat(a.codec, stamp, b, l1, b, l2, b);
      ReadFileExtends(a, key, o.content, versions[o.path], l1, l2);
      assert [] + l2 == l2;
    }
  }

  predicate ReadableHere(a: Adapter, o: FrozenObject, versions: Versions) {
    Size(a.codec, o.content.body) <= a.limits.objectBytes && o.path in versions && ValidVersion(versions[o.path])
  }

  lemma ReadFileRuns(a: Adapter, stamp: Key -> Version, b: Bucket, key: Key, content: Content, version: Version)
    returns (l: seq<Exchange>)
    requires key in b && b[key] == Stored(content, version) && ValidVersion(version)
    requires Size(a.codec, content.body) <= a.limits.objectBytes
    ensures Faultless(a.codec, stamp, b, l, b)
    ensures ReadFile(a, key, content, version, l) == Got((), [])
  {
    var l1 := GetRuns(a, stamp, b, key, version);
    if version.None? {
      l := l1;
    } else {
      var l2 := GetRuns(a, stamp, b, key, None);
      l := l1 + l2;
      FaultlessConcat(a.codec, stamp, b, l1, b, l2, b);
      GetExtends(a, key, version, l1, l2);
      assert [] + l2 == l2;
    }
  }

  // --------------------------------------------------------------- the inventory

  /** The listing of a tidy snapshot is the payload inventory, plus the manifest if present. */
  predicate ListsExactly(a: Adapter, b: Bucket, plan: Plan) {
    var listed := Listed(a.codec, b, plan.destination, IdOf(plan));
    && listed - {ManifestFile} == PayloadSizes(plan.objects)
    && (KeyOf(plan, ManifestFile) in b ==>
          listed == PayloadSizes(plan.objects)[ManifestFile := Size(a.codec, b[KeyOf(plan, ManifestFile)].content.body)])
  }

  lemma TidyIsPlanned(codec: Codec, b: Bucket, plan: Plan, path: Path)
    requires DistinctPaths(plan.objects) && Tidy(codec, b, plan) && KeyOf(plan, path) in b && path != ManifestFile
    ensures path in PayloadSizes(plan.objects)
  {
    assert TidyAt(codec, b, plan, KeyOf(plan, path));
    PayloadSizesAre(plan.objects);
  }

  lemma ListingSplits(listed: map<Path, nat>, sizes: map<Path, nat>)
    requires forall path | path in sizes :: path in listed && path != ManifestFile && listed[path] == sizes[path]
    requires forall path | path in listed :: path != ManifestFile ==> path in sizes
    ensures listed - {ManifestFile} == sizes
    ensures ManifestFile in listed ==> listed == sizes[ManifestFile := listed[ManifestFile]]
  {
  }

  lemma TidyListsExactly(a: Adapter, b: Bucket, plan: Plan)
    requires ValidPlan(plan) && Tidy(a.codec, b, plan) && Held(b, plan, Stamps(b, plan))
    ensures ListsExactly(a, b, plan)
  {
    PlanPathsDistinct(plan.objects);
    hide Listed, PayloadSizes, Tidy, Held, OrderedMaterial, DistinctPaths, Stamps, Size;
    var listed := Listed(a.codec, b, plan.destination, IdOf(plan));
    var sizes := PayloadSizes(plan.objects);
    forall path | path in sizes
      ensures path in listed && path != ManifestFile && listed[path] == sizes[path]
    {
      HeldIsListed(a.codec, b, plan, path);
      ListedAt(a.codec, b, plan, path);
    }
    forall path | path in listed
      ensures path != ManifestFile ==> path in sizes
    {
      ListedAt(a.codec, b, plan, path);
      if path != ManifestFile {
        TidyIsPlanned(a.codec, b, plan, path);
      }
    }
    ListingSplits(listed, sizes);
    ListedAt(a.codec, b, plan, ManifestFile);
  }

  /** As many keys as the page budget can list when every page is filled. */
  predicate ListingFits(limits: Limits, keys: nat) {
    keys <= limits.pages * limits.pageSize
  }

  predicate Gatherable(listed: map<Path, nat>, limits: Limits) {
    |listed| <= limits.objects && forall path | path in listed :: EntryAllowed((path, listed[path]), limits)
  }

  /** The cursors used so far lie behind keys already listed, and one is only used while more are left. */
  predicate Underway(listed: map<Path, nat>, k: nat, after: Option<Token>, seen: set<Token>) {
    && Cursory(after) && (k > 0 ==> Remaining(listed, after) != {})
    && forall token | token in seen :: token.Cursor? && token.path in Upto(listed, after)
  }

  lemma PageGathered(listed: map<Path, nat>, limits: Limits, k: nat, after: Option<Token>, seen: set<Token>)
    requires Gatherable(listed, limits) && Underway(listed, k, after, seen)
    ensures var page := NextPage(listed, after, limits.pageSize);
      var next := if page.truncated then Upto(listed, Some(page.token)) else listed;
      && |page.entries| <= limits.pageSize
      && AddEntries(page.entries, Upto(listed, after), limits) == Some(next)
      && (page.truncated <==> limits.pageSize < |Remaining(listed, after)|)
      && (page.truncated ==>
            && FreshToken(page.token, seen) && Underway(listed, k + 1, Some(page.token), seen + {page.token})
            && |Remaining(listed, Some(page.token))| == |Remaining(listed, after)| - limits.pageSize)
  {
    hide NextPage, Remaining, AddEntries, ExtendsListing, Upto, Gatherable, FreshToken;
    PageTakes(listed, after, limits.pageSize);
    var page := NextPage(listed, after, limits.pageSize);
    var part, next := Upto(listed, after), if page.truncated then Upto(listed, Some(page.token)) else listed;
    PartsOf(listed, after);
    PartsOf(listed, Some(page.token));
    EntriesAllowed(listed, limits, part, page.entries, next);
    CollectsExactly(page.entries, part, next, limits);
    if page.truncated {
      TokenPassed(listed, after, page.token);
      StaysUnderway(listed, k, after, seen, page.token, page.entries);
    }
  }

  lemma PartsOf(listed: map<Path, nat>, after: Option<Token>)
    ensures |Upto(listed, after)| <= |listed|
    ensures forall path | path in Upto(listed, after) :: path in listed && Upto(listed, after)[path] == listed[path]
  {
    PartSmaller(Upto(listed, after), listed);
  }

  lemma EntriesAllowed(listed: map<Path, nat>, limits: Limits, part: map<Path, nat>, entries: seq<(Path, nat)>, next: map<Path, nat>)
    requires Gatherable(listed, limits) && ExtendsListing(part, entries, next)
    requires |part| <= |listed| && |next| <= |listed|
    requires forall path | path in next :: path in listed && next[path] == listed[path]
    ensures |part| <= limits.objects && |next| <= limits.objects
    ensures forall i :: 0 <= i < |entries| ==> EntryAllowed(entries[i], limits)
  {
    hide EntryAllowed;
    forall i | 0 <= i < |entries|
      ensures EntryAllowed(entries[i], limits)
    {
      var path := entries[i].0;
      assert path in next && entries[i] == (path, listed[path]);
    }
  }

  lemma StaysUnderway(listed: map<Path, nat>, k: nat, after: Option<Token>, seen: set<Token>, token: Token,
                      entries: seq<(Path, nat)>)
    requires Underway(listed, k, after, seen) && token.Cursor?
    requires token.path in Upto(listed, Some(token)) && token.path !in Upto(listed, after)
    requires Remaining(listed, Some(token)) != {} && ExtendsListing(Upto(listed, after), entries, Upto(listed, Some(token)))
    ensures FreshToken(token, seen) && Underway(listed, k + 1, Some(token), seen + {token})
  {
    hide Remaining, Upto;
  }

  lemma PartSmaller(part: map<Path, nat>, listed: map<Path, nat>)
    requires forall path | path in part :: path in listed
    ensures |part| <= |listed|
  {
    SubsetSize(part.Keys, listed.Keys);
    assert |part| == |part.Keys| && |listed| == |listed.Keys|;
  }

  lemma TokenPassed(listed: map<Path, nat>, after: Option<Token>, token: Token)
    requires token.Cursor? && token.path in Remaining(listed, after) && token.path !in Remaining(listed, Some(token))
    ensures token.path in Upto(listed, Some(token)) && token.path !in Upto(listed, after)
  {
  }

  lemma LessOnePage(n: nat, size: pos, left: nat)
    requires n > 0
    ensures n * size == (n - 1) * size + size
    ensures size < left ==> (left <= n * size <==> left - size <= (n - 1) * size)
    ensures left <= size ==> left <= n * size
  {
    assert n * size == (n - 1) * size + size;
    assert (n - 1) * size >= 0;
  }

  /** The listing of a store that stands still, when the service fills its pages. */
  lemma {:induction false} ListPagesRuns(a: Adapter, stamp: Key -> Version, b: Bucket, id: SnapshotId, k: nat,
                                         after: Option<Token>, seen: set<Token>) returns (l: seq<Exchange>)
    requires k <= a.limits.pages
    requires var listed := Listed(a.codec, b, a.destination, id);
      Gatherable(listed, a.limits) && Underway(listed, k, after, seen)
    ensures Faultless(a.codec, stamp, b, l, b)
    ensures var listed := Listed(a.codec, b, a.destination, id);
      var out := ListPages(a, id, k, after, seen, Upto(listed, after), l);
      if |Remaining(listed, after)| <= (a.limits.pages - k) * a.limits.pageSize then out == Got(listed, []) else out.Stop?
    decreases a.limits.pages - k
  {
    hide NextPage, AddEntries, Listed, Suffix, FreshToken, Gatherable, Upto, Remaining;
    var listed := Listed(a.codec, b, a.destination, id);
    if k == a.limits.pages {
      l := [];
    } else {
      PageGathered(listed, a.limits, k, after, seen);
      LessOnePage(a.limits.pages - k, a.limits.pageSize, |Remaining(listed, after)|);
      var page := NextPage(listed, after, a.limits.pageSize);
      var first := [Exchange(ListPage(a.destination, id, a.limits.pageSize, after), OnePage(page))];
      assert Faultless(a.codec, stamp, b, first, b) by {
        assert first[1..] == [];
      }
      if page.truncated {
        var rest := ListPagesRuns(a, stamp, b, id, k + 1, Some(page.token), seen + {page.token});
        l := first + rest;
        FaultlessConcat(a.codec, stamp, b, first, b, rest, b);
        assert l[1..] == rest;
      } else {
        l := first;
        assert l[1..] == [];
      }
    }
  }

  lemma ListingRuns(a: Adapter, stamp: Key -> Version, b: Bucket, id: SnapshotId) returns (l: seq<Exchange>)
    requires Gatherable(Listed(a.codec, b, a.destination, id), a.limits)
    ensures Faultless(a.codec, stamp, b, l, b)
    ensures var listed := Listed(a.codec, b, a.destination, id);
      var out := ListSnapshot(a, id, l);
      if ListingFits(a.limits, |listed|) then out == Got(listed, []) else out.Stop?
  {
    hide ListPages, Listed, Faultless, Gatherable;
    var listed := Listed(a.codec, b, a.destination, id);
    assert Upto(listed, None) == map[] && Remaining(listed, None) == listed.Keys && |listed| == |listed.Keys|;
    l := ListPagesRuns(a, stamp, b, id, 0, None, {});
  }

  function KeyCount(b: Bucket, plan: Plan): nat {
    |plan.objects| + if KeyOf(plan, ManifestFile) in b then 1 else 0
  }

  lemma {:induction false} PayloadCount(objects: seq<FrozenObject>)
    requires DistinctPaths(objects)
    ensures |PayloadSizes(objects)| == |objects| && ManifestFile !in PayloadSizes(objects)
  {
    if objects != [] {
      PayloadCount(objects[1..]);
      PayloadSizesAre(objects[1..]);
      assert forall i :: 0 <= i < |objects[1..]| ==> objects[1..][i].path == objects[i + 1].path;
    }
  }

  /** The listing of a tidy snapshot that is all there: what is in it, how much, and that it is allowed. */
  lemma TidyGathers(a: Adapter, b: Bucket, plan: Plan)
    requires ValidPlan(plan) && Admits(a, plan) && ListsExactly(a, b, plan)
    requires KeyOf(plan, ManifestFile) in b ==> Size(a.codec, b[KeyOf(plan, ManifestFile)].content.body) <= a.limits.objectBytes
    ensures var listed := Listed(a.codec, b, a.destination, IdOf(plan));
      Gatherable(listed, a.limits) && |listed| == KeyCount(b, plan)
  {
    hide Gatherable, ListsExactly, ValidPlan, KeyOf, IdOf, Size;
    TidyAllowed(a, b, plan);
    TidyCounted(a, b, plan);
    GathersIf(a, b, plan);
  }

  lemma GathersIf(a: Adapter, b: Bucket, plan: Plan)
    requires Admits(a, plan)
    requires var listed := Listed(a.codec, b, plan.destination, IdOf(plan));
      |listed| == KeyCount(b, plan) && forall path | path in listed :: EntryAllowed((path, listed[path]), a.limits)
    ensures Gatherable(Listed(a.codec, b, a.destination, IdOf(plan)), a.limits)
  {
    hide Listed, EntryAllowed, TotalSize, IdOf;
  }

  lemma TidyAllowed(a: Adapter, b: Bucket, plan: Plan)
    requires ValidPlan(plan) && Admits(a, plan) && ListsExactly(a, b, plan)
    requires KeyOf(plan, ManifestFile) in b ==> Size(a.codec, b[KeyOf(plan, ManifestFile)].content.body) <= a.limits.objectBytes
    ensures var listed := Listed(a.codec, b, plan.destination, IdOf(plan));
      forall path | path in listed :: EntryAllowed((path, listed[path]), a.limits)
  {
    hide Listed, PayloadSizes, Size, IdOf, TotalSize, EntryAllowed, ValidPlan, DistinctPaths, AllMaterial, WithinObjectLimit;
    PlanPathsMaterial(plan);
    var listed := Listed(a.codec, b, plan.destination, IdOf(plan));
    forall path | path in listed
      ensures EntryAllowed((path, listed[path]), a.limits)
    {
      ListedAt(a.codec, b, plan, path);
      if path == ManifestFile {
        AllowedManifest(listed[path], a.limits);
      } else {
        assert path in listed - {ManifestFile} && path in PayloadSizes(plan.objects);
        AllowedPayload(plan.objects, path, a.limits);
        assert (listed - {ManifestFile})[path] == listed[path];
      }
    }
  }

  lemma AllowedManifest(size: nat, limits: Limits)
    requires size <= limits.objectBytes
    ensures EntryAllowed((ManifestFile, size), limits)
  {
  }

  predicate AllMaterial(objects: seq<FrozenObject>) {
    forall i :: 0 <= i < |objects| ==> MaterialPath(objects[i].path)
  }

  lemma AllowedPayload(objects: seq<FrozenObject>, path: Path, limits: Limits)
    requires DistinctPaths(objects) && AllMaterial(objects) && WithinObjectLimit(objects, limits.objectBytes)
    requires path in PayloadSizes(objects)
    ensures EntryAllowed((path, PayloadSizes(objects)[path]), limits)
  {
    PayloadSizesAre(objects);
    hide PayloadSizes, MaterialPath, DistinctPaths;
    var i :| 0 <= i < |objects| && objects[i].path == path;
  }

  lemma PlanPathsMaterial(plan: Plan)
    requires ValidPlan(plan)
    ensures AllMaterial(plan.objects) && DistinctPaths(plan.objects)
  {
    PlanPathsDistinct(plan.objects);
    hide Before, MaterialPath;
  }

  lemma TidyCounted(a: Adapter, b: Bucket, plan: Plan)
    requires ValidPlan(plan) && ListsExactly(a, b, plan)
    ensures |Listed(a.codec, b, plan.destination, IdOf(plan))| == KeyCount(b, plan)
  {
    PlanPathsDistinct(plan.objects);
    PayloadCount(plan.objects);
    ListedAt(a.codec, b, plan, ManifestFile);
    hide Listed, PayloadSizes, Size, IdOf, ValidPlan, DistinctPaths;
    var listed := Listed(a.codec, b, plan.destination, IdOf(plan));
    if KeyOf(plan, ManifestFile) !in b {
      assert listed - {ManifestFile} == listed;
    }
  }

  lemma InventoryRuns(a: Adapter, stamp: Key -> Version, b: Bucket, plan: Plan, manifest: Option<Content>)
    returns (l: seq<Exchange>)
    requires ValidPlan(plan) && Admits(a, plan) && ListsExactly(a, b, plan)
    requires KeyOf(plan, ManifestFile) in b ==> Size(a.codec, b[KeyOf(plan, ManifestFile)].content.body) <= a.limits.objectBytes
    requires manifest.Some? ==> KeyOf(plan, ManifestFile) in b && b[KeyOf(plan, ManifestFile)].content == manifest.value
    ensures Faultless(a.codec, stamp, b, l, b)
    ensures var out := CheckInventory(a, plan, manifest, l);
      if ListingFits(a.limits, KeyCount(b, plan)) then out == Got((), []) else out.Stop?
  {
    hide ListPages, Listed, Gatherable, ValidPlan, PayloadSizes, ListingFits, Suffix, Faultless, KeyOf, IdOf, Size, KeyCount,
      WithinObjectLimit, TotalSize;
    TidyGathers(a, b, plan);
    l := ListingRuns(a, stamp, b, IdOf(plan));
  }

  // -------------------------------------------------------------- the read-back

  /** A finished snapshot: everything held, tidy, and the manifest present. */
  predicate Finished(codec: Codec, b: Bucket, plan: Plan) {
    && Tidy(codec, b, plan)
    && Held(b, plan, Stamps(b, plan))
    && Covers(Stamps(b, plan), plan)
    && KeyOf(plan, ManifestFile) in b
  }

  /** The adapter's limits hold the plan's objects; nothing is said of the manifest. */
  predicate Admits(a: Adapter, plan: Plan) {
    && plan.destination == a.destination
    && |plan.objects| + 1 <= a.limits.objects
    && TotalSize(plan.objects) <= a.limits.snapshotBytes
    && WithinObjectLimit(plan.objects, a.limits.objectBytes)
    && a.codec.expansion(plan.objects) <= a.limits.expandedBytes
  }

  /** Everything the read-back of a finished snapshot relies on. */
  predicate Ready(a: Adapter, b: Bucket, plan: Plan) {
    ValidPlan(plan) && DistinctPaths(plan.objects) && Admits(a, plan) && Finished(a.codec, b, plan)
  }

  lemma {:induction false} FetchFilesRuns(a: Adapter, stamp: Key -> Version, b: Bucket, plan: Plan, doc: Manifest,
                                          i: nat, files: seq<FrozenObject>, total: nat)
    returns (l: seq<Exchange>)
    requires Ready(a, b, plan) && Covers(Stamps(b, plan), plan)
    requires doc.files == Records(plan, Stamps(b, plan)) && doc.batch == plan.batch
    requires i <= |plan.objects| && files == plan.objects[..i]
    requires i < |plan.objects| || total <= a.limits.snapshotBytes
    ensures Faultless(a.codec, stamp, b, l, b)
    ensures var out := FetchFiles(a, IdOf(plan), doc, i, files, total, l);
            if total + TotalSize(plan.objects[i..]) <= a.limits.snapshotBytes
            then out == Got(plan.objects, []) else out == Stop(ManifestSizeLimit)
    decreases |plan.objects| - i
  {
    hide Ready, FetchFile, Faultless, Covers, Stamps, Inventory;
    if i == |plan.objects| {
      l := [];
      FaultlessEmpty(a.codec, stamp, b);
      assert plan.objects[..i] == plan.objects;
    } else {
      var o := plan.objects[i];
      var size := PayloadSize(o.content.body);
      assert plan.objects[i..][0] == o && plan.objects[i..][1..] == plan.objects[i + 1..];
      var l1 := FetchFileRuns(a, stamp, b, plan, i, total);
      if a.limits.snapshotBytes < total + size {
        l := l1;
      } else {
        assert files + [o] == plan.objects[..i + 1];
        var l2 := FetchFilesRuns(a, stamp, b, plan, doc, i + 1, files + [o], total + size);
        l := l1 + l2;
        FaultlessConcat(a.codec, stamp, b, l1, b, l2, b);
        FetchFileExtends(a, IdOf(plan), plan.batch, doc.files[i], files, total, l1, l2);
        EmptyPrefix(l2);
      }
    }
  }

  lemma FaultlessEmpty(codec: Codec, stamp: Key -> Version, b: Bucket)
    ensures Faultless(codec, stamp, b, [], b)
  {
  }

  lemma FetchFileRuns(a: Adapter, stamp: Key -> Version, b: Bucket, plan: Plan, i: nat, total: nat) returns (l: seq<Exchange>)
    requires Ready(a, b, plan) && Covers(Stamps(b, plan), plan) && i < |plan.objects|
    ensures Faultless(a.codec, stamp, b, l, b)
    ensures var o := plan.objects[i];
            var record := Records(plan, Stamps(b, plan))[i];
            && record.info.size == PayloadSize(o.content.body)
            && var out := FetchFile(a, IdOf(plan), plan.batch, record, plan.objects[..i], total, l);
            if total + PayloadSize(o.content.body) <= a.limits.snapshotBytes
            then out == Got(o, []) else out == Stop(ManifestSizeLimit)
  {
    var o := plan.objects[i];
    RecordReadable(a, b, plan, i);
    hide Tidy, Held, ValidPlan, Admits, Stamps, Get, Contains, FetchFile, Suffix, DistinctPaths, ReadableHere;
    if a.limits.snapshotBytes < total + PayloadSize(o.content.body) {
      l := [];
    } else {
      l := GetRuns(a, stamp, b, KeyOf(plan, o.path), Stamps(b, plan)[o.path]);
    }
    FetchFileIs(a, b, plan, o, Records(plan, Stamps(b, plan))[i], plan.objects[..i], total, l);
  }

  /** What the checks of one record come to when the record is right and the object is there. */
  lemma FetchFileIs(a: Adapter, b: Bucket, plan: Plan, o: FrozenObject, record: FileRecord, files: seq<FrozenObject>, total: nat,
                    l: seq<Exchange>)
    requires plan.destination == a.destination && MaterialPath(o.path) && !Contains(files, o.path)
    requires o.content.body.Raw? && o == ObjectBytes(o.path, o.content.body, plan.batch)
    requires PayloadSize(o.content.body) <= a.limits.objectBytes && ValidVersion(record.version)
    requires record == FileRecord(Inventory(o), KeyOf(plan, o.path), record.version)
    requires total + PayloadSize(o.content.body) <= a.limits.snapshotBytes ==>
      Get(a, KeyOf(plan, o.path), record.version, l) == Got(Some(Stored(o.content, record.version)), [])
    ensures record.info.size == PayloadSize(o.content.body)
    ensures var out := FetchFile(a, IdOf(plan), plan.batch, record, files, total, l);
            if total + PayloadSize(o.content.body) <= a.limits.snapshotBytes
            then out == Got(o, []) else out == Stop(ManifestSizeLimit)
  {
    hide Get, Contains, MaterialPath, Suffix, IdOf;
  }

  lemma RecordReadable(a: Adapter, b: Bucket, plan: Plan, i: nat)
    requires ValidPlan(plan) && DistinctPaths(plan.objects) && Admits(a, plan) && Finished(a.codec, b, plan)
    requires i < |plan.objects|
    ensures var o := plan.objects[i];
            var key := KeyOf(plan, o.path);
            && MaterialPath(o.path) && !Contains(plan.objects[..i], o.path)
            && o.content.body.Raw? && o == ObjectBytes(o.path, o.content.body, plan.batch)
            && PayloadSize(o.content.body) <= a.limits.objectBytes
            && key in b && b[key] == Stored(o.content, Stamps(b, plan)[o.path])
            && ReadableHere(a, o, Stamps(b, plan))
  {
    var o := plan.objects[i];
    assert HeldAt(b, plan, o, Stamps(b, plan)) && Payload(o, plan.batch);
    assert TidyAt(a.codec, b, plan, KeyOf(plan, o.path));
  }

  lemma {:induction false} VersionsOfRecords(plan: Plan, versions: Versions, n: nat)
    requires Covers(versions, plan) && DistinctPaths(plan.objects) && n <= |plan.objects|
    ensures forall i :: 0 <= i < n ==>
              && plan.objects[i].path in VersionsOf(Records(plan, versions)[..n])
              && VersionsOf(Records(plan, versions)[..n])[plan.objects[i].path] == versions[plan.objects[i].path]
  {
    hide KeyOf;
    if n > 0 {
      VersionsOfRecords(plan, versions, n - 1);
      assert Records(plan, versions)[..n][..n - 1] == Records(plan, versions)[..n - 1];
    }
  }

  /** The manifest of a finished snapshot is the one its own version list rebuilds. */
  lemma MarkerRebuilds(codec: Codec, b: Bucket, plan: Plan)
    requires DistinctPaths(plan.objects) && Finished(codec, b, plan)
    ensures var marker := b[KeyOf(plan, ManifestFile)];
            && marker.content.body.Canonical?
            && var versions := VersionsOf(marker.content.body.doc.files);
            && Covers(versions, plan)
            && (forall i :: 0 <= i < |plan.objects| ==>
                  versions[plan.objects[i].path] == Stamps(b, plan)[plan.objects[i].path])
            && codec.observe(plan.objects).Some?
            && marker.content == ManifestOf(plan, versions, codec.observe(plan.objects).value)
  {
    var key := KeyOf(plan, ManifestFile);
    var versions := VersionsOf(b[key].content.body.doc.files);
    assert TidyAt(codec, b, plan, key);
    VersionsOfRecords(plan, Stamps(b, plan), |plan.objects|);
    assert Records(plan, Stamps(b, plan))[..|plan.objects|] == Records(plan, Stamps(b, plan));
    SameVersionsSameManifest(plan, versions, Stamps(b, plan), codec.observe(plan.objects).value);
  }

  lemma RecheckRuns(a: Adapter, stamp: Key -> Version, b: Bucket, plan: Plan) returns (l: seq<Exchange>)
    requires Ready(a, b, plan) && KeyOf(plan, ManifestFile) in b
    requires var marker := b[KeyOf(plan, ManifestFile)];
             marker.content.body.Canonical? && ManifestFits(a.codec, a.limits, plan.objects, marker.content)
    ensures Faultless(a.codec, stamp, b, l, b)
    ensures var marker := b[KeyOf(plan, ManifestFile)];
            var out := Recheck(a, plan, marker, l);
            if ListingFits(a.limits, |plan.objects| + 1)
            then out == Got(Verified(plan, marker.content, marker.version), []) else out.Stop?
  {
    hide ListingFits, Suffix, ValidPlan, Finished, ReadBack, ManifestOf, Faultless, VersionsOf, Held, Stamps, KeyOf,
      ReadableHere;
    var versions := VersionsOf(b[KeyOf(plan, ManifestFile)].content.body.doc.files);
    MarkerRebuilds(a.codec, b, plan);
    AllReadable(a, b, plan, versions);
    l := ReadBackRuns(a, stamp, b, plan, versions);
  }

  lemma AllReadable(a: Adapter, b: Bucket, plan: Plan, versions: Versions)
    requires Ready(a, b, plan) && Covers(versions, plan)
    requires forall i :: 0 <= i < |plan.objects| ==>
               versions[plan.objects[i].path] == Stamps(b, plan)[plan.objects[i].path]
    ensures Held(b, plan, versions)
    ensures forall i :: 0 <= i < |plan.objects| ==> ReadableHere(a, plan.objects[i], versions)
  {
    forall i | 0 <= i < |plan.objects|
      ensures HeldAt(b, plan, plan.objects[i], versions) && ReadableHere(a, plan.objects[i], versions)
    {
      RecordReadable(a, b, plan, i);
    }
  }

  lemma ReadBackRuns(a: Adapter, stamp: Key -> Version, b: Bucket, plan: Plan, versions: Versions) returns (l: seq<Exchange>)
    requires Ready(a, b, plan) && KeyOf(plan, ManifestFile) in b
    requires var marker := b[KeyOf(plan, ManifestFile)]; Size(a.codec, marker.content.body) <= a.limits.objectBytes
    requires Covers(versions, plan) && Held(b, plan, versions)
    requires forall i :: 0 <= i < |plan.objects| ==> ReadableHere(a, plan.objects[i], versions)
    ensures Faultless(a.codec, stamp, b, l, b)
    ensures var marker := b[KeyOf(plan, ManifestFile)];
            var out := ReadBack(a, plan, versions, marker, l);
            if ListingFits(a.limits, |plan.objects| + 1)
            then out == Got(Verified(plan, marker.content, marker.version), []) else out.Stop?
  {
    var key := KeyOf(plan, ManifestFile);
    var marker := b[key];
    PresentVersion(a.codec, b, plan);
    TidyListsExactly(a, b, plan);
    hide ReadBack, Tidy, Held, ValidPlan, ListsExactly, ReadFiles, ConfirmMarker, CheckInventory, Stamps, Faultless,
      ReadableHere, Suffix, ListingFits, WithinObjectLimit, TotalSize, DistinctPaths, Size;
    var l1 := ReadFilesRuns(a, stamp, b, plan, 0, versions);
    var l2 := ConfirmMarkerRuns(a, stamp, b, key);
    var l3 := InventoryRuns(a, stamp, b, plan, Some(marker.content));
    l := l1 + (l2 + l3);
    FaultlessConcat(a.codec, stamp, b, l2, b, l3, b);
    FaultlessConcat(a.codec, stamp, b, l1, b, l2 + l3, b);
    ReadBackJoins(a, plan, versions, marker, l1, l2, l3);
  }

  lemma ReadBackJoins(a: Adapter, plan: Plan, versions: Versions, marker: Stored, l1: seq<Exchange>, l2: seq<Exchange>,
                      l3: seq<Exchange>)
    requires Covers(versions, plan) && ReadFiles(a, plan, 0, versions, l1) == Got((), [])
    requires ConfirmMarker(a, KeyOf(plan, ManifestFile), marker, l2) == Got((), [])
    ensures var out := ReadBack(a, plan, versions, marker, l1 + (l2 + l3));
            && (CheckInventory(a, plan, Some(marker.content), l3).Stop? ==> out.Stop?)
            && (CheckInventory(a, plan, Some(marker.content), l3) == Got((), []) ==>
                  out == Got(Verified(plan, marker.content, marker.version), []))
  {
    hide ReadFiles, ConfirmMarker, CheckInventory, Suffix, Covers;
    ReadFilesExtends(a, plan, 0, versions, l1, l2 + l3);
    EmptyPrefix(l2 + l3);
    ConfirmMarkerExtends(a, KeyOf(plan, ManifestFile), marker, l2, l3);
    EmptyPrefix(l3);
  }

  lemma EmptyPrefix(l: seq<Exchange>)
    ensures [] + l == l
  {
  }

  lemma ConfirmMarkerRuns(a: Adapter, stamp: Key -> Version, b: Bucket, key: Key) returns (l: seq<Exchange>)
    requires key in b && ValidVersion(b[key].version) && Size(a.codec, b[key].content.body) <= a.limits.objectBytes
    ensures Faultless(a.codec, stamp, b, l, b)
    ensures ConfirmMarker(a, key, b[key], l) == Got((), [])
  {
    var l1 := GetRuns(a, stamp, b, key, b[key].version);
    var l2 := GetRuns(a, stamp, b, key, None);
    l := l1 + l2;
    FaultlessConcat(a.codec, stamp, b, l1, b, l2, b);
    GetExtends(a, key, b[key].version, l1, l2);
    EmptyPrefix(l2);
  }

  /** The reader's limits hold the manifest, and its page budget a listing of the files and the manifest. */
  predicate ReadableWithin(a: Adapter, plan: Plan, manifest: Content) {
    ManifestFits(a.codec, a.limits, plan.objects, manifest) && ListingFits(a.limits, |plan.objects| + 1)
  }

  /** A fault-free reader of a finished snapshot rebuilds exactly the plan's objects when its
      limits hold the manifest and the listing, and otherwise stops with an error. */
  lemma ReadSnapshotRuns(a: Adapter, stamp: Key -> Version, b: Bucket, plan: Plan) returns (l: seq<Exchange>)
    requires ValidPlan(plan) && Admits(a, plan) && Finished(a.codec, b, plan)
    ensures Faultless(a.codec, stamp, b, l, b)
    ensures var marker := b[KeyOf(plan, ManifestFile)];
            var out := ReadSnapshot(a, IdOf(plan), l);
            if ReadableWithin(a, plan, marker.content)
            then out == Got(Verified(plan.(limits := a.limits), marker.content, marker.version), [])
            else out.Stop?
  {
    var key := KeyOf(plan, ManifestFile);
    var marker := b[key];
    LocalReady(a, b, plan);
    hide ReadSnapshot, Ready, Stamps, Covers, ValidPlan, Rebuild, Finished, Admits, Describing, ManifestFits,
      ListingFits, Faultless, Get, IdOf, Suffix;
    var size := Size(a.codec, marker.content.body);
    if a.limits.objectBytes < size || JSON_LIMIT < size {
      l := TooLargeStops(a, stamp, b, plan);
    } else {
      var l1 := GetRuns(a, stamp, b, key, None);
      var l2 := RebuildRuns(a, stamp, b, plan.(limits := a.limits));
      l := l1 + l2;
      FaultlessConcat(a.codec, stamp, b, l1, b, l2, b);
      ReadSnapshotJoins(a, IdOf(plan), marker, l1, l2);
    }
  }

  lemma ReadSnapshotJoins(a: Adapter, id: SnapshotId, marker: Stored, l1: seq<Exchange>, l2: seq<Exchange>)
    requires Get(a, Key(a.destination, id, ManifestFile), None, l1) == Got(Some(marker), [])
    requires marker.content.body.Canonical? && Size(a.codec, marker.content.body) <= JSON_LIMIT
    ensures ReadSnapshot(a, id, l1 + l2) == Rebuild(a, id, marker, l2)
  {
    hide Get, Rebuild, Suffix;
    GetExtends(a, Key(a.destination, id, ManifestFile), None, l1, l2);
    EmptyPrefix(l2);
  }

  lemma TooLargeStops(a: Adapter, stamp: Key -> Version, b: Bucket, plan: Plan) returns (l: seq<Exchange>)
    requires KeyOf(plan, ManifestFile) in b && plan.destination == a.destination
    requires var size := Size(a.codec, b[KeyOf(plan, ManifestFile)].content.body);
             a.limits.objectBytes < size || JSON_LIMIT < size
    ensures Faultless(a.codec, stamp, b, l, b)
    ensures ReadSnapshot(a, IdOf(plan), l).Stop?
    ensures !ManifestFits(a.codec, a.limits, plan.objects, b[KeyOf(plan, ManifestFile)].content)
  {
    hide Rebuild, IdOf;
    var key := KeyOf(plan, ManifestFile);
    l := [Exchange(Fetch(key, None), Found(b[key]))];
  }

  /** The marker of a finished snapshot, small enough to be fetched and parsed. */
  predicate Rebuildable(a: Adapter, b: Bucket, plan: Plan) {
    && Ready(a, b, plan) && Covers(Stamps(b, plan), plan) && plan.limits == a.limits
    && KeyOf(plan, ManifestFile) in b
    && var marker := b[KeyOf(plan, ManifestFile)];
    && marker.content.body.Canonical? && Describing(b, plan, marker)
    && Size(a.codec, marker.content.body) <= a.limits.objectBytes
    && Size(a.codec, marker.content.body) <= JSON_LIMIT
  }

  /** `read_snapshot` once the marker has been read and decoded. */
  lemma RebuildRuns(a: Adapter, stamp: Key -> Version, b: Bucket, plan: Plan) returns (l: seq<Exchange>)
    requires Rebuildable(a, b, plan)
    ensures Faultless(a.codec, stamp, b, l, b)
    ensures var marker := b[KeyOf(plan, ManifestFile)];
            var out := Rebuild(a, IdOf(plan), marker, l);
            if ReadableWithin(a, plan, marker.content)
            then out == Got(Verified(plan, marker.content, marker.version), [])
            else out.Stop?
  {
    hide Rebuild, Faultless, Ready, Covers, Stamps, Describing, TotalSize, KeyOf, IdOf, Suffix, ListingFits,
      FetchFiles, Joinable;
    var marker := b[KeyOf(plan, ManifestFile)];
    var l1 := MarkerFilesRun(a, stamp, b, plan, marker);
    if ManifestFits(a.codec, a.limits, plan.objects, marker.content) {
      var l2 := RecheckRuns(a, stamp, b, plan);
      FaultlessConcat(a.codec, stamp, b, l1, b, l2, b);
      MarkerJoins(a, b, plan, marker, l1);
      RebuildJoins(a, plan, marker, l1, l2);
      l := l1 + l2;
    } else {
      MarkerStops(a, plan, marker, l1);
      l := l1;
    }
  }

  /** The manifest loop over the marker: every file, or the snapshot limit refuses one. */
  lemma MarkerFilesRun(a: Adapter, stamp: Key -> Version, b: Bucket, plan: Plan, marker: Stored)
    returns (l: seq<Exchange>)
    requires Rebuildable(a, b, plan) && marker == b[KeyOf(plan, ManifestFile)]
    ensures Faultless(a.codec, stamp, b, l, b) && marker.content.body.Canonical?
    ensures var out := FetchFiles(a, IdOf(plan), marker.content.body.doc, 0, [], Size(a.codec, marker.content.body), l);
            if ManifestFits(a.codec, a.limits, plan.objects, marker.content) then out == Got(plan.objects, []) else out.Stop?
  {
    hide *;
    MarkerFacts(a, b, plan, marker);
    TotalOfAll(plan.objects);
    FitsBySize(a, plan, marker.content);
    l := FetchFilesRuns(a, stamp, b, plan, marker.content.body.doc, 0, [], Size(a.codec, marker.content.body));
  }

  lemma FitsBySize(a: Adapter, plan: Plan, manifest: Content)
    requires Size(a.codec, manifest.body) <= a.limits.objectBytes && Size(a.codec, manifest.body) <= JSON_LIMIT
    ensures ManifestFits(a.codec, a.limits, plan.objects, manifest) <==>
      Size(a.codec, manifest.body) + TotalSize(plan.objects) <= a.limits.snapshotBytes
  {
  }

  lemma MarkerJoins(a: Adapter, b: Bucket, plan: Plan, marker: Stored, l: seq<Exchange>)
    requires Rebuildable(a, b, plan) && marker == b[KeyOf(plan, ManifestFile)]
    requires FetchFiles(a, IdOf(plan), marker.content.body.doc, 0, [], Size(a.codec, marker.content.body), l) == Got(plan.objects, [])
    ensures Joinable(a, plan, marker, l)
  {
    MarkerFacts(a, b, plan, marker);
    hide Rebuildable, Ready, ValidPlan, FetchFiles, Stamps, Records, IdOf, KeyOf, Suffix, Covers, Size, IsHash;
  }

  lemma MarkerFacts(a: Adapter, b: Bucket, plan: Plan, marker: Stored)
    requires Rebuildable(a, b, plan) && marker == b[KeyOf(plan, ManifestFile)]
    ensures Ready(a, b, plan) && Covers(Stamps(b, plan), plan) && plan.limits == a.limits && plan.destination == a.destination
    ensures ValidPlan(plan) && IsHash(plan.batch) && 0 < |plan.objects| < a.limits.objects
    ensures marker.content.body.Canonical?
    ensures var doc := marker.content.body.doc;
            && doc.snapshot == IdOf(plan) && doc.destination == plan.destination && doc.batch == plan.batch
            && doc.files == Records(plan, Stamps(b, plan)) && |doc.files| == |plan.objects|
    ensures Size(a.codec, marker.content.body) <= a.limits.objectBytes && Size(a.codec, marker.content.body) <= JSON_LIMIT
  {
    ReadyFacts(a, b, plan);
    hide Ready, ValidPlan, Records, Stamps, IdOf;
  }

  lemma MarkerStops(a: Adapter, plan: Plan, marker: Stored, l: seq<Exchange>)
    requires marker.content.body.Canonical?
    requires FetchFiles(a, IdOf(plan), marker.content.body.doc, 0, [], Size(a.codec, marker.content.body), l).Stop?
    ensures Rebuild(a, IdOf(plan), marker, l).Stop?
  {
    hide FetchFiles, Recheck, ValidPlan, IdOf, Suffix;
  }

  /** The fetched files are the plan's, under a marker that passes the checks in front of the loop. */
  predicate Joinable(a: Adapter, plan: Plan, marker: Stored, l: seq<Exchange>)
    requires marker.content.body.Canonical?
  {
    var doc := marker.content.body.doc;
    && plan.limits == a.limits && plan.destination == a.destination && ValidPlan(plan)
    && doc.snapshot == IdOf(plan) && doc.destination == plan.destination && doc.batch == plan.batch
    && IsHash(doc.batch) && 0 < |doc.files| < a.limits.objects
    && FetchFiles(a, IdOf(plan), doc, 0, [], Size(a.codec, marker.content.body), l) == Got(plan.objects, [])
  }

  /** Once the files are fetched, what is left of the rebuilding is the recheck. */
  lemma RebuildJoins(a: Adapter, plan: Plan, marker: Stored, l1: seq<Exchange>, l2: seq<Exchange>)
    requires marker.content.body.Canonical? && Joinable(a, plan, marker, l1)
    ensures Rebuild(a, IdOf(plan), marker, l1 + l2) == Recheck(a, plan, marker, l2)
  {
    hide FetchFiles, Recheck, ValidPlan, IdOf;
    FetchFilesExtends(a, IdOf(plan), marker.content.body.doc, 0, [], Size(a.codec, marker.content.body), l1, l2);
    EmptyPrefix(l2);
  }

  /** The marker's document speaks of this plan and lists the stored versions. */
  predicate Describing(b: Bucket, plan: Plan, marker: Stored)
    requires marker.content.body.Canonical? && Covers(Stamps(b, plan), plan)
  {
    var doc := marker.content.body.doc;
    && doc.snapshot == IdOf(plan) && doc.destination == plan.destination && doc.batch == plan.batch
    && doc.files == Records(plan, Stamps(b, plan)) && |doc.files| == |plan.objects|
  }

  lemma TotalOfAll(objects: seq<FrozenObject>)
    ensures objects[..0] == [] && TotalSize(objects[0..]) == TotalSize(objects)
  {
    assert objects[0..] == objects;
  }

  lemma ReadyFacts(a: Adapter, b: Bucket, plan: Plan)
    requires Ready(a, b, plan)
    ensures ValidPlan(plan) && IsHash(plan.batch) && Admits(a, plan) && Finished(a.codec, b, plan)
    ensures plan.destination == a.destination && 0 < |plan.objects| < a.limits.objects
  {
    assert Contains(plan.objects, CompleteMarker);
  }

  /** The finished snapshot as the reader's own plan, under the reader's limits. */
  lemma LocalReady(a: Adapter, b: Bucket, plan: Plan)
    requires ValidPlan(plan) && Admits(a, plan) && Finished(a.codec, b, plan)
    ensures var local := plan.(limits := a.limits);
            var marker := b[KeyOf(plan, ManifestFile)];
            && Ready(a, b, local) && Covers(Stamps(b, local), local) && IdOf(local) == IdOf(plan)
            && marker.content.body.Canonical? && ValidVersion(marker.version) && Describing(b, local, marker)
  {
    var local := plan.(limits := a.limits);
    PlanPathsDistinct(plan.objects);
    FinishedAnyLimits(a.codec, b, plan, local);
    assert TidyAt(a.codec, b, local, KeyOf(local, ManifestFile));
  }

  lemma FinishedAnyLimits(codec: Codec, b: Bucket, plan: Plan, local: Plan)
    requires Finished(codec, b, plan) && local == plan.(limits := local.limits)
    ensures Finished(codec, b, local)
  {
    assert Stamps(b, plan) == Stamps(b, local);
    forall i | 0 <= i < |plan.objects|
      ensures HeldAt(b, local, local.objects[i], Stamps(b, local))
    {
      assert HeldAt(b, plan, plan.objects[i], Stamps(b, plan));
    }
    forall key | key in b && Under(local, key)
      ensures TidyAt(codec, b, local, key)
    {
      assert TidyAt(codec, b, plan, key);
      if key.path == ManifestFile {
        assert Records(plan, Stamps(b, plan)) == Records(local, Stamps(b, local));
      } else {
        var i :| 0 <= i < |plan.objects| && plan.objects[i].path == key.path && plan.objects[i].content == b[key].content;
      }
    }
  }

  // ------------------------------------------------------------ the whole publisher

  lemma {:induction false} FilledIsTidy(codec: Codec, stamp: Key -> Version, b: Bucket, plan: Plan, i: nat)
    requires Tidy(codec, b, plan) && DistinctPaths(plan.objects) && i <= |plan.objects|
    requires forall key :: ValidVersion(stamp(key))
    ensures Tidy(codec, Filled(b, plan, stamp, i), plan) && Grows(b, Filled(b, plan, stamp, i))
    ensures KeyOf(plan, ManifestFile) in Filled(b, plan, stamp, i) ==> KeyOf(plan, ManifestFile) in b
    decreases |plan.objects| - i
  {
    hide Tidy, SealedBy;
    if i < |plan.objects| {
      var o := plan.objects[i];
      var key := KeyOf(plan, o.path);
      TidyPut(codec, b, plan, key, Stored(o.content, stamp(key)));
      FilledIsTidy(codec, stamp, PutIfAbsent(b, key, Stored(o.content, stamp(key))), plan, i + 1);
    }
  }

  lemma TidyIsUsable(codec: Codec, stamp: Key -> Version, b: Bucket, plan: Plan)
    requires Tidy(codec, b, plan) && DistinctPaths(plan.objects)
    requires forall key :: ValidVersion(stamp(key))
    ensures Usable(stamp, b, plan)
  {
    forall i | 0 <= i < |plan.objects| && KeyOf(plan, plan.objects[i].path) in b
      ensures b[KeyOf(plan, plan.objects[i].path)].content == plan.objects[i].content
      ensures ValidVersion(b[KeyOf(plan, plan.objects[i].path)].version)
    {
      assert TidyAt(codec, b, plan, KeyOf(plan, plan.objects[i].path));
    }
  }

  /** The bucket with every payload object in place, the missing ones stamped by the service. */
  function SettledBucket(b: Bucket, plan: Plan, stamp: Key -> Version): Bucket {
    Filled(b, plan, stamp, 0)
  }

  /** The manifest any publisher of the plan ends up with, given the versions the service hands out. */
  function FinalManifest(codec: Codec, b: Bucket, plan: Plan, stamp: Key -> Version): Option<Content> {
    var versions := Stamps(SettledBucket(b, plan, stamp), plan);
    if Covers(versions, plan) && codec.observe(plan.objects).Some?
    then Some(ManifestOf(plan, versions, codec.observe(plan.objects).value))
    else None
  }

  /** The publisher gets as far as writing the manifest, or finds it written. */
  predicate Marks(a: Adapter, b: Bucket, plan: Plan, stamp: Key -> Version) {
    && Admits(a, plan)
    && a.codec.expansion(plan.objects) <= plan.limits.expandedBytes
    && var manifest := FinalManifest(a.codec, b, plan, stamp);
    && manifest.Some?
    && (KeyOf(plan, ManifestFile) in b || Marked(a, plan, manifest.value))
  }

  /** What the last steps in front of the manifest, and its own put, demand of the limits: the
      listing then holds the files alone. */
  predicate Marked(a: Adapter, plan: Plan, manifest: Content) {
    && ListingFits(a.limits, |plan.objects|)
    && ManifestFits(a.codec, plan.limits, plan.objects, manifest)
    && Size(a.codec, manifest.body) <= a.limits.objectBytes
  }

  /** What the configured limits and the frozen reader must allow: the manifest is written or
      there, and the same limits can read the snapshot back. */
  predicate Feasible(a: Adapter, b: Bucket, plan: Plan, stamp: Key -> Version) {
    Marks(a, b, plan, stamp) && ReadableWithin(a, plan, FinalManifest(a.codec, b, plan, stamp).value)
  }

  lemma PresentIsFinished(codec: Codec, b: Bucket, plan: Plan)
    requires Tidy(codec, b, plan) && KeyOf(plan, ManifestFile) in b
    ensures Finished(codec, b, plan) && codec.observe(plan.objects).Some?
    ensures b[KeyOf(plan, ManifestFile)].content == ManifestOf(plan, Stamps(b, plan), codec.observe(plan.objects).value)
  {
    assert TidyAt(codec, b, plan, KeyOf(plan, ManifestFile));
  }

  lemma {:induction false} HeldIsSettled(b: Bucket, plan: Plan, stamp: Key -> Version, i: nat)
    requires Held(b, plan, Stamps(b, plan)) && i <= |plan.objects|
    ensures Filled(b, plan, stamp, i) == b
    decreases |plan.objects| - i
  {
    if i < |plan.objects| {
      assert HeldAt(b, plan, plan.objects[i], Stamps(b, plan));
      HeldIsSettled(b, plan, stamp, i + 1);
    }
  }

  /** The marker's conditional create and the final read-back. */
  lemma SealRuns(a: Adapter, stamp: Key -> Version, b: Bucket, plan: Plan, manifest: Content)
    returns (l: seq<Exchange>, b': Bucket)
    requires ValidPlan(plan) && Admits(a, plan) && Tidy(a.codec, b, plan) && SealedBy(a.codec, b, plan, manifest)
    requires KeyOf(plan, ManifestFile) !in b && ValidVersion(stamp(KeyOf(plan, ManifestFile)))
    ensures Faultless(a.codec, stamp, b, l, b') && Grows(b, b')
    ensures var out := Seal(a, plan, manifest, l);
            if ManifestFits(a.codec, plan.limits, plan.objects, manifest) && ReadableWithin(a, plan, manifest)
            then out == Got(SnapshotCreated, [])
            else out.Stop?
    ensures Tidy(a.codec, b', plan)
    ensures KeyOf(plan, ManifestFile) in b' ==> b'[KeyOf(plan, ManifestFile)].content == manifest
    ensures KeyOf(plan, ManifestFile) in b' <==>
      ManifestFits(a.codec, plan.limits, plan.objects, manifest) && Size(a.codec, manifest.body) <= a.limits.objectBytes
  {
    hide Tidy, ValidPlan, SealedBy, Faultless, Create, ReadSnapshot, Finished, Admits, IdOf, Stamps, Suffix, ListingFits;
    var key := KeyOf(plan, ManifestFile);
    if !ManifestFits(a.codec, plan.limits, plan.objects, manifest)
       || a.limits.objectBytes < Size(a.codec, manifest.body) {
      l, b' := [], b;
      FaultlessEmpty(a.codec, stamp, b);
    } else {
      b' := PutIfAbsent(b, key, Stored(manifest, stamp(key)));
      TidyPut(a.codec, b, plan, key, Stored(manifest, stamp(key)));
      PresentIsFinished(a.codec, b', plan);
      var l1, version := CreateRuns(a, stamp, b, key, manifest);
      var l2 := ReadSnapshotRuns(a, stamp, b', plan);
      l := l1 + l2;
      FaultlessConcat(a.codec, stamp, b, l1, b', l2, b');
      CreateCheckedExtends(a, key, manifest, l1, l2);
      EmptyPrefix(l2);
    }
  }

  lemma DepositRuns(a: Adapter, stamp: Key -> Version, b: Bucket, plan: Plan, observations: string)
    returns (l: seq<Exchange>, b': Bucket)
    requires ValidPlan(plan) && Admits(a, plan) && Tidy(a.codec, b, plan)
    requires KeyOf(plan, ManifestFile) !in b && forall key :: ValidVersion(stamp(key))
    requires a.codec.observe(plan.objects) == Some(observations)
    ensures Faultless(a.codec, stamp, b, l, b') && Grows(b, b')
    ensures var out := Deposit(a, plan, observations, l);
            var manifest := FinalManifest(a.codec, b, plan, stamp);
            && manifest.Some?
            && if Marked(a, plan, manifest.value) && ReadableWithin(a, plan, manifest.value)
               then out == Got(SnapshotCreated, [])
               else out.Stop?
    ensures Tidy(a.codec, b', plan)
    ensures KeyOf(plan, ManifestFile) in b' ==>
      b'[KeyOf(plan, ManifestFile)].content == FinalManifest(a.codec, b, plan, stamp).value
    ensures KeyOf(plan, ManifestFile) in b' <==> Marked(a, plan, FinalManifest(a.codec, b, plan, stamp).value)
  {
    hide Deposit, Tidy, Faultless, CreateAll, ReadFiles, Seal, CheckInventory, IdOf, Stamps, HeldAt, ManifestOf,
      OrderedMaterial, ManifestFits, ReadableHere, Filled, ListsExactly, Usable, Suffix, ListingFits, TotalSize,
      WithinObjectLimit, Size, KeyOf;
    PlanPathsDistinct(plan.objects);
    FilledIsTidy(a.codec, stamp, b, plan, 0);
    TidyIsUsable(a.codec, stamp, b, plan);
    var b1 := SettledBucket(b, plan, stamp);
    var l1, versions := CreateAllRuns(a, stamp, b, plan, 0, map[]);
    SettledReadable(a, b1, plan, versions);
    TidyListsExactly(a, b1, plan);
    SameVersionsSameManifest(plan, versions, Stamps(b1, plan), observations);
    var manifest := ManifestOf(plan, versions, observations);
    var l2 := ReadFilesRuns(a, stamp, b1, plan, 0, versions);
    var l3 := InventoryRuns(a, stamp, b1, plan, None);
    var l4 := [];
    b' := b1;
    FaultlessEmpty(a.codec, stamp, b1);
    if ListingFits(a.limits, |plan.objects|) {
      l4, b' := SealRuns(a, stamp, b1, plan, manifest);
    }
    l := l1 + (l2 + (l3 + l4));
    FaultlessConcat(a.codec, stamp, b1, l3, b1, l4, b');
    FaultlessConcat(a.codec, stamp, b1, l2, b1, l3 + l4, b');
    FaultlessConcat(a.codec, stamp, b, l1, b1, l2 + (l3 + l4), b');
    DepositJoins(a, plan, observations, versions, l1, l2, l3, l4);
    if ReadableWithin(a, plan, manifest) {
      ReadableIsSmall(a, plan, manifest);
    }
  }

  lemma ReadableIsSmall(a: Adapter, plan: Plan, manifest: Content)
    requires ReadableWithin(a, plan, manifest)
    ensures Size(a.codec, manifest.body) <= a.limits.objectBytes
  {
  }

  /** The writing branch over the logs of its parts. */
  lemma DepositJoins(a: Adapter, plan: Plan, observations: string, versions: Versions, l1: seq<Exchange>, l2: seq<Exchange>,
                     l3: seq<Exchange>, l4: seq<Exchange>)
    requires CreateAll(a, plan, 0, map[], l1) == Got(versions, []) && Covers(versions, plan)
    requires ReadFiles(a, plan, 0, versions, l2) == Got((), [])
    ensures var out := Deposit(a, plan, observations, l1 + (l2 + (l3 + l4)));
            && (CheckInventory(a, plan, None, l3).Stop? ==> out.Stop?)
            && (CheckInventory(a, plan, None, l3) == Got((), []) ==>
                  out == Seal(a, plan, ManifestOf(plan, versions, observations), l4))
  {
    hide CreateAll, ReadFiles, CheckInventory, Seal, ManifestOf, Suffix, Covers;
    CreateAllExtends(a, plan, 0, map[], l1, l2 + (l3 + l4));
    EmptyPrefix(l2 + (l3 + l4));
    ReadFilesExtends(a, plan, 0, versions, l2, l3 + l4);
    EmptyPrefix(l3 + l4);
    CheckInventoryExtends(a, plan, None, l3, l4);
    EmptyPrefix(l4);
  }

  lemma SettledReadable(a: Adapter, b: Bucket, plan: Plan, versions: Versions)
    requires ValidPlan(plan) && Admits(a, plan) && Tidy(a.codec, b, plan) && Held(b, plan, versions)
    ensures Covers(versions, plan) && Covers(Stamps(b, plan), plan) && Held(b, plan, Stamps(b, plan))
    ensures forall i :: 0 <= i < |plan.objects| ==>
              ReadableHere(a, plan.objects[i], versions)
              && versions[plan.objects[i].path] == Stamps(b, plan)[plan.objects[i].path]
  {
    HeldStamps(b, plan, versions);
    forall i | 0 <= i < |plan.objects|
      ensures ReadableHere(a, plan.objects[i], versions)
    {
      assert HeldAt(b, plan, plan.objects[i], versions) && Payload(plan.objects[i], plan.batch);
      assert TidyAt(a.codec, b, plan, KeyOf(plan, plan.objects[i].path));
      PlanPathsDistinct(plan.objects);
    }
  }

  /** Once its first read found the manifest, a publisher never writes, whatever it is answered. */
  lemma NoWritesAfterMarker(a: Adapter, plan: Plan, log: seq<Exchange>)
    requires log != [] && log[0].call == Fetch(KeyOf(plan, ManifestFile), None) && log[0].reply.Found?
    ensures var out := Publish(a, plan, log); out.Need? ==> !out.call.Put?
  {
    hide ReadSnapshot, Deposit;
    ReadSnapshotWritesNothing(a, IdOf(plan), log[1..]);
  }

  /** The publisher's run when the manifest is already there: read and compare. */
  lemma RetryRuns(a: Adapter, stamp: Key -> Version, b: Bucket, plan: Plan) returns (l: seq<Exchange>)
    requires ValidPlan(plan) && Admits(a, plan) && Tidy(a.codec, b, plan) && KeyOf(plan, ManifestFile) in b
    requires a.codec.expansion(plan.objects) <= plan.limits.expandedBytes
    ensures Faultless(a.codec, stamp, b, l, b)
    ensures var out := Publish(a, plan, l);
            if ReadableWithin(a, plan, b[KeyOf(plan, ManifestFile)].content)
            then out == Got(AlreadyPresentIdentical, []) else out.Stop?
  {
    hide Tidy, Faultless, ReadSnapshot, IdOf, Stamps, ManifestOf, OrderedMaterial, ValidPlan, Finished, Suffix,
      ListingFits, TotalSize;
    var key := KeyOf(plan, ManifestFile);
    PresentIsFinished(a.codec, b, plan);
    PresentVersion(a.codec, b, plan);
    if a.limits.objectBytes < Size(a.codec, b[key].content.body) {
      l := OversizedMarker(a, stamp, b, key);
    } else {
      var l1 := GetRuns(a, stamp, b, key, None);
      var l2 := ReadSnapshotRuns(a, stamp, b, plan);
      l := l1 + l2;
      FaultlessConcat(a.codec, stamp, b, l1, b, l2, b);
      GetExtends(a, key, None, l1, l2);
      EmptyPrefix(l2);
    }
  }

  lemma PresentVersion(codec: Codec, b: Bucket, plan: Plan)
    requires Tidy(codec, b, plan) && KeyOf(plan, ManifestFile) in b
    ensures ValidVersion(b[KeyOf(plan, ManifestFile)].version)
  {
    assert TidyAt(codec, b, plan, KeyOf(plan, ManifestFile));
  }

  lemma OversizedMarker(a: Adapter, stamp: Key -> Version, b: Bucket, key: Key) returns (l: seq<Exchange>)
    requires key in b && a.limits.objectBytes < Size(a.codec, b[key].content.body)
    ensures Faultless(a.codec, stamp, b, l, b) && Get(a, key, None, l) == Stop(ReadSizeLimit)
  {
    l := [Exchange(Fetch(key, None), Found(b[key]))];
  }

  lemma AbsentRuns(a: Adapter, stamp: Key -> Version, b: Bucket, plan: Plan)
    returns (l: seq<Exchange>, b': Bucket)
    requires ValidPlan(plan) && Admits(a, plan) && Tidy(a.codec, b, plan) && KeyOf(plan, ManifestFile) !in b
    requires a.codec.expansion(plan.objects) <= plan.limits.expandedBytes && a.codec.observe(plan.objects).Some?
    requires forall key :: ValidVersion(stamp(key))
    ensures Faultless(a.codec, stamp, b, l, b') && Grows(b, b')
    ensures var out := Publish(a, plan, l);
            if Feasible(a, b, plan, stamp) then out == Got(SnapshotCreated, []) else out.Stop?
    ensures Tidy(a.codec, b', plan)
    ensures KeyOf(plan, ManifestFile) in b' ==>
      && FinalManifest(a.codec, b, plan, stamp).Some?
      && b'[KeyOf(plan, ManifestFile)].content == FinalManifest(a.codec, b, plan, stamp).value
    ensures KeyOf(plan, ManifestFile) in b' <==> Marks(a, b, plan, stamp)
  {
    hide Tidy, Deposit, ReadSnapshot, IdOf, Stamps, ManifestOf, OrderedMaterial, ValidPlan, FinalManifest, ManifestFits, Suffix,
      ListingFits, TotalSize, WithinObjectLimit, ReadableWithin, Marked;
    var key := KeyOf(plan, ManifestFile);
    var l1 := [Exchange(Fetch(key, None), Absent)];
    assert l1[1..] == [];
    assert Faultless(a.codec, stamp, b, l1, b);
    var l2;
    l2, b' := DepositRuns(a, stamp, b, plan, a.codec.observe(plan.objects).value);
    l := l1 + l2;
    FaultlessConcat(a.codec, stamp, b, l1, b, l2, b');
    GetExtends(a, key, None, l1, l2);
    EmptyPrefix(l2);
  }

  /** Main recovery theorem. From every tidy bucket, a publisher of the plan to whom the
      service answers every call, filling its pages, ends in success exactly when the
      configured limits hold the plan, its manifest and the listing of both; otherwise it
      stops with an error. The manifest is there afterwards exactly when it was or the
      publisher got as far as writing it. When it was there nothing is written. */
  lemma PublisherRecovers(a: Adapter, stamp: Key -> Version, b: Bucket, plan: Plan)
    returns (l: seq<Exchange>, b': Bucket)
    requires ValidPlan(plan) && Tidy(a.codec, b, plan) && forall key :: ValidVersion(stamp(key))
    ensures Faultless(a.codec, stamp, b, l, b') && Grows(b, b')
    ensures var out := Publish(a, plan, l);
            if Feasible(a, b, plan, stamp)
            then out == Got(if KeyOf(plan, ManifestFile) in b then AlreadyPresentIdentical else SnapshotCreated, [])
            else out.Stop?
    ensures KeyOf(plan, ManifestFile) in b ==> b' == b
    ensures Tidy(a.codec, b', plan)
    ensures KeyOf(plan, ManifestFile) in b' ==>
      Some(b'[KeyOf(plan, ManifestFile)].content) == FinalManifest(a.codec, b, plan, stamp)
    ensures KeyOf(plan, ManifestFile) in b' <==> KeyOf(plan, ManifestFile) in b || Marks(a, b, plan, stamp)
  {
    hide Tidy, Deposit, ReadSnapshot, IdOf, Stamps, ManifestOf, OrderedMaterial, ValidPlan, ManifestFits, Faultless, Get,
      Filled, Held, Suffix, ListingFits, TotalSize, WithinObjectLimit, ReadableWithin, Marked;
    if KeyOf(plan, ManifestFile) in b {
      PresentIsFinal(a.codec, b, plan, stamp);
    }
    if !Admits(a, plan) || plan.limits.expandedBytes < a.codec.expansion(plan.objects)
       || a.codec.observe(plan.objects).None? {
      l, b' := [], b;
      FaultlessEmpty(a.codec, stamp, b);
    } else if KeyOf(plan, ManifestFile) in b {
      l := RetryRuns(a, stamp, b, plan);
      b' := b;
    } else {
      l, b' := AbsentRuns(a, stamp, b, plan);
    }
  }

  /** There is such a manifest when the frozen reader accepts the files. */
  lemma FinalManifestThere(a: Adapter, b: Bucket, plan: Plan, stamp: Key -> Version)
    requires ValidPlan(plan) && Admits(a, plan) && Tidy(a.codec, b, plan) && forall key :: ValidVersion(stamp(key))
    requires a.codec.observe(plan.objects).Some?
    ensures FinalManifest(a.codec, b, plan, stamp).Some?
    ensures FinalManifest(a.codec, b, plan, stamp).value.body.Canonical?
  {
    PlanPathsDistinct(plan.objects);
    hide Tidy, Filled, OrderedMaterial, Faultless, CreateAll, Records, Held, Stamps;
    FilledIsTidy(a.codec, stamp, b, plan, 0);
    TidyIsUsable(a.codec, stamp, b, plan);
    var l, versions := CreateAllRuns(a, stamp, b, plan, 0, map[]);
    HeldStamps(SettledBucket(b, plan, stamp), plan, versions);
  }

  /** A manifest that is there is the one any publisher of the plan would end up with. */
  lemma PresentIsFinal(codec: Codec, b: Bucket, plan: Plan, stamp: Key -> Version)
    requires Tidy(codec, b, plan) && KeyOf(plan, ManifestFile) in b
    ensures FinalManifest(codec, b, plan, stamp) == Some(b[KeyOf(plan, ManifestFile)].content)
    ensures codec.observe(plan.objects).Some?
  {
    hide Tidy, Held, Stamps, ManifestOf, KeyOf, Filled;
    PresentIsFinished(codec, b, plan);
    HeldIsSettled(b, plan, stamp, 0);
  }

  /** Where the promise fails: the limits let the publisher write the manifest but not read it back.
      The run ends in an error with the manifest written, and so does every undisturbed retry. */
  lemma WrittenButUnreadable(a: Adapter, stamp: Key -> Version, b: Bucket, plan: Plan)
    returns (l: seq<Exchange>, b': Bucket, again: seq<Exchange>)
    requires ValidPlan(plan) && Tidy(a.codec, b, plan) && forall key :: ValidVersion(stamp(key))
    requires Marks(a, b, plan, stamp) && !Feasible(a, b, plan, stamp)
    ensures Faultless(a.codec, stamp, b, l, b') && Publish(a, plan, l).Stop?
    ensures KeyOf(plan, ManifestFile) in b'
    ensures Faultless(a.codec, stamp, b', again, b') && Publish(a, plan, again).Stop?
  {
    hide Tidy, Publish, ValidPlan, FinalManifest, ReadableWithin, Marked, Faultless, KeyOf, Admits;
    l, b' := PublisherRecovers(a, stamp, b, plan);
    PresentIsFinal(a.codec, b', plan, stamp);
    var b2;
    again, b2 := PublisherRecovers(a, stamp, b', plan);
  }

  /** The recovery theorem for the states runs really reach: after any crash, lost response or
      race of other publishers an undisturbed retry leaves the snapshot complete exactly when
      its limits hold the plan, the manifest and the listing, and stops otherwise. */
  lemma RetryAfterAnyRun(s: State, events: seq<Event>, a: Adapter, stamp: Key -> Version, plan: Plan)
    returns (l: seq<Exchange>, b': Bucket)
    requires Initial(s) && ValidPlan(plan) && Tidy(s.codec, s.bucket, plan) && a.codec == s.codec
    requires forall i :: 0 <= i < |events| ==> Undisturbed(plan, events[i])
    requires forall key :: ValidVersion(stamp(key))
    ensures Faultless(s.codec, stamp, Run(s, events).bucket, l, b')
    ensures if Feasible(a, Run(s, events).bucket, plan, stamp) then Publish(a, plan, l).Got? && Complete(s.codec, b', plan)
            else Publish(a, plan, l).Stop?
  {
    hide Tidy, Publish, Complete, ValidPlan, Undisturbed, Feasible, Faultless, Run;
    PublishersLeaveTidy(s, events, plan);
    l, b' := PublisherRecovers(a, stamp, Run(s, events).bucket, plan);
    if Feasible(a, Run(s, events).bucket, plan, stamp) {
      FaultlessConsistent(s.codec, stamp, Run(s, events).bucket, l, b');
      PublishLearns(b', a, plan, l);
    }
  }

  /** The exchanges of a fault-free run agree with the bucket it ends in. */
  lemma {:induction false} FaultlessConsistent(codec: Codec, stamp: Key -> Version, b: Bucket, l: seq<Exchange>, b': Bucket)
    requires Faultless(codec, stamp, b, l, b')
    ensures Grows(b, b') && Consistent(b', l)
    decreases |l|
  {
    if l != [] {
      var call := l[0].call;
      var version := if call.Put? then stamp(call.key) else None;
      var next := Serve(codec, b, call, Answered, version).0;
      FaultlessConsistent(codec, stamp, next, l[1..], b');
      assert Grows(b, next) && Agrees(next, l[0]);
      GrowsKeepsLog(next, b', [l[0]]);
      assert [l[0]][0] == l[0];
      forall i | 0 <= i < |l|
        ensures Agrees(b', l[i])
      {
        assert i > 0 ==> l[i] == l[1..][i - 1];
        assert i == 0 ==> Agrees(b', [l[0]][0]);
      }
    }
  }

  /** Two publishers about to write the manifest of one snapshot are about to write the same bytes. */
  lemma SameManifestBytes(s: State, events: seq<Event>, u: nat, v: nat)
    requires Initial(s) && u in Run(s, events).clients && v in Run(s, events).clients
    requires var t := Run(s, events);
             var x, y := Pending(t.clients[u]), Pending(t.clients[v]);
             && x.Some? && y.Some? && x.value.Put? && y.value.Put?
             && x.value.key == y.value.key && x.value.key.path == ManifestFile
    ensures var t := Run(s, events); Pending(t.clients[u]).value.content == Pending(t.clients[v]).value.content
  {
    hide Pending, Run;
    ManifestsAlwaysBacked(s, events);
    var t := Run(s, events);
    var x, y := Pending(t.clients[u]).value, Pending(t.clients[v]).value;
    PendingWrites(s.codec, t.bucket, t.clients[u], x);
    PendingWrites(s.codec, t.bucket, t.clients[v], y);
    var p, q := t.clients[u].task.plan, t.clients[v].task.plan;
    PlanPathsDistinct(p.objects);
    PlanPathsDistinct(q.objects);
    hide ValidPlan, Publish;
    KeyDeterminesSnapshot(p, q, x, y);
    WritesAgree(s.codec, t.bucket, p, p, x);
    WritesAgree(s.codec, t.bucket, p, q, y);
  }

  lemma KeyDeterminesSnapshot(p: Plan, q: Plan, x: Call, y: Call)
    requires x.Put? && y.Put? && x.key == y.key
    requires PayloadWrite(p, x) || x.key == KeyOf(p, ManifestFile)
    requires PayloadWrite(q, y) || y.key == KeyOf(q, ManifestFile)
    ensures Under(p, x.key) && Under(p, y.key) && Under(q, y.key)
  {
  }

  /** A client through which the snapshot of a plan was completed, or found complete. */
  predicate Settled(c: Client, plan: Plan) {
    match c.task
    case Publishes(p) => p == plan && Publish(c.adapter, p, c.log).Got?
    case Reads(id) =>
      id == IdOf(plan) && c.adapter.destination == plan.destination && ReadSnapshot(c.adapter, id, c.log).Got?
  }

  /** Reading back is stable: after one publisher of the plan has succeeded, or one reader has
      accepted, a fault-free reader rebuilds exactly its objects in every later state, when its
      limits hold the manifest and the listing, and otherwise stops. */
  lemma ReadableForever(s: State, events: seq<Event>, who: nat, plan: Plan, a: Adapter, stamp: Key -> Version)
    returns (l: seq<Exchange>)
    requires Initial(s) && a.codec == s.codec && ValidPlan(plan) && Tidy(s.codec, s.bucket, plan) && Admits(a, plan)
    requires forall i :: 0 <= i < |events| ==> Undisturbed(plan, events[i])
    requires who in Run(s, events).clients && Settled(Run(s, events).clients[who], plan)
    ensures Faultless(s.codec, stamp, Run(s, events).bucket, l, Run(s, events).bucket)
    ensures KeyOf(plan, ManifestFile) in Run(s, events).bucket
    ensures var out := ReadSnapshot(a, IdOf(plan), l);
            if ReadableWithin(a, plan, Run(s, events).bucket[KeyOf(plan, ManifestFile)].content)
            then out.Got? && out.rest == [] && out.value.plan == plan.(limits := a.limits) else out.Stop?
  {
    hide Publish, Tidy, Undisturbed, Run, ValidPlan, Faultless, ReadSnapshot, Pending, ReadableWithin, Admits, IdOf;
    if Run(s, events).clients[who].task.Publishes? {
      SuccessMeansComplete(s, events, who);
    } else {
      AcceptedMeansComplete(s, events, who, plan);
    }
    PublishersLeaveTidy(s, events, plan);
    l := ReadSnapshotRuns(a, stamp, Run(s, events).bucket, plan);
  }
}
