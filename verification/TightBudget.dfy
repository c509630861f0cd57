/** The smallest input at which a publisher writes a manifest it can never read back: five files,
    the fewest a plan may have, under limits that list five keys. */
module TightBudget {
  import opened Common
  import opened SnapshotTypes
  import opened Snapshot
  import opened Fleet
  import opened Recovery

  function Tight(): Limits {
    Limits(4096, 4096, 6, 5, 1, 1, 4096, 4096)
  }

  function Batch(): (batch: string)
    ensures IsHash(batch)
  {
    seq(64, i => 'a')
  }

  function Files(): seq<FrozenObject> {
    [ObjectBytes(ObservationsTable, Raw([]), Batch()), ObjectBytes(PackagesTable, Raw([]), Batch()),
     ObjectBytes(CompleteMarker, Raw([]), Batch()), ObjectBytes(NormalizationReport, Raw([]), Batch()),
     ObjectBytes(RecordsReport, Raw([]), Batch())]
  }

  function FivePlan(): Plan {
    Plan(Destination("bucket", "prefix", "region", None), Batch(), Files(), Tight())
  }

  function NoBytes(doc: Manifest): nat { 0 }

  function Readable(objects: seq<FrozenObject>): Option<string> { Some("") }

  function NoExpansion(objects: seq<FrozenObject>): nat { 0 }

  function FiveAdapter(): Adapter {
    Adapter(FivePlan().destination, Tight(), Codec(NoBytes, Readable, NoExpansion))
  }

  function Unversioned(key: Key): Version { None }

  /** Texts with a common head are in the order of what follows it. */
  lemma {:induction false} LessBehind(head: string, x: string, y: string)
    requires Less(x, y)
    ensures Less(head + x, head + y)
  {
    if head == [] {
      assert head + x == x && head + y == y;
    } else {
      assert (head + x)[1..] == head[1..] + x && (head + y)[1..] == head[1..] + y;
      LessBehind(head[1..], x, y);
    }
  }

  lemma TablesInOrder()
    ensures Before(ObservationsTable, PackagesTable)
  {
    FirstDecides("observations" + "/part-00000.parquet", "packages" + "/part-00000.parquet");
    hide Less;
    LessBehind("analytics/sbom_", "observations" + "/part-00000.parquet", "packages" + "/part-00000.parquet");
  }

  lemma ReportsInOrder()
    ensures Before(NormalizationReport, RecordsReport)
  {
    FirstDecides("normalization.json", "records.json");
    hide Less;
    LessBehind("reports/", "normalization.json", "records.json");
  }

  lemma MarkerBetween()
    ensures Before(PackagesTable, CompleteMarker) && Before(CompleteMarker, NormalizationReport)
  {
    hide Less, PathText;
    PackagesHead();
    CompleteHead();
    ReportHead();
    FirstDecides(PathText(PackagesTable), PathText(CompleteMarker));
    FirstDecides(PathText(CompleteMarker), PathText(NormalizationReport));
  }

  lemma PackagesHead()
    ensures PathText(PackagesTable) != [] && PathText(PackagesTable)[0] == 'a'
  {
  }

  lemma CompleteHead()
    ensures PathText(CompleteMarker) != [] && PathText(CompleteMarker)[0] == 'c'
  {
  }

  lemma ReportHead()
    ensures PathText(NormalizationReport) != [] && PathText(NormalizationReport)[0] == 'r'
  {
  }

  lemma FirstDecides(x: string, y: string)
    requires x != [] && y != [] && x[0] < y[0]
    ensures Less(x, y)
  {
  }

  lemma {:induction false} InOrderByNeighbours(objects: seq<FrozenObject>, i: nat, j: nat)
    requires forall k :: 0 <= k < |objects| - 1 ==> Before(objects[k].path, objects[k + 1].path)
    requires i < j < |objects|
    ensures Before(objects[i].path, objects[j].path)
    decreases j
  {
    hide Before;
    if i < j - 1 {
      InOrderByNeighbours(objects, i, j - 1);
      assert Before(objects[j - 1].path, objects[j - 1 + 1].path);
      BeforeTransitive(objects[i].path, objects[j - 1].path, objects[j].path);
    }
  }

  function FixedPaths(): seq<Path> {
    [ObservationsTable, PackagesTable, CompleteMarker, NormalizationReport, RecordsReport]
  }

  lemma FivePaths()
    ensures |Files()| == 5 && forall i :: 0 <= i < 5 ==> Files()[i] == ObjectBytes(FixedPaths()[i], Raw([]), Batch())
  {
    hide Batch;
  }

  lemma FiveOrdered()
    ensures OrderedMaterial(Files())
  {
    hide Before, PathText, Batch, Files;
    FivePaths();
    TablesInOrder();
    MarkerBetween();
    ReportsInOrder();
    var objects := Files();
    forall i, j | 0 <= i < j < |objects|
      ensures Ascends(objects, i, j)
    {
      InOrderByNeighbours(objects, i, j);
    }
    forall name | name in FIXED_FILES
      ensures Contains(objects, name)
    {
      assert name in FixedPaths();
      var i :| 0 <= i < 5 && FixedPaths()[i] == name;
      assert objects[i].path == name;
    }
  }

  lemma FivePlanValid()
    ensures ValidPlan(FivePlan())
  {
    hide OrderedMaterial, Batch, Files, TotalSize;
    FivePaths();
    FiveOrdered();
    EmptyFiles(Files());
  }

  lemma {:induction false} EmptyFiles(objects: seq<FrozenObject>)
    requires forall o | o in objects :: o.content.body == Raw([])
    ensures TotalSize(objects) == 0
  {
    if objects != [] {
      EmptyFiles(objects[1..]);
    }
  }

  /** From an empty store: the run and every retry end in an error, and the manifest is written. */
  lemma FiveFilesUnreadable() returns (l: seq<Exchange>, b: Bucket, again: seq<Exchange>)
    ensures ValidPlan(FivePlan())
    ensures Faultless(FiveAdapter().codec, Unversioned, map[], l, b) && Publish(FiveAdapter(), FivePlan(), l).Stop?
    ensures KeyOf(FivePlan(), ManifestFile) in b
    ensures Faultless(FiveAdapter().codec, Unversioned, b, again, b) && Publish(FiveAdapter(), FivePlan(), again).Stop?
  {
    FivePlanValid();
    FiveMarks();
    hide Publish, ValidPlan, Faultless, Marks, Feasible, FivePlan, FiveAdapter;
    l, b, again := WrittenButUnreadable(FiveAdapter(), Unversioned, map[], FivePlan());
  }

  lemma FiveMarks()
    ensures Marks(FiveAdapter(), map[], FivePlan(), Unversioned) && !Feasible(FiveAdapter(), map[], FivePlan(), Unversioned)
    ensures Tidy(FiveAdapter().codec, map[], FivePlan())
  {
    hide FinalManifest, ValidPlan, KeyOf, Batch, Admits, Marked, ReadableWithin, TotalSize;
    FivePlanValid();
    FiveAdmitted();
    FinalManifestThere(FiveAdapter(), map[], FivePlan(), Unversioned);
    FiveListed(FinalManifest(FiveAdapter().codec, map[], FivePlan(), Unversioned).value);
  }

  lemma FiveAdmitted()
    ensures Admits(FiveAdapter(), FivePlan())
  {
    hide Batch;
    EmptyFiles(Files());
  }

  lemma FiveListed(manifest: Content)
    requires manifest.body.Canonical?
    ensures Marked(FiveAdapter(), FivePlan(), manifest) && !ReadableWithin(FiveAdapter(), FivePlan(), manifest)
  {
    hide Batch, TotalSize;
    EmptyFiles(Files());
    assert |FivePlan().objects| == 5;
  }
}
