/** The intake ledger of `intake.py`: lots and registered closed snapshots under one root,
    behind an exclusive lock file that a killed process leaves behind. */
module Intake {
  import opened Common

  /** What identifies an ingested artifact. */
  datatype Key = Key(repository: string, run: nat, attempt: nat, framework: string)

  datatype Row = Row(key: Key, index: string, artifact: Option<nat>, sbom: string, observation: string)

  datatype Item = Item(index: string, artifacts: set<nat>, sboms: set<string>)

  datatype Coverage = Coverage(items: map<Key, Item>, observations: multiset<string>)

  datatype Kind = LOT | CLOSED_IMPORTED

  datatype Entry = Entry(kind: Kind, name: string, coverage: Coverage)

  /** A committed lot: its frozen request and destination, and its coverage. */
  datatype Lot = Lot(request: string, destination: string, snapshot: string, coverage: Coverage)

  /** The canonical record of a registered snapshot. */
  datatype Closed = Closed(destination: string, snapshot: string, coverage: Coverage)

  datatype Code =
    | CoverageInconsistent | ArtifactAlreadyIngested | ArtifactIdentityConflict | ObservationAlreadyIngested
    | IntakeBusy | AcquireFailed | StagingRejected | DuplicateArtifact | LotConflict | LotIntegrityFailed
    | ClosedEntryConflict

  datatype Outcome = LotCreated | LotAlreadyPresentIdentical | ClosedRegistered | ClosedAlreadyPresentIdentical
                   | Raised(code: Code) | Killed

  // ------------------------------------------------------------------ coverage

  predicate Consistent(rows: seq<Row>) {
    forall i, j :: 0 <= i < |rows| && 0 <= j < |rows| && rows[i].key == rows[j].key ==> rows[i].index == rows[j].index
  }

  function KeysOf(rows: seq<Row>): set<Key> {
    set r | r in rows :: r.key
  }

  function IdsOf(rows: seq<Row>, k: Key): set<nat> {
    set r | r in rows && r.key == k && r.artifact.Some? :: r.artifact.value
  }

  function SbomsOf(rows: seq<Row>, k: Key): set<string> {
    set r | r in rows && r.key == k :: r.sbom
  }

  /** What the rows cover, said of the rows: their keys, and for each key its index digest,
      artifact ids and documents; and every observation. */
  predicate Covers(c: Coverage, rows: seq<Row>) {
    && c.items.Keys == KeysOf(rows)
    && (forall k | k in c.items :: c.items[k].artifacts == IdsOf(rows, k) && c.items[k].sboms == SbomsOf(rows, k))
    && (forall r | r in rows :: r.key in c.items && c.items[r.key].index == r.index)
    && c.observations == Observations(rows)
  }

  function Observations(rows: seq<Row>): multiset<string> {
    if rows == [] then multiset{} else Observations(rows[..|rows| - 1]) + multiset{rows[|rows| - 1].observation}
  }

  function Joined(item: Item, row: Row): Item {
    Item(item.index, item.artifacts + (if row.artifact.Some? then {row.artifact.value} else {}), item.sboms + {row.sbom})
  }

  /** `_coverage`: one item per key, refused when its rows name different index digests. */
  method Cover(rows: seq<Row>) returns (r: Result<Coverage, Code>)
    ensures r.Ok? <==> Consistent(rows)
    ensures r.Ok? ==> Covers(r.value, rows)
    ensures r.Err? ==> r.error == CoverageInconsistent
  {
    var items: map<Key, Item>, observations: multiset<string> := map[], multiset{};
    for i := 0 to |rows|
      invariant Consistent(rows[..i]) && Covers(Coverage(items, observations), rows[..i])
    {
      var row := rows[i];
      assert rows[..i + 1] == rows[..i] + [row] && rows[..i + 1][..i] == rows[..i];
      var item := if row.key in items then items[row.key] else Item(row.index, {}, {});
      if item.index != row.index {
        return Err(CoverageInconsistent);
      }
      CoverOne(items, observations, rows[..i], row, item);
      items, observations := items[row.key := Joined(item, row)], observations + multiset{row.observation};
    }
    assert rows[..|rows|] == rows;
    r := Ok(Coverage(items, observations));
  }

  lemma CoverOne(items: map<Key, Item>, observations: multiset<string>, rows: seq<Row>, row: Row, item: Item)
    requires Consistent(rows) && Covers(Coverage(items, observations), rows) && item.index == row.index
    requires item == if row.key in items then items[row.key] else Item(row.index, {}, {})
    ensures Consistent(rows + [row])
    ensures Covers(Coverage(items[row.key := Joined(item, row)], observations + multiset{row.observation}), rows + [row])
  {
    hide IdsOf, SbomsOf, KeysOf, Consistent, Joined;
    var all, more := rows + [row], items[row.key := Joined(item, row)];
    assert all[..|rows|] == rows && all[|rows|] == row;
    RowsOneMore(rows, row);
    ConsistentOneMore(rows, row, items);
    assert more.Keys == KeysOf(all);
    forall k | k in more
      ensures more[k].artifacts == IdsOf(all, k) && more[k].sboms == SbomsOf(all, k)
    {
      ItemOneMore(items, rows, row, item, k);
    }
    forall r | r in all
      ensures r.key in more && more[r.key].index == r.index
    {
      assert r == row || r in rows;
      JoinedKeepsIndex(item, row);
    }
    assert Observations(all) == Observations(rows) + multiset{row.observation};
  }

  lemma JoinedKeepsIndex(item: Item, row: Row)
    ensures Joined(item, row).index == item.index
  {
  }

  lemma ItemOneMore(items: map<Key, Item>, rows: seq<Row>, row: Row, item: Item, k: Key)
    requires items.Keys == KeysOf(rows) && (k in items || k == row.key)
    requires forall l | l in items :: items[l].artifacts == IdsOf(rows, l) && items[l].sboms == SbomsOf(rows, l)
    requires item == if row.key in items then items[row.key] else Item(row.index, {}, {})
    ensures var more := items[row.key := Joined(item, row)];
            more[k].artifacts == IdsOf(rows + [row], k) && more[k].sboms == SbomsOf(rows + [row], k)
  {
    IdsOneMore(rows, row, k);
    if k !in items {
      NotCovered(rows, k);
    }
    hide IdsOf, SbomsOf, KeysOf;
  }

  lemma RowsOneMore(rows: seq<Row>, row: Row)
    ensures forall r :: r in rows + [row] <==> r in rows || r == row
    ensures KeysOf(rows + [row]) == KeysOf(rows) + {row.key}
  {
    assert row in rows + [row];
  }

  lemma IdsOneMore(rows: seq<Row>, row: Row, k: Key)
    ensures IdsOf(rows + [row], k)
         == IdsOf(rows, k) + (if row.key == k && row.artifact.Some? then {row.artifact.value} else {})
    ensures SbomsOf(rows + [row], k) == SbomsOf(rows, k) + (if row.key == k then {row.sbom} else {})
  {
    RowsOneMore(rows, row);
    assert row in rows + [row];
  }

  lemma NotCovered(rows: seq<Row>, k: Key)
    requires k !in KeysOf(rows)
    ensures IdsOf(rows, k) == {} && SbomsOf(rows, k) == {}
  {
  }

  lemma ConsistentOneMore(rows: seq<Row>, row: Row, items: map<Key, Item>)
    requires Consistent(rows) && items.Keys == KeysOf(rows)
    requires forall r | r in rows :: r.key in items && items[r.key].index == r.index
    requires row.key in items ==> items[row.key].index == row.index
    ensures Consistent(rows + [row])
  {
    var all := rows + [row];
    assert forall i :: 0 <= i < |rows| ==> all[i] == rows[i] && rows[i] in rows;
  }

  // -------------------------------------------------------------- deduplication

  /** Two coverages name the same artifact. */
  predicate SameArtifact(a: Coverage, b: Coverage) {
    exists k, l | k in a.items && l in b.items :: Clash(a, k, b, l)
  }

  predicate Clash(a: Coverage, k: Key, b: Coverage, l: Key)
    requires k in a.items && l in b.items
  {
    k == l || a.items[k].artifacts * b.items[l].artifacts != {}
  }

  /** No key, artifact id or observation id in common. */
  predicate Apart(a: Coverage, b: Coverage) {
    !SameArtifact(a, b) && a.observations * b.observations == multiset{}
  }

  lemma ApartBothWays(a: Coverage, b: Coverage)
    ensures Apart(a, b) <==> Apart(b, a)
  {
    if SameArtifact(a, b) {
      var k, l :| k in a.items && l in b.items && Clash(a, k, b, l);
      assert Clash(b, l, a, k) by { Meeting(a.items[k].artifacts, b.items[l].artifacts); }
    }
    if SameArtifact(b, a) {
      var k, l :| k in b.items && l in a.items && Clash(b, k, a, l);
      assert Clash(a, l, b, k) by { Meeting(b.items[k].artifacts, a.items[l].artifacts); }
    }
    assert a.observations * b.observations == b.observations * a.observations;
  }

  lemma Meeting(s: set<nat>, t: set<nat>)
    ensures s * t == t * s
  {
  }

  /** Two rows are of one artifact, or are one observation. */
  predicate Related(r: Row, s: Row) {
    r.key == s.key || (r.artifact.Some? && r.artifact == s.artifact) || r.observation == s.observation
  }

  lemma {:induction false} ObservedIn(rows: seq<Row>, o: string)
    ensures o in Observations(rows) <==> exists r :: r in rows && r.observation == o
  {
    if rows != [] {
      ObservedIn(rows[..|rows| - 1], o);
      assert rows == rows[..|rows| - 1] + [rows[|rows| - 1]];
    }
  }

  /** On the rows themselves: coverages are apart exactly when no row of one is related to one of the
      other. */
  lemma ApartExactly(a: Coverage, rows: seq<Row>, b: Coverage, others: seq<Row>)
    requires Covers(a, rows) && Covers(b, others)
    ensures Apart(a, b) <==> forall r, s | r in rows && s in others :: !Related(r, s)
  {
    hide Observations;
    if Apart(a, b) {
      forall r, s | r in rows && s in others
        ensures !Related(r, s)
      {
        UnrelatedRows(a, rows, b, others, r, s);
      }
    }
    if forall r, s | r in rows && s in others :: !Related(r, s) {
      UnrelatedApart(a, rows, b, others);
    }
  }

  lemma UnrelatedRows(a: Coverage, rows: seq<Row>, b: Coverage, others: seq<Row>, r: Row, s: Row)
    requires Covers(a, rows) && Covers(b, others) && Apart(a, b) && r in rows && s in others
    ensures !Related(r, s)
  {
    hide Observations;
    ObservedIn(rows, r.observation);
    ObservedIn(others, s.observation);
    assert r.observation in a.observations && s.observation in b.observations;
    NotInBoth(a.observations, b.observations, r.observation);
    assert !Clash(a, r.key, b, s.key);
    if r.artifact.Some? {
      assert r.artifact.value in a.items[r.key].artifacts;
      NotShared(a.items[r.key].artifacts, b.items[s.key].artifacts, r.artifact.value);
    }
  }

  lemma NotInBoth(m: multiset<string>, n: multiset<string>, o: string)
    requires m * n == multiset{}
    ensures !(o in m && o in n)
  {
    assert (m * n)[o] == 0;
  }

  lemma NotShared(m: set<nat>, n: set<nat>, x: nat)
    requires m * n == {}
    ensures !(x in m && x in n)
  {
    assert x !in m * n;
  }

  lemma UnrelatedApart(a: Coverage, rows: seq<Row>, b: Coverage, others: seq<Row>)
    requires Covers(a, rows) && Covers(b, others) && forall r, s | r in rows && s in others :: !Related(r, s)
    ensures Apart(a, b)
  {
    hide Observations;
    forall k, l | k in a.items && l in b.items
      ensures !Clash(a, k, b, l)
    {
      var r :| r in rows && r.key == k;
      var s :| s in others && s.key == l;
      assert !Related(r, s);
      forall id
        ensures id !in a.items[k].artifacts * b.items[l].artifacts
      {
        if id in a.items[k].artifacts {
          var r' :| r' in rows && r'.key == k && r'.artifact == Some(id);
          assert forall s' | s' in others :: !Related(r', s');
          assert id !in IdsOf(others, l);
        }
      }
      assert a.items[k].artifacts * b.items[l].artifacts == {};
    }
    forall o
      ensures o !in a.observations * b.observations
    {
      ObservedIn(rows, o);
      ObservedIn(others, o);
      if o in a.observations {
        var r :| r in rows && r.observation == o;
        assert forall s | s in others :: !Related(r, s);
      }
    }
    assert a.observations * b.observations == multiset{};
  }

  /** There is one coverage of given rows. */
  lemma OneCoverage(a: Coverage, b: Coverage, rows: seq<Row>)
    requires Covers(a, rows) && Covers(b, rows)
    ensures a == b
  {
    hide Observations, IdsOf, SbomsOf;
    forall k | k in a.items
      ensures a.items[k] == b.items[k]
    {
      var r :| r in rows && r.key == k;
    }
    assert a.items == b.items;
  }

  /** The error for the first clashing pair: the very same artifact, or the same identity
      with other bytes. */
  method FindClash(known: Coverage, new_: Coverage) returns (r: Option<Code>)
    ensures r.Some? <==> SameArtifact(known, new_)
    ensures r.Some? ==> r.value == ArtifactAlreadyIngested || r.value == ArtifactIdentityConflict
    ensures r.Some? ==>
      exists k, l | k in known.items && l in new_.items ::
        Clash(known, k, new_, l)
        && (r.value == ArtifactAlreadyIngested <==>
              known.items[k].index == new_.items[l].index && known.items[k].sboms == new_.items[l].sboms)
  {
    var todo := new_.items.Keys;
    while todo != {}
      invariant todo <= new_.items.Keys
      invariant forall k, l | k in known.items && l in new_.items.Keys - todo :: !Clash(known, k, new_, l)
      decreases |todo|
    {
      var l :| l in todo;
      var left := known.items.Keys;
      while left != {}
        invariant left <= known.items.Keys
        invariant forall k | k in known.items.Keys - left :: !Clash(known, k, new_, l)
        decreases |left|
      {
        var k :| k in left;
        if Clash(known, k, new_, l) {
          var same := known.items[k].index == new_.items[l].index && known.items[k].sboms == new_.items[l].sboms;
          return Some(if same then ArtifactAlreadyIngested else ArtifactIdentityConflict);
        }
        left := left - {k};
      }
      todo := todo - {l};
    }
    r := None;
  }

  /** Why a coverage is refused beside a known one. */
  predicate RefusedFor(code: Code, known: Coverage, new_: Coverage) {
    if code == ObservationAlreadyIngested then
      !SameArtifact(known, new_) && known.observations * new_.observations != multiset{}
    else
      && (code == ArtifactAlreadyIngested || code == ArtifactIdentityConflict)
      && exists k, l | k in known.items && l in new_.items ::
           Clash(known, k, new_, l)
           && (code == ArtifactAlreadyIngested <==>
                 known.items[k].index == new_.items[l].index && known.items[k].sboms == new_.items[l].sboms)
  }

  /** `_deduplicate`: against every known entry but the one of the same kind and name. */
  method Deduplicate(entries: seq<Entry>, kind: Kind, name: string, coverage: Coverage) returns (r: Option<Code>)
    ensures r.None? <==> forall e | e in entries && (e.kind != kind || e.name != name) :: Apart(e.coverage, coverage)
    ensures r.Some? ==> exists e | e in entries && (e.kind != kind || e.name != name) :: RefusedFor(r.value, e.coverage, coverage)
  {
    for i := 0 to |entries|
      invariant forall e | e in entries[..i] && (e.kind != kind || e.name != name) :: Apart(e.coverage, coverage)
    {
      var e := entries[i];
      assert e in entries && entries[..i + 1] == entries[..i] + [e];
      if e.kind == kind && e.name == name {
        continue;
      }
      r := FindClash(e.coverage, coverage);
      if r.Some? {
        return;
      }
      if e.coverage.observations * coverage.observations != multiset{} {
        return Some(ObservationAlreadyIngested);
      }
    }
    assert entries[..|entries|] == entries;
    r := None;
  }

  // ------------------------------------------------------------------- requests

  datatype Artifact = Artifact(framework: string, id: nat, archive: string)

  predicate AllDifferent(artifacts: seq<Artifact>) {
    forall i, j :: 0 <= i < j < |artifacts| ==>
      && artifacts[i].framework != artifacts[j].framework
      && artifacts[i].id != artifacts[j].id
      && artifacts[i].archive != artifacts[j].archive
  }

  datatype Seen = Framework(name: string) | ArtifactId(id: nat) | Archive(sha: string)

  function Identities(a: Artifact): set<Seen> {
    {Framework(a.framework), ArtifactId(a.id), Archive(a.archive)}
  }

  function SeenIn(artifacts: seq<Artifact>): set<Seen> {
    if artifacts == [] then {} else SeenIn(artifacts[..|artifacts| - 1]) + Identities(artifacts[|artifacts| - 1])
  }

  lemma {:induction false} SeenAt(artifacts: seq<Artifact>, s: Seen)
    ensures s in SeenIn(artifacts) <==> exists j :: 0 <= j < |artifacts| && s in Identities(artifacts[j])
  {
    if artifacts != [] {
      var before := artifacts[..|artifacts| - 1];
      SeenAt(before, s);
      assert forall j :: 0 <= j < |before| ==> before[j] == artifacts[j];
    }
  }

  lemma NothingInCommon(x: Seen, y: Seen, z: Seen, seen: set<Seen>)
    ensures {x, y, z} * seen == {} <==> x !in seen && y !in seen && z !in seen
  {
    var both := {x, y, z} * seen;
    if both == {} {
      assert x !in both && y !in both && z !in both;
    }
  }

  /** A new artifact shares no identity with those before it exactly when all stay different. */
  lemma DifferentOneMore(artifacts: seq<Artifact>, a: Artifact)
    requires AllDifferent(artifacts)
    ensures AllDifferent(artifacts + [a]) <==> Identities(a) * SeenIn(artifacts) == {}
  {
    SeenAt(artifacts, Framework(a.framework));
    SeenAt(artifacts, ArtifactId(a.id));
    SeenAt(artifacts, Archive(a.archive));
    var all := artifacts + [a];
    NothingInCommon(Framework(a.framework), ArtifactId(a.id), Archive(a.archive), SeenIn(artifacts));
    if AllDifferent(all) {
      forall j | 0 <= j < |artifacts|
        ensures artifacts[j].framework != a.framework && artifacts[j].id != a.id && artifacts[j].archive != a.archive
      {
        assert all[j] == artifacts[j] && all[|artifacts|] == a;
      }
    }
  }

  lemma FewerDifferent(artifacts: seq<Artifact>, n: nat)
    requires n <= |artifacts|
    ensures AllDifferent(artifacts) ==> AllDifferent(artifacts[..n])
  {
  }

  /** The loop of `_request` that grows `seen`. */
  method CheckArtifacts(artifacts: seq<Artifact>) returns (ok: bool)
    ensures ok <==> AllDifferent(artifacts)
  {
    hide Identities;
    var seen: set<Seen> := {};
    for i := 0 to |artifacts|
      invariant AllDifferent(artifacts[..i]) && seen == SeenIn(artifacts[..i])
    {
      var keys := Identities(artifacts[i]);
      DifferentOneMore(artifacts[..i], artifacts[i]);
      assert artifacts[..i + 1] == artifacts[..i] + [artifacts[i]] && artifacts[..i + 1][..i] == artifacts[..i];
      if keys * seen != {} {
        FewerDifferent(artifacts, i + 1);
        return false;
      }
      seen := seen + keys;
    }
    assert artifacts[..|artifacts|] == artifacts;
    ok := true;
  }

  // ------------------------------------------------------------------ the ledger

  /** Where a process is killed, if it is: before or after its one commit. */
  datatype Life = Finishes | KilledBeforeCommit | KilledAfterCommit

  /** One call on the root. `staged` is what acquisition, staging and normalization give for a
      lot (None when one of them fails); `intact` the read-back of a lot that is there. */
  datatype Act =
    | Processes(lot: string, request: string, artifacts: seq<Artifact>, destination: string, snapshot: string,
                staged: Option<seq<Row>>, intact: bool, life: Life)
    | Registers(name: string, destination: string, snapshot: string, rows: seq<Row>, life: Life)
    | RemovesStaleLock

  class Root {
    var lots: map<string, Lot>
    var closed: map<string, Closed>
    var locked: bool

    constructor ()
      ensures Valid() && lots == map[] && closed == map[] && !locked
    {
      lots, closed, locked := map[], map[], false;
    }

    /** Any two different entries have no artifact and no observation in common. */
    ghost predicate Valid()
      reads this
    {
      && (forall m, n | m in lots && n in lots && m != n :: Apart(lots[m].coverage, lots[n].coverage))
      && (forall m, n | m in closed && n in closed && m != n :: Apart(closed[m].coverage, closed[n].coverage))
      && (forall m, n | m in lots && n in closed :: Apart(lots[m].coverage, closed[n].coverage))
    }

    /** Nothing committed is ever changed or removed. */
    twostate predicate Grows()
      reads this
    {
      && (forall n | n in old(lots) :: n in lots && lots[n] == old(lots)[n])
      && (forall n | n in old(closed) :: n in closed && closed[n] == old(closed)[n])
    }

    twostate predicate Untouched()
      reads this
    {
      lots == old(lots) && closed == old(closed)
    }

    method ClosedEntries() returns (entries: seq<Entry>)
      ensures forall n | n in closed :: Entry(CLOSED_IMPORTED, n, closed[n].coverage) in entries
      ensures forall e | e in entries :: e.kind == CLOSED_IMPORTED && e.name in closed && e.coverage == closed[e.name].coverage
    {
      entries := [];
      var names := Sorted(closed.Keys);
      for i := 0 to |names|
        invariant forall j :: 0 <= j < i ==> names[j] in closed && Entry(CLOSED_IMPORTED, names[j], closed[names[j]].coverage) in entries
        invariant forall e | e in entries :: e.kind == CLOSED_IMPORTED && e.name in closed && e.coverage == closed[e.name].coverage
      {
        assert names[i] in names;
        entries := entries + [Entry(CLOSED_IMPORTED, names[i], closed[names[i]].coverage)];
      }
      assert forall n | n in closed :: n in names;
    }

    method LotEntries() returns (entries: seq<Entry>)
      ensures forall n | n in lots :: Entry(LOT, n, lots[n].coverage) in entries
      ensures forall e | e in entries :: e.kind == LOT && e.name in lots && e.coverage == lots[e.name].coverage
    {
      entries := [];
      var names := Sorted(lots.Keys);
      for i := 0 to |names|
        invariant forall j :: 0 <= j < i ==> names[j] in lots && Entry(LOT, names[j], lots[names[j]].coverage) in entries
        invariant forall e | e in entries :: e.kind == LOT && e.name in lots && e.coverage == lots[e.name].coverage
      {
        assert names[i] in names;
        entries := entries + [Entry(LOT, names[i], lots[names[i]].coverage)];
      }
      assert forall n | n in lots :: n in names;
    }

    /** `_entries`: the registered snapshots, then the lots, each by name. */
    method Entries() returns (entries: seq<Entry>)
      ensures forall n | n in closed :: Entry(CLOSED_IMPORTED, n, closed[n].coverage) in entries
      ensures forall n | n in lots :: Entry(LOT, n, lots[n].coverage) in entries
      ensures forall e | e in entries ::
        if e.kind == LOT then e.name in lots && e.coverage == lots[e.name].coverage
        else e.name in closed && e.coverage == closed[e.name].coverage
    {
      var registered := ClosedEntries();
      var committed := LotEntries();
      entries := registered + committed;
    }

    /** What `_deduplicate` decides about a new entry. */
    method CheckNew(kind: Kind, name: string, coverage: Coverage) returns (r: Option<Code>)
      ensures r.None? <==> IsNew(lots, closed, kind, name, coverage)
      ensures r.Some? ==> IsRefused(lots, closed, kind, name, coverage, r.value)
    {
      hide Apart, RefusedFor;
      var entries := Entries();
      r := Deduplicate(entries, kind, name, coverage);
    }

    /** The part of `process` under the lock. */
    method CommitLot(act: Act) returns (r: Outcome)
      requires act.Processes? && Valid()
      modifies this`lots
      ensures Valid() && Grows() && closed == old(closed)
      ensures LotStep(old(lots), closed, act, r, lots)
    {
      hide Covers, Apart, RefusedFor;
      if act.lot in lots {
        var lot := lots[act.lot];
        if lot.request != act.request || lot.destination != act.destination {
          return Raised(LotConflict);
        }
        return if act.intact then LotAlreadyPresentIdentical else Raised(LotIntegrityFailed);
      }
      if act.staged.None? {
        return Raised(AcquireFailed);
      }
      var coverage := Cover(act.staged.value);
      if coverage.Err? {
        return Raised(coverage.error);
      }
      var known := CheckNew(LOT, act.lot, coverage.value);
      if known.Some? {
        return Raised(known.value);
      }
      ApartFromAll(lots, coverage.value);
      ClosedApartFromAll(closed, coverage.value);
      lots := lots[act.lot := Lot(act.request, act.destination, act.snapshot, coverage.value)];
      r := LotCreated;
    }

    /** The part of `register_closed` under the lock. */
    method CommitClosed(act: Act, coverage: Coverage) returns (r: Outcome)
      requires act.Registers? && Valid()
      modifies this`closed
      ensures Valid() && Grows() && lots == old(lots)
      ensures ClosedStep(lots, old(closed), act, coverage, r, closed)
    {
      hide Apart, RefusedFor;
      var record := Closed(act.destination, act.snapshot, coverage);
      if act.name in closed {
        return if closed[act.name] == record then ClosedAlreadyPresentIdentical else Raised(ClosedEntryConflict);
      }
      var known := CheckNew(CLOSED_IMPORTED, act.name, coverage);
      if known.Some? {
        return Raised(known.value);
      }
      ClosedApartFromAll(closed, coverage);
      closed := closed[act.name := record];
      r := ClosedRegistered;
    }

    /** `process`, `register_closed`, or the operator removing a lock file left behind. Only a
        killed process leaves the lock; while it is there nothing is committed. */
    method Do(act: Act) returns (r: Outcome)
      requires Valid()
      modifies this
      ensures Valid() && Grows()
      ensures old(locked) && !act.RemovesStaleLock? ==> Untouched() && locked && r.Raised?
      ensures !old(locked) ==> (locked <==> r == Killed)
      ensures act.RemovesStaleLock? ==> Untouched() && !locked
      ensures act.Processes? && !old(locked) ==>
        if !AllDifferent(act.artifacts) then r == Raised(DuplicateArtifact) && Untouched()
        else if act.life == KilledBeforeCommit then r == Killed && Untouched()
        else closed == old(closed) && LotEnd(old(lots), closed, act, r, lots)
      ensures act.Registers? && !old(locked) ==>
        if !Consistent(act.rows) then r == Raised(CoverageInconsistent) && Untouched()
        else if act.life == KilledBeforeCommit then r == Killed && Untouched()
        else lots == old(lots) && ClosedEnd(lots, old(closed), act, r, closed)
      ensures r.Raised? || r == LotAlreadyPresentIdentical || r == ClosedAlreadyPresentIdentical ==> Untouched()
    {
      hide Apart, RefusedFor, IsNew, IsRefused, Covers, AllDifferent, Consistent;
      match act
      case RemovesStaleLock =>
        locked := false;
        r := Raised(IntakeBusy);
      case Processes(lot, request, artifacts, destination, snapshot, staged, intact, life) =>
        var different := CheckArtifacts(artifacts);
        if !different {
          return Raised(DuplicateArtifact);
        }
        if locked {
          return Raised(IntakeBusy);
        }
        r := Killed;
        if life != KilledBeforeCommit {
          r := CommitLot(act);
          assert LotStep(old(lots), closed, act, r, lots);
        }
        ghost var end := r;
        r := if life == Finishes then r else Killed;
        locked := r == Killed;
        assert life != KilledBeforeCommit ==> LotStep(old(lots), closed, act, end, lots);
      case Registers(name, destination, snapshot, rows, life) =>
        var coverage := Cover(rows);
        if coverage.Err? {
          return Raised(coverage.error);
        }
        if locked {
          return Raised(IntakeBusy);
        }
        r := Killed;
        if life != KilledBeforeCommit {
          r := CommitClosed(act, coverage.value);
        }
        ghost var end := r;
        r := if life == Finishes then r else Killed;
        locked := r == Killed;
        assert life != KilledBeforeCommit ==> ClosedStep(lots, old(closed), act, coverage.value, end, closed);
    }

    /** Any sequence of calls, retries, crashes and lock removals. */
    method Run(acts: seq<Act>)
      requires Valid()
      modifies this
      ensures Valid() && Grows()
    {
      for i := 0 to |acts|
        invariant Valid() && Grows()
      {
        var r := Do(acts[i]);
      }
    }
  }

  /** A coverage is apart from everything committed under another name of its kind. */
  predicate IsNew(lots: map<string, Lot>, closed: map<string, Closed>, kind: Kind, name: string, coverage: Coverage) {
    && (forall n | n in lots && !(kind == LOT && n == name) :: Apart(lots[n].coverage, coverage))
    && (forall n | n in closed && !(kind == CLOSED_IMPORTED && n == name) :: Apart(closed[n].coverage, coverage))
  }

  predicate IsRefused(lots: map<string, Lot>, closed: map<string, Closed>, kind: Kind, name: string, coverage: Coverage, code: Code) {
    || (exists n | n in lots && !(kind == LOT && n == name) :: RefusedFor(code, lots[n].coverage, coverage))
    || (exists n | n in closed && !(kind == CLOSED_IMPORTED && n == name) :: RefusedFor(code, closed[n].coverage, coverage))
  }

  /** What `process` does under the lock: a known name is identical or refused; a new one is created exactly
      when its rows are there, consistent and apart from everything committed, and each other case has its
      own refusal. */
  ghost predicate LotStep(lots: map<string, Lot>, closed: map<string, Closed>, act: Act, r: Outcome, lots': map<string, Lot>)
    requires act.Processes?
  {
    if act.lot in lots then
      && lots' == lots
      && r == (if lots[act.lot].request != act.request || lots[act.lot].destination != act.destination then Raised(LotConflict)
               else if act.intact then LotAlreadyPresentIdentical else Raised(LotIntegrityFailed))
    else if act.staged.None? then lots' == lots && r == Raised(AcquireFailed)
    else if !Consistent(act.staged.value) then lots' == lots && r == Raised(CoverageInconsistent)
    else exists coverage :: Covers(coverage, act.staged.value) &&
           if IsNew(lots, closed, LOT, act.lot, coverage) then
             r == LotCreated && lots' == lots[act.lot := Lot(act.request, act.destination, act.snapshot, coverage)]
           else lots' == lots && r.Raised? && IsRefused(lots, closed, LOT, act.lot, coverage, r.code)
  }

  /** What `register_closed` does under the lock. */
  predicate ClosedStep(lots: map<string, Lot>, closed: map<string, Closed>, act: Act, coverage: Coverage, r: Outcome,
                       closed': map<string, Closed>)
    requires act.Registers?
  {
    var record := Closed(act.destination, act.snapshot, coverage);
    if act.name in closed then
      closed' == closed && r == if closed[act.name] == record then ClosedAlreadyPresentIdentical else Raised(ClosedEntryConflict)
    else if IsNew(lots, closed, CLOSED_IMPORTED, act.name, coverage) then
      r == ClosedRegistered && closed' == closed[act.name := record]
    else closed' == closed && r.Raised? && IsRefused(lots, closed, CLOSED_IMPORTED, act.name, coverage, r.code)
  }

  /** The same, seen by a caller that is told nothing when the process is killed behind the commit. */
  ghost predicate LotEnd(lots: map<string, Lot>, closed: map<string, Closed>, act: Act, r: Outcome, lots': map<string, Lot>)
    requires act.Processes?
  {
    exists end :: LotStep(lots, closed, act, end, lots') && r == if act.life == Finishes then end else Killed
  }

  ghost predicate ClosedEnd(lots: map<string, Lot>, closed: map<string, Closed>, act: Act, r: Outcome,
                            closed': map<string, Closed>)
    requires act.Registers?
  {
    exists coverage, end | Covers(coverage, act.rows) ::
      ClosedStep(lots, closed, act, coverage, end, closed') && r == if act.life == Finishes then end else Killed
  }

  lemma ApartFromAll(lots: map<string, Lot>, coverage: Coverage)
    ensures forall n | n in lots :: Apart(lots[n].coverage, coverage) <==> Apart(coverage, lots[n].coverage)
  {
    forall n | n in lots
      ensures Apart(lots[n].coverage, coverage) <==> Apart(coverage, lots[n].coverage)
    {
      ApartBothWays(lots[n].coverage, coverage);
    }
  }

  lemma ClosedApartFromAll(closed: map<string, Closed>, coverage: Coverage)
    ensures forall n | n in closed :: Apart(closed[n].coverage, coverage) <==> Apart(coverage, closed[n].coverage)
  {
    forall n | n in closed
      ensures Apart(closed[n].coverage, coverage) <==> Apart(coverage, closed[n].coverage)
    {
      ApartBothWays(closed[n].coverage, coverage);
    }
  }
}
