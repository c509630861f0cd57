/** The create-once evidence store: conditional creation with read-back and reconciliation, any
    number of callers, and an unreliable connection in front of the objects. */
module EvidenceStore {
  import opened Common

  // ---------------------------------------------------------------------- content

  type Metadata = seq<(string, string)>

  datatype Content = Content(data: seq<byte>, metadata: Metadata)
  datatype Stored = Stored(content: Content, version: string)
  type Store = map<string, Stored>

  /** `metadata_pairs`: the entries in the order of their names; an empty name is refused. */
  function MetadataPairs(metadata: map<string, string>): (r: Option<Metadata>)
    ensures r.None? <==> "" in metadata
  {
    if "" in metadata then None else Some(Pairs(metadata))
  }

  function Pairs(metadata: map<string, string>): Metadata {
    var names := Sorted(metadata.Keys);
    seq(|names|, i requires 0 <= i < |names| => Pair(metadata, names, i))
  }

  function Pair(metadata: map<string, string>, names: seq<string>, i: nat): (string, string)
    requires i < |names| && forall name | name in names :: name in metadata
  {
    (names[i], metadata[names[i]])
  }

  function Freeze(data: seq<byte>, metadata: map<string, string>): Option<Content> {
    match MetadataPairs(metadata)
    case None => None
    case Some(pairs) => Some(Content(data, pairs))
  }

  lemma PairsHold(metadata: map<string, string>, name: string, value: string)
    ensures (name, value) in Pairs(metadata) <==> name in metadata && metadata[name] == value
  {
    var names := Sorted(metadata.Keys);
    if name in metadata {
      assert name in names;
      var i :| 0 <= i < |names| && names[i] == name;
      assert Pairs(metadata)[i] == (name, metadata[name]);
    }
  }

  /** Two frozen objects are equal exactly when their bytes and their application metadata are. */
  lemma FrozenSameExactly(data: seq<byte>, metadata: map<string, string>, data': seq<byte>, metadata': map<string, string>)
    requires Freeze(data, metadata).Some? && Freeze(data', metadata').Some?
    ensures Freeze(data, metadata) == Freeze(data', metadata') <==> data == data' && metadata == metadata'
  {
    hide Pairs;
    if Pairs(metadata) == Pairs(metadata') {
      forall name
        ensures name in metadata <==> name in metadata'
        ensures name in metadata ==> metadata[name] == metadata'[name]
      {
        if name in metadata {
          PairsHold(metadata, name, metadata[name]);
          PairsHold(metadata', name, metadata[name]);
        }
        if name in metadata' {
          PairsHold(metadata', name, metadata'[name]);
          PairsHold(metadata, name, metadata'[name]);
        }
      }
      assert metadata == metadata';
    }
  }

  // ------------------------------------------------------------------- connection

  /** What the connection does to one call. A lost or failed creation may have landed or not. */
  datatype Fault =
    | Clean
    | Lost(landed: bool)     // WriteResponseLost
    | Failed(landed: bool)   // any other exception
    | Invalid                // a creation without a version; a read of another version

  datatype Answer = Named(version: string) | AlreadyThere | ResponseLost | Broken
  datatype Reading = Found(stored: Stored) | Missing | Unreadable

  datatype WriteResult = Created(stored: Stored) | Identical(stored: Stored) | Conflict(stored: Stored) | Error

  function Land(store: Store, key: string, content: Content, version: string): (r: Store)
    ensures key in r && forall k | k in store :: k in r && r[k] == store[k]
    ensures forall k | k in r :: k in store || k == key
  {
    if key in store then store else store[key := Stored(content, version)]
  }

  /** One conditional creation as the store and the caller see it. */
  function Put(store: Store, key: string, content: Content, version: string, fault: Fault): (Store, Answer) {
    match fault
    case Lost(landed) => (if landed then Land(store, key, content, version) else store, ResponseLost)
    case Failed(landed) => (if landed then Land(store, key, content, version) else store, Broken)
    case _ =>
      if key in store then (store, AlreadyThere)
      else (Land(store, key, content, version), Named(if fault.Clean? then version else ""))
  }

  function Read(store: Store, key: string, version: Option<string>, fault: Fault): Reading {
    if !fault.Clean? then Unreadable
    else if key !in store || (version.Some? && store[key].version != version.value) then Missing
    else Found(store[key])
  }

  // ----------------------------------------------------------------------- caller

  /** Where one call of `create_once` stands. */
  datatype Phase = Putting | Reconciling | ReadingBack(version: string) | Done(result: WriteResult)

  function AfterPut(answer: Answer): Phase {
    match answer
    case AlreadyThere => Reconciling
    case ResponseLost => Reconciling
    case Broken => Done(Error)
    case Named(version) => if version == "" then Done(Error) else ReadingBack(version)
  }

  function AfterReconcile(content: Content, reading: Reading): WriteResult {
    match reading
    case Found(stored) => if stored.content != content then Conflict(stored) else Identical(stored)
    case _ => Error
  }

  function AfterReadBack(content: Content, reading: Reading): WriteResult {
    match reading
    case Found(stored) => if stored.content != content then Error else Created(stored)
    case _ => Error
  }

  function NextFault(faults: seq<Fault>): Fault {
    if faults == [] then Clean else faults[0]
  }

  function LaterFaults(faults: seq<Fault>): seq<Fault> {
    if faults == [] then [] else faults[1..]
  }

  datatype Ended = Ended(store: Store, faults: seq<Fault>, result: WriteResult)

  /** A whole call with nobody in between. */
  function Alone(store: Store, faults: seq<Fault>, key: string, content: Content, version: string): Ended {
    var (after, answer) := Put(store, key, content, version, NextFault(faults));
    var rest := LaterFaults(faults);
    match AfterPut(answer)
    case Done(result) => Ended(after, rest, result)
    case ReadingBack(v) => Ended(after, LaterFaults(rest), AfterReadBack(content, Read(after, key, Some(v), NextFault(rest))))
    case _ => Ended(after, LaterFaults(rest), AfterReconcile(content, Read(after, key, None, NextFault(rest))))
  }

  /** The atomic create-once map: what an undisturbed call must answer. */
  function Atomic(store: Store, key: string, content: Content, version: string): (Store, WriteResult) {
    if key !in store then (store[key := Stored(content, version)], Created(Stored(content, version)))
    else if store[key].content == content then (store, Identical(store[key]))
    else (store, Conflict(store[key]))
  }

  /** Without faults `create_once` is the atomic map. */
  lemma UndisturbedIsAtomic(store: Store, key: string, content: Content, version: string)
    requires version != ""
    ensures Alone(store, [], key, content, version)
         == Ended(Atomic(store, key, content, version).0, [], Atomic(store, key, content, version).1)
  {
  }

  /** Whatever one call met, trying again undisturbed settles it: a conflict exactly when another
      content was there before, and otherwise this content, written once by the two calls together. */
  lemma RetrySettles(store: Store, faults: seq<Fault>, key: string, content: Content, version: string, later: string)
    requires later != ""
    ensures
      var first := Alone(store, faults, key, content, version);
      var second := Alone(first.store, [], key, content, later);
      && !second.result.Error?
      && (second.result.Conflict? <==> key in store && store[key].content != content)
      && second.store == store[key := second.result.stored]
      && (key in store ==> second.result.stored == store[key])
      && (first.store == store || second.store == first.store)
      && (!first.result.Error? ==> second.result.stored == first.result.stored)
  {
    hide Alone, Atomic;
    var first := Alone(store, faults, key, content, version);
    FirstCall(store, faults, key, content, version);
    UndisturbedIsAtomic(first.store, key, content, later);
    AtomicIs(first.store, key, content, later);
  }

  /** What any call leaves: nothing new, or its own object; and the truth, if it answers. */
  lemma FirstCall(store: Store, faults: seq<Fault>, key: string, content: Content, version: string)
    ensures var first := Alone(store, faults, key, content, version);
      && (first.store == store || (key !in store && first.store == store[key := Stored(content, version)]))
      && (!first.result.Error? ==> key in first.store && first.result.stored == first.store[key])
  {
    hide NextFault, LaterFaults;
  }

  lemma AtomicIs(store: Store, key: string, content: Content, version: string)
    ensures var (after, result) := Atomic(store, key, content, version);
      && !result.Error? && after == store[key := result.stored]
      && (key in store ==> after == store)
      && (result.Conflict? <==> key in store && store[key].content != content)
  {
  }

  // ----------------------------------------------------------------- many callers

  datatype Caller = Caller(key: string, content: Content, phase: Phase)

  /** The objects, the calls under way, and which call wrote which object, in order. */
  datatype System = System(store: Store, callers: seq<Caller>, writes: seq<(string, nat)>)

  /** Call `who` takes its next step; `version` is the name the service would give. */
  datatype Event = Event(who: nat, fault: Fault, version: string)

  function Move(store: Store, caller: Caller, fault: Fault, version: string): (Store, Caller) {
    match caller.phase
    case Putting =>
      var (after, answer) := Put(store, caller.key, caller.content, version, fault);
      (after, caller.(phase := AfterPut(answer)))
    case Reconciling =>
      (store, caller.(phase := Done(AfterReconcile(caller.content, Read(store, caller.key, None, fault)))))
    case ReadingBack(v) =>
      (store, caller.(phase := Done(AfterReadBack(caller.content, Read(store, caller.key, Some(v), fault)))))
    case Done(_) => (store, caller)
  }

  function Step(sys: System, e: Event): (r: System)
    ensures |r.callers| == |sys.callers|
  {
    if e.who >= |sys.callers| then sys
    else
      var caller := sys.callers[e.who];
      var (after, moved) := Move(sys.store, caller, e.fault, e.version);
      System(after, sys.callers[e.who := moved],
             if after == sys.store then sys.writes else sys.writes + [(caller.key, e.who)])
  }

  function Run(sys: System, events: seq<Event>): (r: System)
    ensures |r.callers| == |sys.callers|
    decreases |events|
  {
    if events == [] then sys else Run(Step(sys, events[0]), events[1..])
  }

  /** Calls that have not begun, over any store. */
  predicate Fresh(sys: System) {
    sys.writes == [] && forall c | c in sys.callers :: c.phase.Putting?
  }

  predicate Wrote(sys: System, key: string, who: nat) {
    (key, who) in sys.writes
  }

  /** What is known of call `i` where it stands. */
  ghost predicate CallerSane(sys: System, i: nat)
    requires i < |sys.callers|
  {
    var Caller(key, content, phase) := sys.callers[i];
    match phase
    case Putting => forall k :: !Wrote(sys, k, i)
    case Reconciling => true
    case ReadingBack(v) => Wrote(sys, key, i) && key in sys.store && sys.store[key].version == v
    case Done(Created(o)) => Wrote(sys, key, i) && key in sys.store && sys.store[key] == o && o.content == content
    case Done(Identical(o)) => key in sys.store && sys.store[key] == o && o.content == content
    case Done(Conflict(o)) => key in sys.store && sys.store[key] == o && o.content != content
    case Done(Error) => true
  }

  /** Every write is an object that is there now, with the content its call asked for; no key is
      written twice. */
  ghost predicate WritesSane(sys: System) {
    && (forall w | w in sys.writes ::
          w.1 < |sys.callers| && w.0 == sys.callers[w.1].key && w.0 in sys.store
          && sys.store[w.0].content == sys.callers[w.1].content)
    && (forall m, n :: 0 <= m < n < |sys.writes| ==> sys.writes[m].0 != sys.writes[n].0)
  }

  ghost predicate Sane(sys: System) {
    WritesSane(sys) && forall i: nat | i < |sys.callers| :: CallerSane(sys, i)
  }

  predicate Kept(before: Store, after: Store) {
    forall k | k in before :: k in after && after[k] == before[k]
  }

  /** A step that changes the store creates the absent key of its own call, and nothing else. */
  lemma MoveLands(store: Store, caller: Caller, fault: Fault, version: string)
    ensures var (after, moved) := Move(store, caller, fault, version);
      && moved.key == caller.key && moved.content == caller.content && Kept(store, after)
      && (after != store ==>
            && caller.phase.Putting? && caller.key !in store
            && after == store[caller.key := Stored(caller.content, version)])
  {
  }

  lemma WritesKept(sys: System, e: Event)
    requires Sane(sys) && e.who < |sys.callers|
    ensures WritesSane(Step(sys, e)) && Kept(sys.store, Step(sys, e).store)
  {
    hide Move, CallerSane;
    MoveLands(sys.store, sys.callers[e.who], e.fault, e.version);
    var after := Step(sys, e);
    if after.store != sys.store {
      forall m | 0 <= m < |sys.writes|
        ensures sys.writes[m].0 != sys.callers[e.who].key
      {
        assert sys.writes[m] in sys.writes;
      }
    }
  }

  lemma OthersKept(sys: System, e: Event, i: nat)
    requires Sane(sys) && e.who < |sys.callers| && i < |sys.callers| && i != e.who
    ensures CallerSane(Step(sys, e), i)
  {
    hide Move, WritesSane;
    MoveLands(sys.store, sys.callers[e.who], e.fault, e.version);
    assert CallerSane(sys, i);
    forall k
      ensures Wrote(Step(sys, e), k, i) <==> Wrote(sys, k, i)
    {
    }
  }

  lemma MoverKept(sys: System, e: Event)
    requires Sane(sys) && e.who < |sys.callers|
    ensures CallerSane(Step(sys, e), e.who)
  {
    hide WritesSane;
    assert CallerSane(sys, e.who);
    var after := Step(sys, e);
    var caller := sys.callers[e.who];
    if after.store != sys.store {
      MoveLands(sys.store, caller, e.fault, e.version);
      assert after.writes[|sys.writes|] == (caller.key, e.who);
      assert Wrote(after, caller.key, e.who);
    }
  }

  /** Every step of every call keeps what is known, and never replaces an object. */
  lemma StepKeeps(sys: System, e: Event)
    requires Sane(sys)
    ensures Sane(Step(sys, e)) && Kept(sys.store, Step(sys, e).store)
  {
    hide Move, CallerSane, WritesSane, Wrote;
    if e.who < |sys.callers| {
      WritesKept(sys, e);
      MoverKept(sys, e);
      forall i: nat | i < |sys.callers| && i != e.who
        ensures CallerSane(Step(sys, e), i)
      {
        OthersKept(sys, e, i);
      }
    }
  }

  lemma {:induction false} RunKeeps(sys: System, events: seq<Event>)
    requires Sane(sys)
    ensures Sane(Run(sys, events)) && Kept(sys.store, Run(sys, events).store)
    decreases |events|
  {
    hide Sane, Step;
    if events != [] {
      StepKeeps(sys, events[0]);
      RunKeeps(Step(sys, events[0]), events[1..]);
    }
  }

  lemma FreshIsSane(sys: System)
    requires Fresh(sys)
    ensures Sane(sys)
  {
  }

  /** In every interleaving, with responses lost and calls failing or abandoned anywhere: nothing
      that was there is replaced, each key is written at most once, and every call that was answered
      was told the truth about what the store holds. */
  lemma AnswersTrue(sys: System, events: seq<Event>, i: nat)
    requires Fresh(sys) && i < |sys.callers|
    ensures Kept(sys.store, Run(sys, events).store)
    ensures var after := Run(sys, events);
      && (forall m, n :: 0 <= m < n < |after.writes| ==> after.writes[m].0 != after.writes[n].0)
      && var Caller(key, content, phase) := after.callers[i];
      phase.Done? && !phase.result.Error? ==>
        && key in after.store && after.store[key] == phase.result.stored
        && (phase.result.Conflict? <==> phase.result.stored.content != content)
  {
    hide Run, Fresh;
    FreshIsSane(sys);
    RunKeeps(sys, events);
    var after := Run(sys, events);
    assert CallerSane(after, i);
    if after.callers[i].phase.Done? {
      match after.callers[i].phase.result
      case _ =>
    }
  }

  /** At most one call per key is told that it created the object. */
  lemma AtMostOneCreated(sys: System, events: seq<Event>, i: nat, j: nat)
    requires Fresh(sys) && i < |sys.callers| && j < |sys.callers|
    requires var after := Run(sys, events);
      && after.callers[i].key == after.callers[j].key
      && after.callers[i].phase.Done? && after.callers[i].phase.result.Created?
      && after.callers[j].phase.Done? && after.callers[j].phase.result.Created?
    ensures i == j
  {
    hide Run, Fresh;
    FreshIsSane(sys);
    RunKeeps(sys, events);
    var after := Run(sys, events);
    assert CallerSane(after, i) && CallerSane(after, j);
    var m :| 0 <= m < |after.writes| && after.writes[m] == (after.callers[i].key, i);
    var n :| 0 <= n < |after.writes| && after.writes[n] == (after.callers[j].key, j);
  }

  /** A call whose own creation landed, even unheard, is never told of a conflict. */
  lemma OwnWriteNeverConflicts(sys: System, events: seq<Event>, i: nat)
    requires Fresh(sys) && i < |sys.callers|
    requires Wrote(Run(sys, events), Run(sys, events).callers[i].key, i)
    ensures var phase := Run(sys, events).callers[i].phase;
      !(phase.Done? && phase.result.Conflict?)
  {
    hide Run, Fresh;
    FreshIsSane(sys);
    RunKeeps(sys, events);
    assert CallerSane(Run(sys, events), i);
  }

  // -------------------------------------------------------------------- inventory

  predicate StartsWith(s: string, prefix: string) {
    prefix <= s
  }

  const KEYS_LIMIT := 4096

  datatype Inventory = Listed(keys: seq<string>) | NotListed

  /** An inventory that is bounded, sorted, without repetition and under its prefix. */
  predicate Proper(keys: seq<string>, prefix: string) {
    |keys| <= KEYS_LIMIT && (forall key | key in keys :: StartsWith(key, prefix)) && Ascending(keys)
  }

  lemma {:induction false} AscendingSame(a: seq<string>, b: seq<string>)
    requires Ascending(a) && Ascending(b) && forall name :: name in a <==> name in b
    ensures a == b
  {
    if b != [] {
      SharedFirst(a, b);
    }
    if a != [] {
      SharedFirst(b, a);
      FirstSame(a, b);
      forall name
        ensures name in a[1..] <==> name in b[1..]
      {
        TailMembers(a, name);
        TailMembers(b, name);
      }
      AscendingSame(a[1..], b[1..]);
      assert a == [a[0]] + a[1..] && b == [b[0]] + b[1..];
    }
  }

  lemma SharedFirst(a: seq<string>, b: seq<string>)
    requires (forall name :: name in a <==> name in b) && b != []
    ensures b[0] in a
  {
    assert b[0] in b;
  }

  lemma TailMembers(a: seq<string>, name: string)
    requires Ascending(a) && a != []
    ensures name in a[1..] <==> name in a && name != a[0]
  {
    LessIrreflexive(a[0]);
    assert a == [a[0]] + a[1..];
  }

  lemma FirstIsLeast(a: seq<string>)
    requires Ascending(a) && a != []
    ensures IsLeast(a[0], set name | name in a)
  {
  }

  lemma FirstSame(a: seq<string>, b: seq<string>)
    requires Ascending(a) && Ascending(b) && (forall name :: name in a <==> name in b) && a != [] && b != []
    ensures a[0] == b[0]
  {
    assert a[0] in a && b[0] in b;
    FirstIsLeast(a);
    FirstIsLeast(b);
    assert (set name | name in a) == (set name | name in b);
    LeastUnique(a[0], b[0], set name | name in a);
  }

  lemma SortedSetIsAscending(keys: seq<string>)
    ensures keys == Sorted(set key | key in keys) <==> Ascending(keys)
  {
    if Ascending(keys) {
      AscendingSame(keys, Sorted(set key | key in keys));
    }
  }

  /** `EvidenceStore.keys`, on what the transport listed (nothing when it failed). */
  method CheckKeys(listed: Option<seq<string>>, prefix: string) returns (r: Inventory)
    ensures r == if listed.Some? && Proper(listed.value, prefix) then Listed(listed.value) else NotListed
  {
    if listed.None? {
      return NotListed;
    }
    var keys := listed.value;
    SortedSetIsAscending(keys);
    if |keys| > KEYS_LIMIT || (exists key :: key in keys && !StartsWith(key, prefix))
       || keys != Sorted(set key | key in keys)
    {
      return NotListed;
    }
    r := Listed(keys);
  }

  // -------------------------------------------------------------- memory transport

  function Decimal(n: nat): (s: string)
    ensures s != []
  {
    if n < 10 then [Digit(n)] else Decimal(n / 10) + [Digit(n % 10)]
  }

  function Digit(d: nat): char
    requires d < 10
  {
    '0' + d as char
  }

  lemma {:induction false} DecimalInjective(m: nat, n: nat)
    requires Decimal(m) == Decimal(n)
    ensures m == n
  {
    var s, t := Decimal(m), Decimal(n);
    assert s[|s| - 1] == Digit(m % 10) && t[|t| - 1] == Digit(n % 10);
    assert m % 10 == n % 10;
    if m >= 10 && n >= 10 {
      assert s[..|s| - 1] == Decimal(m / 10) && t[..|t| - 1] == Decimal(n / 10);
      DecimalInjective(m / 10, n / 10);
    }
  }

  function VersionName(n: nat): string {
    "memory-" + Decimal(n)
  }

  lemma VersionsDistinct(m: nat, n: nat)
    requires VersionName(m) == VersionName(n)
    ensures m == n
  {
    assert VersionName(m)[7..] == Decimal(m) && VersionName(n)[7..] == Decimal(n);
    DecimalInjective(m, n);
  }

  /** The number every object's version carries: one of those given out, and never the same twice. */
  predicate Numbered(store: Store, sequence: nat, numbers: map<string, nat>) {
    && numbers.Keys == store.Keys
    && (forall k | k in store :: 1 <= numbers[k] <= sequence && store[k].version == VersionName(numbers[k]))
    && (forall k, l | k in store && l in store && numbers[k] == numbers[l] :: k == l)
  }

  lemma OneMoreNumbered(store: Store, sequence: nat, numbers: map<string, nat>, key: string, content: Content)
    requires Numbered(store, sequence, numbers) && key !in store
    ensures Numbered(store[key := Stored(content, VersionName(sequence + 1))], sequence + 1, numbers[key := sequence + 1])
  {
    hide VersionName;
  }

  /** `MemoryTransport`, and what the connection in front of it will do to the coming calls: nothing
      at all for the process-local store by itself. */
  class MemoryTransport {
    var objects: Store
    var sequence: nat
    var faults: seq<Fault>

    constructor ()
      ensures objects == map[] && sequence == 0 && faults == [] && Versioned()
    {
      objects, sequence, faults := map[], 0, [];
      new;
      assert Numbered(objects, sequence, map[]);
    }

    ghost predicate Versioned()
      reads this`objects, this`sequence
    {
      exists numbers :: Numbered(objects, sequence, numbers)
    }

    method NextCall() returns (fault: Fault)
      modifies this`faults
      ensures fault == NextFault(old(faults)) && faults == LaterFaults(old(faults))
    {
      fault := Clean;
      if faults != [] {
        fault := faults[0];
        faults := faults[1..];
      }
    }

    /** `put_if_absent` through the connection. */
    method PutIfAbsent(key: string, content: Content) returns (answer: Answer)
      requires Versioned()
      modifies this
      ensures Versioned() && faults == LaterFaults(old(faults))
      ensures (objects, answer) == Put(old(objects), key, content, VersionName(old(sequence) + 1), NextFault(old(faults)))
      ensures sequence == old(sequence) + if objects == old(objects) then 0 else 1
    {
      hide VersionName, Numbered;
      var fault := NextCall();
      var landed := match fault case Lost(l) => l case Failed(l) => l case _ => true;
      var there := key in objects;
      if landed && !there {
        ghost var numbers :| Numbered(objects, sequence, numbers);
        sequence := sequence + 1;
        objects := objects[key := Stored(content, VersionName(sequence))];
        OneMoreNumbered(old(objects), old(sequence), numbers, key, content);
        assert objects != old(objects);
      }
      match fault {
        case Lost(_) => answer := ResponseLost;
        case Failed(_) => answer := Broken;
        case Invalid => answer := if there then AlreadyThere else Answer.Named("");
        case Clean => answer := if there then AlreadyThere else Answer.Named(VersionName(sequence));
      }
    }

    /** `get` through the connection, and `EvidenceStore.get` on its answer. */
    method Get(key: string, version: Option<string>) returns (reading: Reading)
      modifies this`faults
      ensures faults == LaterFaults(old(faults))
      ensures reading == Read(objects, key, version, NextFault(old(faults)))
    {
      var fault := NextCall();
      if fault != Clean {
        return Unreadable;
      }
      if key !in objects {
        return Missing;
      }
      var stored := objects[key];
      if version.Some? && stored.version != version.value {
        return Missing;
      }
      reading := Found(stored);
    }

    /** `EvidenceStore.create_once`. */
    method CreateOnce(key: string, content: Content) returns (result: WriteResult)
      requires Versioned()
      modifies this
      ensures Versioned()
      ensures Ended(objects, faults, result)
           == Alone(old(objects), old(faults), key, content, VersionName(old(sequence) + 1))
    {
      hide Versioned, VersionName;
      var answer := PutIfAbsent(key, content);
      if answer.AlreadyThere? || answer.ResponseLost? {
        var reading := Get(key, None);
        if !reading.Found? {
          return Error;
        }
        if reading.stored.content != content {
          return Conflict(reading.stored);
        }
        return Identical(reading.stored);
      }
      if answer.Broken? {
        return Error;
      }
      if answer.version == "" {
        return Error;
      }
      var reading := Get(key, Some(answer.version));
      if !reading.Found? || reading.stored.content != content {
        return Error;
      }
      result := Created(reading.stored);
    }

    /** `MemoryTransport.keys`, then `EvidenceStore.keys`: exactly the keys under the prefix. */
    method Keys(prefix: string) returns (r: Inventory)
      ensures r.NotListed? <==> |Under(objects, prefix)| > KEYS_LIMIT
      ensures r.Listed? ==> Ascending(r.keys) && forall key :: key in r.keys <==> key in objects && StartsWith(key, prefix)
    {
      var listed := Sorted(Under(objects, prefix));
      r := CheckKeys(Some(listed), prefix);
    }
  }

  function Under(store: Store, prefix: string): set<string> {
    set key | key in store && StartsWith(key, prefix)
  }
}
