/** Alert delivery and acknowledgement of `alert_delivery.py`, against a destination that
    shows its own writes when it is read again and on which a failure that is not ambiguous
    never lands. */
module Alerts {
  import opened Common

  type EventId = string

  datatype Event = Event(id: EventId, occurrence: string, severity: string, test: bool)

  datatype Record = Record(event: EventId, reference: string, deliveredAt: Option<real>)

  /** A human action read from the destination; `at` is None when it cannot be read as a time. */
  datatype Ack = Ack(actor: Option<string>, user: bool, at: Option<real>, reference: string)

  datatype Fault = Timeout | Transport(sent: bool) | Http(status: nat) | OtherFault

  datatype Status =
    | FAILED_TIMEOUT | FAILED_TRANSPORT | FAILED_AUTH | FAILED_HTTP | FAILED_ADAPTER | FAILED_RECONCILE | ACCEPTED

  datatype State =
    | EventCreated(occurrence: string)
    | DeliveryAttempted(attempt: nat, status: Status)
    | Delivered(reference: string, reconciled: bool)
    | Acknowledged(ack: Ack)
    | Resolved(reference: string)

  datatype Entry = Entry(event: EventId, state: State)

  datatype Settings = Settings(maxAttempts: nat, backoff: seq<nat>)

  datatype People = People(acknowledgers: set<string>, automation: set<string>)

  /** `classify`: the status, whether to try again, and whether the write may have landed. */
  function Classify(fault: Fault): (Status, bool, bool) {
    match fault
    case Timeout => (FAILED_TIMEOUT, true, true)
    case Transport(sent) => (FAILED_TRANSPORT, true, sent)
    case Http(status) =>
      if status == 401 || status == 403 then (FAILED_AUTH, false, false)
      else if status == 408 || status == 429 then (FAILED_HTTP, true, false)
      else if 500 <= status then (FAILED_HTTP, true, true)
      else (FAILED_HTTP, false, false)
    case OtherFault => (FAILED_ADAPTER, false, true)
  }

  predicate Ambiguous(fault: Fault) {
    Classify(fault).2
  }

  /** A failure may have landed unless the request was not sent or the answer was a refusal; it is worth
      another try when it was a timeout, the connection, or an answer that asks for one. */
  lemma ClassifyExactly(fault: Fault)
    ensures Ambiguous(fault) <==>
      fault.Timeout? || fault == Transport(true) || (fault.Http? && 500 <= fault.status) || fault.OtherFault?
    ensures Classify(fault).1 <==>
      fault.Timeout? || fault.Transport? || (fault.Http? && (fault.status == 408 || fault.status == 429 || 500 <= fault.status))
    ensures Classify(fault).0 == match fault
      case Timeout => FAILED_TIMEOUT
      case Transport(_) => FAILED_TRANSPORT
      case Http(status) => if status in {401, 403} then FAILED_AUTH else FAILED_HTTP
      case OtherFault => FAILED_ADAPTER
  {
  }

  /** `verify_ack`: an authorized person, not automation, acting after the delivery. */
  predicate VerifyAck(ack: Ack, record: Record, people: People) {
    && ack.user && (ack.actor.Some? ==> ack.actor.value !in people.automation)
    && ack.actor.Some? && ack.actor.value in people.acknowledgers
    && ack.reference != ""
    && ack.at.Some? && record.deliveredAt.Some? && record.deliveredAt.value <= ack.at.value
  }

  /** What the destination does next; each call reads the part that concerns it. */
  datatype Answer = Answer(fault: Option<Fault>, landed: bool, record: Record, acks: Option<seq<Ack>>)

  predicate OneEach(alerts: seq<Record>) {
    forall i, j :: 0 <= i < j < |alerts| ==> alerts[i].event != alerts[j].event
  }

  predicate Holds(alerts: seq<Record>, id: EventId) {
    exists i :: 0 <= i < |alerts| && alerts[i].event == id
  }

  class Destination {
    var open: seq<Record>
    var answers: seq<Answer>
    var creations: map<EventId, nat>     // create calls received, whatever became of them

    constructor (answers: seq<Answer>)
      ensures open == [] && this.answers == answers && creations == map[]
    {
      open, creations, this.answers := [], map[], answers;
    }

    function Creations(id: EventId): nat reads this { if id in creations then creations[id] else 0 }

    /** Every call to come is answered without a fault, for as long as there are answers. */
    ghost predicate Healthy()
      reads this
    {
      forall a | a in answers :: a.fault.None? && a.acks.Some?
    }

    /** The next call fails and cannot have landed; whether it is worth another try. */
    ghost predicate Fails(retryable: bool)
      reads this
    {
      && answers != [] && answers[0].fault.Some? && !Ambiguous(answers[0].fault.value)
      && (Classify(answers[0].fault.value).1 <==> retryable)
    }

    method Next() returns (a: Answer)
      modifies this`answers
      ensures |answers| <= |old(answers)|
      ensures old(answers) != [] ==> a == old(answers)[0] && answers == old(answers)[1..]
      ensures old(Healthy()) ==> Healthy() && (answers != [] ==> a.fault.None? && a.acks.Some?)
      ensures old(answers) == [] ==> answers == [] && a.acks.None?
    {
      a := if answers == [] then Answer(Some(Timeout), false, Record("", "", None), None) else answers[0];
      answers := if answers == [] then [] else answers[1..];
    }

    /** `open_alerts`: what is open, by event. None when it cannot be read, or when two alerts
        of one event are open. */
    method OpenAlerts() returns (r: Option<map<EventId, Record>>)
      modifies this`answers
      ensures |answers| <= |old(answers)| && (old(Healthy()) ==> Healthy())
      ensures OneEach(open) && old(Healthy()) && answers != [] ==> r.Some?
      ensures r.Some? ==> forall id :: id in r.value <==> Holds(open, id)
      ensures r.Some? ==> forall id | id in r.value :: r.value[id] in open && r.value[id].event == id
    {
      var a := Next();
      if a.fault.Some? {
        return None;
      }
      var found: map<EventId, Record> := map[];
      for i := 0 to |open|
        invariant forall id :: id in found <==> exists j :: 0 <= j < i && open[j].event == id
        invariant forall id | id in found :: found[id] in open && found[id].event == id
      {
        if open[i].event in found {
          assert !OneEach(open);
          return None;
        }
        found := found[open[i].event := open[i]];
      }
      r := Some(found);
    }

    /** `deliver`: a comment on an open alert, or a new alert. A failed creation lands only
        when the failure is ambiguous. */
    method Deliver(event: Event, existing: Option<Record>) returns (r: Result<Record, Fault>)
      modifies this
      ensures |answers| <= |old(answers)| && (old(Healthy()) ==> Healthy())
      ensures old(Healthy()) && answers != [] ==> r.Ok?
      ensures old(answers) != [] && old(answers)[0].fault.None? ==>
        r == Ok(if existing.Some? then existing.value else old(answers)[0].record.(event := event.id))
      ensures old(answers) != [] && old(answers)[0].fault.Some? ==> r == Err(old(answers)[0].fault.value)
      ensures existing.Some? ==> open == old(open) && creations == old(creations) && (r.Ok? ==> r.value == existing.value)
      ensures existing.None? ==> Creations(event.id) == old(Creations(event.id)) + 1
      ensures forall id | id != event.id :: Creations(id) == old(Creations(id))
      ensures existing.None? && r.Ok? ==> r.value.event == event.id && open == old(open) + [r.value]
      ensures existing.None? && r.Err? ==>
        open == old(open) || (Ambiguous(r.error) && exists record: Record :: record.event == event.id && open == old(open) + [record])
    {
      var a := Next();
      if existing.Some? {
        return if a.fault.Some? then Err(a.fault.value) else Ok(existing.value);
      }
      creations := creations[event.id := Creations(event.id) + 1];
      var record := a.record.(event := event.id);
      if a.fault.None? {
        open := open + [record];
        return Ok(record);
      }
      if a.landed && Ambiguous(a.fault.value) {
        open := open + [record];
      }
      r := Err(a.fault.value);
    }

    method Acknowledgements(record: Record) returns (r: Option<seq<Ack>>)
      modifies this`answers
      ensures |answers| <= |old(answers)| && (old(Healthy()) ==> Healthy())
      ensures old(Healthy()) && answers != [] ==> r.Some?
      ensures r == (if old(answers) == [] then None else old(answers)[0].acks) && answers == Behind(old(answers), 1)
    {
      var a := Next();
      r := a.acks;
    }

    /** `resolve`: closes the alert; a failure may leave it open or closed. */
    method Resolve(record: Record) returns (ok: bool)
      modifies this`answers, this`open
      ensures |answers| <= |old(answers)| && (old(Healthy()) ==> Healthy())
      ensures old(Healthy()) && answers != [] ==> ok
      ensures ok ==> open == Without(old(open), record.event)
      ensures open == old(open) || open == Without(old(open), record.event)
    {
      var a := Next();
      if a.fault.None? || a.landed {
        open := Without(open, record.event);
      }
      ok := a.fault.None?;
    }
  }

  function Without(alerts: seq<Record>, id: EventId): seq<Record> {
    if alerts == [] then []
    else
      var rest := Without(alerts[..|alerts| - 1], id);
      var last := alerts[|alerts| - 1];
      if last.event == id then rest else rest + [last]
  }

  lemma {:induction false} WithoutHolds(alerts: seq<Record>, id: EventId, other: EventId)
    ensures Holds(Without(alerts, id), other) <==> Holds(alerts, other) && other != id
  {
    if alerts != [] {
      var before, last := alerts[..|alerts| - 1], alerts[|alerts| - 1];
      WithoutHolds(before, id, other);
      HoldsOneMore(before, last, other);
      assert alerts == before + [last];
      HoldsOneMore(Without(before, id), last, other);
    }
  }

  lemma HoldsOneMore(alerts: seq<Record>, record: Record, id: EventId)
    ensures Holds(alerts + [record], id) <==> Holds(alerts, id) || record.event == id
  {
    var all := alerts + [record];
    if Holds(alerts, id) {
      var i :| 0 <= i < |alerts| && alerts[i].event == id;
      assert all[i].event == id;
    }
    if record.event == id {
      assert all[|alerts|].event == id;
    }
  }

  lemma {:induction false} WithoutKeepsOneEach(alerts: seq<Record>, id: EventId)
    requires OneEach(alerts)
    ensures OneEach(Without(alerts, id))
  {
    if alerts != [] {
      var before, last := alerts[..|alerts| - 1], alerts[|alerts| - 1];
      WithoutKeepsOneEach(before, id);
      WithoutHolds(before, id, last.event);
      LastIsNew(alerts);
    }
  }

  lemma LastIsNew(alerts: seq<Record>)
    requires OneEach(alerts) && alerts != []
    ensures !Holds(alerts[..|alerts| - 1], alerts[|alerts| - 1].event)
  {
    var before := alerts[..|alerts| - 1];
    assert forall i :: 0 <= i < |before| ==> before[i] == alerts[i];
  }

  lemma OneMoreEach(alerts: seq<Record>, record: Record)
    requires OneEach(alerts) && !Holds(alerts, record.event)
    ensures OneEach(alerts + [record])
  {
  }

  // -------------------------------------------------------------------- one event

  function Attempts(entries: seq<Entry>, id: EventId): nat {
    if entries == [] then 0
    else
      var e := entries[|entries| - 1];
      Attempts(entries[..|entries| - 1], id) + if e.event == id && e.state.DeliveryAttempted? && 0 < e.state.attempt then 1 else 0
  }

  /** What an entry of a cycle may say: attempts within the limit, deliveries and acknowledgements
      of a record known to the cycle, acknowledgements verified, and resolution only of an alert
      that was open and is not routed. */
  predicate Sound(e: Entry, settings: Settings, people: People, routed: set<EventId>, known: map<EventId, Record>,
                  records: map<EventId, Record>)
  {
    match e.state
    case EventCreated(_) => e.event in routed
    case DeliveryAttempted(attempt, status) => e.event in routed && attempt <= settings.maxAttempts
    case Delivered(reference, _) => e.event in routed && e.event in records && records[e.event].reference == reference
    case Acknowledged(ack) => e.event in records && VerifyAck(ack, records[e.event], people)
    case Resolved(_) => e.event in known && e.event !in routed
  }

  class Ledger {
    var entries: seq<Entry>

    constructor ()
      ensures entries == []
    {
      entries := [];
    }

    method Add(id: EventId, state: State)
      modifies this
      ensures entries == old(entries) + [Entry(id, state)]
      ensures forall other ::
        Attempts(entries, other)
          == Attempts(old(entries), other) + if other == id && state.DeliveryAttempted? && 0 < state.attempt then 1 else 0
    {
      entries := entries + [Entry(id, state)];
      assert entries[..|entries| - 1] == old(entries);
    }
  }

  /** Entries `DeliverOne` adds: attempts of this event, and one delivery when it returns a record. */
  predicate OfDelivery(e: Entry, id: EventId, settings: Settings, record: Option<Record>) {
    && e.event == id
    && match e.state
       case DeliveryAttempted(attempt, _) => 0 < attempt <= settings.maxAttempts
       case Delivered(reference, _) => record.Some? && reference == record.value.reference
       case _ => false
  }

  /** Only this event's alerts changed, and the ledger only grew by entries of its delivery. */
  twostate predicate DeliveryFrame(destination: Destination, ledger: Ledger, id: EventId, settings: Settings,
                                   new record: Option<Record>)
    reads destination, ledger
  {
    && (forall other | other != id :: Holds(destination.open, other) <==> Holds(old(destination.open), other))
    && (forall other | other != id :: destination.Creations(other) == old(destination.Creations(other)))
    && (forall other | other != id :: Attempts(ledger.entries, other) == Attempts(old(ledger.entries), other))
    && old(ledger.entries) <= ledger.entries
    && forall e | e in ledger.entries[|old(ledger.entries)|..] :: OfDelivery(e, id, settings, record)
  }

  /** What an accepted attempt adds. */
  function Accepted(id: EventId, attempt: nat, record: Record): seq<Entry> {
    [Entry(id, DeliveryAttempted(attempt, ACCEPTED)), Entry(id, Delivered(record.reference, false))]
  }

  /** A failed attempt is recorded first, with the status of its failure. */
  predicate AttemptSaid(was: seq<Entry>, now: seq<Entry>, id: EventId, attempt: nat, fault: Fault) {
    |was| < |now| && now[|was|] == Entry(id, DeliveryAttempted(attempt, Classify(fault).0))
  }

  lemma OwnEntries(id: EventId, attempt: nat, settings: Settings)
    requires 0 < attempt <= settings.maxAttempts
    ensures forall status, record :: OfDelivery(Entry(id, DeliveryAttempted(attempt, status)), id, settings, record)
    ensures forall record: Record, again: bool ::
      OfDelivery(Entry(id, Delivered(record.reference, again)), id, settings, Some(record))
  {
  }

  method RecordAccepted(id: EventId, attempt: nat, record: Record, ledger: Ledger)
    requires 0 < attempt
    modifies ledger
    ensures ledger.entries == old(ledger.entries) + Accepted(id, attempt, record)
    ensures forall other :: Attempts(ledger.entries, other) == Attempts(old(ledger.entries), other) + if other == id then 1 else 0
  {
    hide Attempts;
    ledger.Add(id, DeliveryAttempted(attempt, ACCEPTED));
    ledger.Add(id, Delivered(record.reference, false));
  }

  /** Behind an ambiguous creation: the alert if it is open, and the end if nothing can be read. */
  method Reconcile(event: Event, destination: Destination, ledger: Ledger) returns (done: bool, record: Option<Record>)
    requires OneEach(destination.open)
    modifies destination`answers, ledger
    ensures |destination.answers| <= |old(destination.answers)| && (old(destination.Healthy()) ==> destination.Healthy())
    ensures !done ==> record.None? && !Holds(destination.open, event.id)
    ensures record.Some? ==> done && record.value.event == event.id && Holds(destination.open, event.id)
    ensures ledger.entries == old(ledger.entries) + if record.Some? then [Entry(event.id, Delivered(record.value.reference, true))] else []
    ensures forall other :: Attempts(ledger.entries, other) == Attempts(old(ledger.entries), other)
  {
    hide Attempts, OneEach, Holds;
    var again := destination.OpenAlerts();
    if again.None? {
      return true, None;
    }
    if event.id in again.value {
      ledger.Add(event.id, Delivered(again.value[event.id].reference, true));
      return true, Some(again.value[event.id]);
    }
    return false, None;
  }

  /** One turn of the loop of `deliver_one`: whether it ends, and with which record. */
  method TryOnce(event: Event, existing: Option<Record>, attempt: nat, destination: Destination, settings: Settings, ledger: Ledger)
    returns (done: bool, record: Option<Record>)
    requires OneEach(destination.open) && 0 < attempt <= settings.maxAttempts
    requires if existing.Some? then existing.value.event == event.id && Holds(destination.open, event.id)
             else !Holds(destination.open, event.id)
    modifies destination, ledger
    ensures OneEach(destination.open) && DeliveryFrame(destination, ledger, event.id, settings, record)
    ensures Attempts(ledger.entries, event.id) == Attempts(old(ledger.entries), event.id) + 1
    ensures destination.Creations(event.id) == old(destination.Creations(event.id)) + if existing.Some? then 0 else 1
    ensures existing.Some? ==> done && record == existing && destination.open == old(destination.open)
    ensures record.Some? ==> done && record.value.event == event.id && Holds(destination.open, event.id)
    ensures !done ==> record.None? && !Holds(destination.open, event.id)
    ensures |destination.answers| <= |old(destination.answers)| && (old(destination.Healthy()) ==> destination.Healthy())
    ensures old(destination.Healthy()) && destination.answers != [] ==>
      done && record.Some? && ledger.entries == old(ledger.entries) + Accepted(event.id, attempt, record.value)
    ensures old(destination.answers) != [] && old(destination.answers)[0].fault.Some? ==>
      AttemptSaid(old(ledger.entries), ledger.entries, event.id, attempt, old(destination.answers)[0].fault.value)
    ensures existing.None? && old(destination.Fails(false)) ==> record.None? && done
    ensures existing.None? && old(destination.Fails(true)) ==> record.None? && (done <==> attempt == settings.maxAttempts)
  {
    hide OfDelivery, Attempts, Classify, OneEach, Holds;
    OwnEntries(event.id, attempt, settings);
    var delivered := destination.Deliver(event, existing);
    AfterDelivery(old(destination.open), destination.open, event.id);
    if delivered.Ok? {
      RecordAccepted(event.id, attempt, delivered.value, ledger);
      return true, Some(delivered.value);
    }
    var (status, retryable, ambiguous) := Classify(delivered.error);
    ledger.Add(event.id, DeliveryAttempted(attempt, status));
    if existing.Some? {
      return true, existing;
    }
    if ambiguous {
      done, record := Reconcile(event, destination, ledger);
      if done {
        return;
      }
    }
    return !retryable || attempt == settings.maxAttempts, None;
  }

  /** What a delivery leaves open: the same alerts, or one more of this event. */
  lemma AfterDelivery(was: seq<Record>, now: seq<Record>, id: EventId)
    requires OneEach(was)
    ensures now == was ==> OneEach(now)
    ensures !Holds(was, id) && (exists record: Record :: record.event == id && now == was + [record]) ==>
      OneEach(now) && Holds(now, id) && forall other | other != id :: Holds(now, other) <==> Holds(was, other)
  {
    if !Holds(was, id) && exists record: Record :: record.event == id && now == was + [record] {
      var record: Record :| record.event == id && now == was + [record];
      OneMoreEach(was, record);
      forall other
        ensures Holds(now, other) <==> Holds(was, other) || other == id
      {
        HoldsOneMore(was, record, other);
      }
    }
  }

  /** `deliver_one`: at most the allowed attempts; an open alert is updated once and never
      created again; an ambiguous creation is looked up before it is tried again. */
  method DeliverOne(event: Event, existing: Option<Record>, destination: Destination, settings: Settings, ledger: Ledger)
    returns (record: Option<Record>)
    requires OneEach(destination.open) && |settings.backoff| + 1 >= settings.maxAttempts
    requires if existing.Some? then existing.value.event == event.id && Holds(destination.open, event.id)
             else !Holds(destination.open, event.id)
    modifies destination, ledger
    ensures OneEach(destination.open) && DeliveryFrame(destination, ledger, event.id, settings, record)
    ensures Attempts(ledger.entries, event.id)
         <= Attempts(old(ledger.entries), event.id) + if existing.Some? then 1 else settings.maxAttempts
    ensures Attempts(ledger.entries, event.id) <= Attempts(old(ledger.entries), event.id) + settings.maxAttempts
    ensures destination.Creations(event.id)
         <= old(destination.Creations(event.id)) + if existing.Some? then 0 else settings.maxAttempts
    ensures existing.Some? ==> destination.open == old(destination.open) && (record.Some? ==> record == existing)
    ensures record.Some? ==> record.value.event == event.id && Holds(destination.open, event.id)
    ensures |destination.answers| <= |old(destination.answers)| && (old(destination.Healthy()) ==> destination.Healthy())
    ensures old(destination.Healthy()) && destination.answers != [] && 0 < settings.maxAttempts ==>
      record.Some? && ledger.entries == old(ledger.entries) + Accepted(event.id, 1, record.value)
  {
    hide Attempts, OneEach, Holds;
    record := None;
    for attempt := 1 to settings.maxAttempts + 1
      invariant record.None? && (existing.Some? ==> attempt == 1)
      invariant |destination.answers| <= |old(destination.answers)| && (old(destination.Healthy()) ==> destination.Healthy())
      invariant attempt == 1 || !old(destination.Healthy()) || destination.answers == []
      invariant attempt == 1 ==> ledger.entries == old(ledger.entries)
      invariant OneEach(destination.open) && DeliveryFrame(destination, ledger, event.id, settings, None)
      invariant existing.Some? ==> destination.open == old(destination.open)
      invariant existing.None? ==> !Holds(destination.open, event.id)
      invariant Attempts(ledger.entries, event.id) == Attempts(old(ledger.entries), event.id) + attempt - 1
      invariant destination.Creations(event.id) == old(destination.Creations(event.id)) + attempt - 1
    {
      ghost var before := ledger.entries;
      var done: bool;
      done, record := TryOnce(event, existing, attempt, destination, settings, ledger);
      assert ledger.entries[|old(ledger.entries)|..] == before[|old(ledger.entries)|..] + ledger.entries[|before|..];
      if done {
        return;
      }
    }
  }

  // -------------------------------------------------------------------- a cycle

  predicate AllSound(entries: seq<Entry>, settings: Settings, people: People, routed: set<EventId>,
                     known: map<EventId, Record>, records: map<EventId, Record>)
  {
    forall e | e in entries :: Sound(e, settings, people, routed, known, records)
  }

  predicate RecordsOk(records: map<EventId, Record>, known: map<EventId, Record>, routed: set<EventId>) {
    && (forall id | id in records :: records[id].event == id && (id in known || id in routed))
    && forall id | id in known :: id in records && known[id].event == id
  }

  /** The ledger says the event was delivered, under the reference of its record. */
  predicate DeliveredIn(entries: seq<Entry>, id: EventId, records: map<EventId, Record>) {
    id in records && Entry(id, Delivered(records[id].reference, false)) in entries
  }

  predicate AllDelivered(entries: seq<Entry>, ids: seq<EventId>, records: map<EventId, Record>) {
    forall id | id in ids :: DeliveredIn(entries, id, records)
  }

  lemma NothingDelivered(entries: seq<Entry>, records: map<EventId, Record>)
    ensures AllDelivered(entries, [], records)
  {
  }

  lemma OneMoreDelivered(before: seq<Entry>, now: seq<Entry>, ids: seq<EventId>, was: map<EventId, Record>, id: EventId,
                         record: Record)
    requires id !in ids
    ensures AllDelivered(before, ids, was) && now == before + Accepted(id, 1, record) ==>
      AllDelivered(now, ids + [id], was[id := record])
  {
    if now == before + Accepted(id, 1, record) {
      assert now[|before| + 1] == Entry(id, Delivered(record.reference, false));
    }
  }

  /** The delivery loop of `run_cycle`. */
  method DeliverAll(order: seq<EventId>, routed: map<EventId, Event>, known: map<EventId, Record>,
                    destination: Destination, settings: Settings, people: People, ledger: Ledger)
    returns (records: map<EventId, Record>)
    requires OneEach(destination.open) && |settings.backoff| + 1 >= settings.maxAttempts
    requires forall id :: Holds(destination.open, id) <==> id in known
    requires forall id | id in known :: known[id].event == id
    requires forall i, j :: 0 <= i < j < |order| ==> order[i] != order[j]
    requires forall id :: id in order <==> id in routed
    requires forall id | id in routed :: routed[id].id == id
    requires forall id :: Attempts(ledger.entries, id) == 0
    requires AllSound(ledger.entries, settings, people, routed.Keys, known, known)
    requires forall e | e in ledger.entries :: e.state.EventCreated?
    modifies destination, ledger
    ensures OneEach(destination.open) && RecordsOk(records, known, routed.Keys)
    ensures AllSound(ledger.entries, settings, people, routed.Keys, known, records)
    ensures forall id :: Attempts(ledger.entries, id) <= settings.maxAttempts
    ensures forall id | id in records && (id in known || id in routed) :: Holds(destination.open, id)
    ensures forall e | e in ledger.entries :: !e.state.Acknowledged? && !e.state.Resolved?
    ensures |destination.answers| <= |old(destination.answers)| && (old(destination.Healthy()) ==> destination.Healthy())
    ensures old(ledger.entries) <= ledger.entries
    ensures old(destination.Healthy()) && destination.answers != [] && 0 < settings.maxAttempts ==>
      AllDelivered(ledger.entries, order, records)
  {
    hide Untried, AllDelivered, Accepted, Attempts, OneEach, Holds, Sound, OfDelivery;
    records := known;
    NothingDelivered(ledger.entries, records);
    forall j | 0 <= j < |order|
      ensures Untried(order[j], destination.open, known, records, ledger.entries)
    {
      UntriedAtFirst(order[j], destination.open, known, ledger.entries);
    }
    for i := 0 to |order|
      invariant OneEach(destination.open) && RecordsOk(records, known, routed.Keys)
      invariant AllSound(ledger.entries, settings, people, routed.Keys, known, records)
      invariant forall id :: Attempts(ledger.entries, id) <= settings.maxAttempts
      invariant forall id | id in records :: Holds(destination.open, id)
      invariant forall j :: i <= j < |order| ==> Untried(order[j], destination.open, known, records, ledger.entries)
      invariant forall e | e in ledger.entries :: !e.state.Acknowledged? && !e.state.Resolved?
      invariant |destination.answers| <= |old(destination.answers)| && (old(destination.Healthy()) ==> destination.Healthy())
      invariant old(ledger.entries) <= ledger.entries
      invariant old(destination.Healthy()) && destination.answers != [] && 0 < settings.maxAttempts ==>
        AllDelivered(ledger.entries, order[..i], records)
    {
      var id := order[i];
      assert id in order && Untried(order[i], destination.open, known, records, ledger.entries);
      UntriedIs(id, destination.open, known, records, ledger.entries);
      ghost var before, was, open := ledger.entries, records, destination.open;
      var record := DeliverOne(routed[id], if id in known then Some(known[id]) else None, destination, settings, ledger);
      if record.Some? {
        records := records[id := record.value];
      }
      assert order[..i + 1] == order[..i] + [id] && id !in order[..i];
      if record.Some? {
        OneMoreDelivered(before, ledger.entries, order[..i], was, id, record.value);
      }
      EntriesStaySound(before, ledger.entries, id, settings, people, routed.Keys, known, was, records, record);
      forall j | i < j < |order|
        ensures Untried(order[j], destination.open, known, records, ledger.entries)
      {
        assert Untried(order[j], open, known, was, before) && order[i] != order[j];
        UntriedStays(order[j], open, destination.open, known, was, records, before, ledger.entries);
      }
    }
    assert order[..|order|] == order;
  }

  /** Nothing was done yet about an event: it is open exactly when the first reading said so. */
  ghost predicate Untried(id: EventId, open: seq<Record>, known: map<EventId, Record>, records: map<EventId, Record>,
                          entries: seq<Entry>)
  {
    && (Holds(open, id) <==> id in known)
    && (id in records ==> id in known && records[id] == known[id])
    && Attempts(entries, id) == 0
    && forall e | e in entries && e.event == id :: e.state.EventCreated?
  }

  lemma UntriedIs(id: EventId, open: seq<Record>, known: map<EventId, Record>, records: map<EventId, Record>, entries: seq<Entry>)
    requires Untried(id, open, known, records, entries)
    ensures (Holds(open, id) <==> id in known) && (id in records ==> id in known && records[id] == known[id])
    ensures Attempts(entries, id) == 0 && forall e | e in entries && e.event == id :: e.state.EventCreated?
  {
  }

  lemma UntriedAtFirst(id: EventId, open: seq<Record>, known: map<EventId, Record>, entries: seq<Entry>)
    requires (Holds(open, id) <==> id in known) && Attempts(entries, id) == 0
    requires forall e | e in entries && e.event == id :: e.state.EventCreated?
    ensures Untried(id, open, known, known, entries)
  {
  }

  lemma UntriedStays(id: EventId, open: seq<Record>, open': seq<Record>, known: map<EventId, Record>, was: map<EventId, Record>,
                     records: map<EventId, Record>, before: seq<Entry>, now: seq<Entry>)
    requires Untried(id, open, known, was, before) && (Holds(open', id) <==> Holds(open, id))
    requires Attempts(now, id) == Attempts(before, id) && (id in records ==> id in was && records[id] == was[id])
    requires forall e | e in now && e.event == id :: e in before
    ensures Untried(id, open', known, records, now)
  {
    hide Holds, Attempts;
  }

  /** New entries of one delivery are sound, and the earlier ones stay so. */
  lemma EntriesStaySound(before: seq<Entry>, now: seq<Entry>, id: EventId, settings: Settings, people: People,
                         routed: set<EventId>, known: map<EventId, Record>, was: map<EventId, Record>,
                         records: map<EventId, Record>, record: Option<Record>)
    requires before <= now && id in routed && AllSound(before, settings, people, routed, known, was)
    requires forall e | e in before && e.event == id :: e.state.EventCreated?
    requires forall e | e in now[|before|..] :: OfDelivery(e, id, settings, record)
    requires records == if record.Some? then was[id := record.value] else was
    ensures AllSound(now, settings, people, routed, known, records)
    ensures forall e | e in now :: e in before || e.event == id
    ensures forall e | e in now && e !in before :: !e.state.Acknowledged? && !e.state.Resolved?
  {
    assert now == before + now[|before|..];
    assert forall e | e in now :: e in before || e in now[|before|..];
    hide VerifyAck;
  }

  /** How many acknowledgements of one event the entries hold. */
  function Acks(entries: seq<Entry>, id: EventId): nat {
    if entries == [] then 0
    else
      var e := entries[|entries| - 1];
      Acks(entries[..|entries| - 1], id) + if e.event == id && e.state.Acknowledged? then 1 else 0
  }

  lemma CountsOneMore(entries: seq<Entry>, e: Entry, id: EventId)
    ensures Acks(entries + [e], id) == Acks(entries, id) + if e.event == id && e.state.Acknowledged? then 1 else 0
    ensures Attempts(entries + [e], id)
         == Attempts(entries, id) + if e.event == id && e.state.DeliveryAttempted? && 0 < e.state.attempt then 1 else 0
  {
    assert (entries + [e])[..|entries|] == entries;
  }

  lemma {:induction false} NoAcks(entries: seq<Entry>, id: EventId)
    requires forall e | e in entries :: !e.state.Acknowledged?
    ensures Acks(entries, id) == 0
  {
    if entries != [] {
      assert entries[|entries| - 1] in entries;
      assert forall e | e in entries[..|entries| - 1] :: e in entries;
      NoAcks(entries[..|entries| - 1], id);
    }
  }

  /** The first action that is verified. */
  function FirstAck(acks: seq<Ack>, record: Record, people: People): Option<Ack> {
    if acks == [] then None
    else if VerifyAck(acks[0], record, people) then Some(acks[0])
    else FirstAck(acks[1..], record, people)
  }

  /** What the destination says to the first `n` questions, and what is left to say. */
  function Heard(answers: seq<Answer>, n: nat): (r: seq<Option<seq<Ack>>>)
    ensures |r| == n
  {
    seq(n, i requires 0 <= i < n => if i < |answers| then answers[i].acks else None)
  }

  function Behind(answers: seq<Answer>, n: nat): seq<Answer> {
    if n <= |answers| then answers[n..] else []
  }

  function AckEntry(id: EventId, acks: Option<seq<Ack>>, record: Record, people: People): seq<Entry> {
    if acks.None? then []
    else
      var ack := FirstAck(acks.value, record, people);
      if ack.None? then [] else [Entry(id, Acknowledged(ack.value))]
  }

  /** One entry for each record with a verified action, in order. */
  function AckEntries(order: seq<EventId>, heard: seq<Option<seq<Ack>>>, records: map<EventId, Record>, people: People): seq<Entry>
    requires |heard| == |order| && forall id | id in order :: id in records
  {
    if order == [] then []
    else
      var n := |order| - 1;
      AckEntries(order[..n], heard[..n], records, people) + AckEntry(order[n], heard[n], records[order[n]], people)
  }

  lemma AckEntriesStep(order: seq<EventId>, answers: seq<Answer>, records: map<EventId, Record>, people: People, i: nat)
    requires i < |order| && forall id | id in order :: id in records
    ensures order[i] in records
    ensures AckEntries(order[..i + 1], Heard(answers, i + 1), records, people)
         == AckEntries(order[..i], Heard(answers, i), records, people)
            + AckEntry(order[i], if i < |answers| then answers[i].acks else None, records[order[i]], people)
  {
    assert order[..i + 1][..i] == order[..i] && Heard(answers, i + 1)[..i] == Heard(answers, i);
  }

  /** The action is verified, and none before it is: by a user on the list of acknowledgers and not one of
      the automation, with a reference, at a time that is not before the delivery. */
  predicate IsFirst(acks: seq<Ack>, record: Record, people: People, ack: Ack) {
    exists i :: 0 <= i < |acks| && acks[i] == ack && Counts(acks[i], record, people)
                && forall j :: 0 <= j < i ==> !Counts(acks[j], record, people)
  }

  predicate Counts(ack: Ack, record: Record, people: People) {
    && ack.user && ack.actor.Some? && ack.actor.value in people.acknowledgers - people.automation
    && |ack.reference| > 0
    && match (ack.at, record.deliveredAt)
       case (Some(at), Some(delivered)) => !(at < delivered)
       case _ => false
  }

  lemma {:induction false} FirstIsFirst(acks: seq<Ack>, record: Record, people: People, ack: Ack)
    ensures FirstAck(acks, record, people) == Some(ack) <==> IsFirst(acks, record, people, ack)
  {
    hide VerifyAck, Counts;
    if acks != [] {
      CountsExactly(acks[0], record, people);
      FirstIsFirst(acks[1..], record, people, ack);
      assert forall j :: 0 <= j < |acks| - 1 ==> acks[1..][j] == acks[j + 1];
      if !Counts(acks[0], record, people) && IsFirst(acks[1..], record, people, ack) {
        var i :| 0 <= i < |acks[1..]| && acks[1..][i] == ack && Counts(acks[1..][i], record, people)
                 && forall j :: 0 <= j < i ==> !Counts(acks[1..][j], record, people);
        forall j | 0 <= j < i + 1
          ensures !Counts(acks[j], record, people)
        {
          assert j > 0 ==> acks[j] == acks[1..][j - 1];
        }
        assert acks[i + 1] == ack;
      }
      if IsFirst(acks, record, people, ack) && !Counts(acks[0], record, people) {
        var i :| 0 <= i < |acks| && acks[i] == ack && Counts(acks[i], record, people)
                 && forall j :: 0 <= j < i ==> !Counts(acks[j], record, people);
        assert acks[1..][i - 1] == ack;
        forall j | 0 <= j < i - 1
          ensures !Counts(acks[1..][j], record, people)
        {
          assert acks[1..][j] == acks[j + 1];
        }
      }
    }
  }

  lemma CountsExactly(ack: Ack, record: Record, people: People)
    ensures VerifyAck(ack, record, people) <==> Counts(ack, record, people)
  {
  }

  /** A record is acknowledged exactly when one of the actions heard for it counts, and by the first that
      does. */
  lemma {:induction false} AckedExactly(order: seq<EventId>, heard: seq<Option<seq<Ack>>>, records: map<EventId, Record>,
                                        people: People, k: nat, ack: Ack)
    requires |heard| == |order| && (forall id | id in order :: id in records) && k < |order|
    requires forall i, j :: 0 <= i < j < |order| ==> order[i] != order[j]
    ensures Entry(order[k], Acknowledged(ack)) in AckEntries(order, heard, records, people) <==>
      order[k] in records && heard[k].Some? && IsFirst(heard[k].value, records[order[k]], people, ack)
  {
    hide IsFirst, FirstAck;
    var n := |order| - 1;
    var e := Entry(order[k], Acknowledged(ack));
    assert order[k] in order;
    if k < n {
      AckedExactly(order[..n], heard[..n], records, people, k, ack);
      assert e !in AckEntry(order[n], heard[n], records[order[n]], people);
    } else {
      NotYetAcked(order[..n], heard[..n], records, people, order[n]);
      if heard[n].Some? {
        FirstIsFirst(heard[n].value, records[order[n]], people, ack);
      }
    }
  }

  lemma {:induction false} NotYetAcked(order: seq<EventId>, heard: seq<Option<seq<Ack>>>, records: map<EventId, Record>,
                                       people: People, id: EventId)
    requires |heard| == |order| && (forall other | other in order :: other in records) && id !in order
    ensures forall e | e in AckEntries(order, heard, records, people) :: e.event != id
  {
    hide FirstAck;
    if order != [] {
      NotYetAcked(order[..|order| - 1], heard[..|order| - 1], records, people, id);
    }
  }

  lemma BehindOne(answers: seq<Answer>, i: nat)
    ensures Behind(Behind(answers, i), 1) == Behind(answers, i + 1)
    ensures (if Behind(answers, i) == [] then None else Behind(answers, i)[0].acks) == if i < |answers| then answers[i].acks else None
    ensures |Behind(answers, i + 1)| <= |answers|
    ensures Behind(answers, i) != [] ==> i < |answers|
  {
  }

  lemma NothingAcked(answers: seq<Answer>, records: map<EventId, Record>, people: People)
    ensures AckEntries([], Heard(answers, 0), records, people) == [] && Behind(answers, 0) == answers
  {
  }

  lemma {:induction false} FirstVerifies(acks: seq<Ack>, record: Record, people: People)
    ensures FirstAck(acks, record, people).Some? ==> VerifyAck(FirstAck(acks, record, people).value, record, people)
  {
    hide VerifyAck;
    if acks != [] {
      FirstVerifies(acks[1..], record, people);
    }
  }

  lemma {:induction false} AckEntriesAre(order: seq<EventId>, heard: seq<Option<seq<Ack>>>, records: map<EventId, Record>,
                                         people: People)
    requires |heard| == |order| && forall id | id in order :: id in records
    ensures forall e | e in AckEntries(order, heard, records, people) ::
      e.event in order && e.event in records && e.state.Acknowledged? && VerifyAck(e.state.ack, records[e.event], people)
  {
    hide FirstAck, VerifyAck;
    if order != [] {
      var n := |order| - 1;
      assert order[n] in order;
      AckEntriesAre(order[..n], heard[..n], records, people);
      if heard[n].Some? {
        FirstVerifies(heard[n].value, records[order[n]], people);
      }
    }
  }

  lemma {:induction false} CountsTogether(a: seq<Entry>, b: seq<Entry>, id: EventId)
    ensures Acks(a + b, id) == Acks(a, id) + Acks(b, id) && Attempts(a + b, id) == Attempts(a, id) + Attempts(b, id)
  {
    if b == [] {
      assert a + b == a;
    } else {
      assert (a + b)[..|a + b| - 1] == a + b[..|b| - 1];
      CountsTogether(a, b[..|b| - 1], id);
    }
  }

  lemma {:induction false} AckEntriesOnce(order: seq<EventId>, heard: seq<Option<seq<Ack>>>, records: map<EventId, Record>,
                                          people: People, id: EventId)
    requires |heard| == |order| && forall other | other in order :: other in records
    requires forall i, j :: 0 <= i < j < |order| ==> order[i] != order[j]
    ensures var entries := AckEntries(order, heard, records, people);
      Acks(entries, id) <= (if id in order then 1 else 0) && Attempts(entries, id) == 0
  {
    hide FirstAck;
    if order != [] {
      var n := |order| - 1;
      AckEntriesOnce(order[..n], heard[..n], records, people, id);
      var more := AckEntry(order[n], heard[n], records[order[n]], people);
      CountsTogether(AckEntries(order[..n], heard[..n], records, people), more, id);
      assert more != [] ==> more[..|more| - 1] == [];
      assert order[n] !in order[..n] && order[n] in order;
    }
  }

  /** What the acknowledgements make of the ledger. */
  lemma AckedLedger(before: seq<Entry>, order: seq<EventId>, heard: seq<Option<seq<Ack>>>, settings: Settings, people: People,
                    routed: set<EventId>, known: map<EventId, Record>, records: map<EventId, Record>)
    requires |heard| == |order| && forall other | other in order :: other in records
    requires forall i, j :: 0 <= i < j < |order| ==> order[i] != order[j]
    requires AllSound(before, settings, people, routed, known, records)
    requires forall id :: Attempts(before, id) <= settings.maxAttempts
    requires forall e | e in before :: !e.state.Acknowledged? && !e.state.Resolved?
    ensures var now := before + AckEntries(order, heard, records, people);
      && AllSound(now, settings, people, routed, known, records)
      && (forall id :: Attempts(now, id) <= settings.maxAttempts && Acks(now, id) <= 1)
      && forall e | e in now :: !e.state.Resolved?
  {
    hide Attempts, Acks, AckEntries, VerifyAck;
    var more := AckEntries(order, heard, records, people);
    AckEntriesAre(order, heard, records, people);
    forall id: EventId
      ensures Attempts(before + more, id) <= settings.maxAttempts && Acks(before + more, id) <= 1
    {
      NoAcks(before, id);
      CountsTogether(before, more, id);
      AckEntriesOnce(order, heard, records, people, id);
    }
  }

  /** The first action that is verified, among those read for one record. */
  method FirstVerified(acks: seq<Ack>, record: Record, people: People) returns (r: Option<Ack>)
    ensures r == FirstAck(acks, record, people)
    ensures r.Some? ==> VerifyAck(r.value, record, people)
  {
    for i := 0 to |acks|
      invariant FirstAck(acks, record, people) == FirstAck(acks[i..], record, people)
    {
      assert acks[i..][1..] == acks[i + 1..];
      if VerifyAck(acks[i], record, people) {
        return Some(acks[i]);
      }
    }
    r := None;
  }

  /** Reads the actions of one record, and records the first one that is verified. */
  method AcknowledgeOne(id: EventId, record: Record, destination: Destination, people: People, ledger: Ledger)
    modifies destination`answers, ledger
    ensures |destination.answers| <= |old(destination.answers)| && (old(destination.Healthy()) ==> destination.Healthy())
    ensures destination.answers == Behind(old(destination.answers), 1)
    ensures var acks := if old(destination.answers) == [] then None else old(destination.answers)[0].acks;
      ledger.entries == old(ledger.entries) + AckEntry(id, acks, record, people)
  {
    hide FirstAck;
    var acks := destination.Acknowledgements(record);
    if acks.Some? {
      var ack := FirstVerified(acks.value, record, people);
      if ack.Some? {
        ledger.Add(id, Acknowledged(ack.value));
      }
    }
  }

  /** The acknowledgement loop of `run_cycle`. */
  method Acknowledge(records: map<EventId, Record>, destination: Destination, settings: Settings, people: People,
                     routed: set<EventId>, known: map<EventId, Record>, ledger: Ledger)
    requires AllSound(ledger.entries, settings, people, routed, known, records)
    requires forall id :: Attempts(ledger.entries, id) <= settings.maxAttempts
    requires forall e | e in ledger.entries :: !e.state.Acknowledged? && !e.state.Resolved?
    modifies destination`answers, ledger
    ensures AllSound(ledger.entries, settings, people, routed, known, records)
    ensures forall id :: Attempts(ledger.entries, id) <= settings.maxAttempts && Acks(ledger.entries, id) <= 1
    ensures forall e | e in ledger.entries :: !e.state.Resolved?
    ensures |destination.answers| <= |old(destination.answers)| && (old(destination.Healthy()) ==> destination.Healthy())
    ensures old(ledger.entries) <= ledger.entries
    ensures var order := Sorted(records.Keys);
      (forall id | id in order :: id in records)
      && ledger.entries == old(ledger.entries) + AckEntries(order, Heard(old(destination.answers), |order|), records, people)
    ensures old(destination.Healthy()) && destination.answers != [] ==> |records| <= |old(destination.answers)|
  {
    hide Attempts, Acks, Sound, VerifyAck, AllSound, AckEntries, AckEntry, FirstAck, Heard, Behind;
    var order := Sorted(records.Keys);
    AscendingDistinct(order);
    ghost var coming, before := destination.answers, ledger.entries;
    NothingAcked(coming, records, people);
    for i := 0 to |order|
      invariant |destination.answers| <= |coming| && (old(destination.Healthy()) ==> destination.Healthy())
      invariant destination.answers == Behind(coming, i)
      invariant ledger.entries == before + AckEntries(order[..i], Heard(coming, i), records, people)
    {
      var id := order[i];
      assert id in order;
      AckEntriesStep(order, coming, records, people, i);
      BehindOne(coming, i);
      ghost var sofar := AckEntries(order[..i], Heard(coming, i), records, people);
      AcknowledgeOne(id, records[id], destination, people, ledger);
      ghost var more := AckEntry(id, if i < |coming| then coming[i].acks else None, records[id], people);
      assert before + sofar + more == before + (sofar + more);
    }
    assert order[..|order|] == order;
    BehindOne(coming, |order|);
    AckedLedger(old(ledger.entries), order, Heard(old(destination.answers), |order|), settings, people, routed, known, records);
  }

  lemma AckSound(id: EventId, ack: Ack, settings: Settings, people: People, routed: set<EventId>,
                 known: map<EventId, Record>, records: map<EventId, Record>)
    requires id in records && VerifyAck(ack, records[id], people)
    ensures Sound(Entry(id, Acknowledged(ack)), settings, people, routed, known, records)
  {
  }

  /** The ledger says the alert was resolved, and it is not open. */
  ghost predicate ResolvedIn(entries: seq<Entry>, open: seq<Record>, id: EventId, known: map<EventId, Record>) {
    id in known && Entry(id, Resolved(known[id].reference)) in entries && !Holds(open, id)
  }

  predicate ResolvedOrRouted(entries: seq<Entry>, open: seq<Record>, id: EventId, known: map<EventId, Record>, routed: set<EventId>) {
    id in routed || (id in known && Entry(id, Resolved(known[id].reference)) in entries && !Holds(open, id))
  }

  predicate AllResolved(entries: seq<Entry>, open: seq<Record>, ids: seq<EventId>, known: map<EventId, Record>, routed: set<EventId>) {
    forall id | id in ids :: ResolvedOrRouted(entries, open, id, known, routed)
  }

  lemma NothingResolved(entries: seq<Entry>, open: seq<Record>, known: map<EventId, Record>, routed: set<EventId>)
    ensures AllResolved(entries, open, [], known, routed)
  {
  }

  lemma OneMoreResolved(before: seq<Entry>, now: seq<Entry>, open: seq<Record>, open': seq<Record>, ids: seq<EventId>, id: EventId,
                        known: map<EventId, Record>, routed: set<EventId>)
    requires forall other | Holds(open', other) :: Holds(open, other)
    ensures AllResolved(before, open, ids, known, routed) && before <= now && ResolvedOrRouted(now, open', id, known, routed) ==>
      AllResolved(now, open', ids + [id], known, routed)
  {
    hide Holds;
  }

  lemma ResolvedAll(entries: seq<Entry>, open: seq<Record>, order: seq<EventId>, known: map<EventId, Record>, routed: set<EventId>)
    requires forall id | id in known :: id in order
    ensures AllResolved(entries, open, order, known, routed) ==>
      forall id | id in known && id !in routed :: ResolvedIn(entries, open, id, known)
  {
    hide Holds;
  }

  lemma RoutedIsFine(entries: seq<Entry>, open: seq<Record>, id: EventId, known: map<EventId, Record>, routed: set<EventId>)
    ensures id in routed ==> ResolvedOrRouted(entries, open, id, known, routed)
  {
  }

  lemma ResolvedOrNot(before: seq<Entry>, now: seq<Entry>, open: seq<Record>, id: EventId, known: map<EventId, Record>,
                      routed: set<EventId>, ok: bool)
    requires id in known && (ok ==> now == before + [Entry(id, Resolved(known[id].reference))] && !Holds(open, id))
    ensures ok ==> ResolvedOrRouted(now, open, id, known, routed)
  {
    hide Holds;
    if ok {
      assert now[|before|] == Entry(id, Resolved(known[id].reference));
    }
  }

  lemma ResolvedSound(before: seq<Entry>, id: EventId, settings: Settings, people: People, routed: set<EventId>,
                      known: map<EventId, Record>, records: map<EventId, Record>)
    requires id in known && id !in routed && AllSound(before, settings, people, routed, known, records)
    ensures AllSound(before + [Entry(id, Resolved(known[id].reference))], settings, people, routed, known, records)
  {
  }

  /** Closes one alert, and records it when the destination says it is closed. */
  method ResolveOne(id: EventId, record: Record, destination: Destination, ledger: Ledger) returns (ok: bool)
    requires OneEach(destination.open) && record.event == id
    modifies destination`answers, destination`open, ledger
    ensures OneEach(destination.open)
    ensures forall other | other != id :: Holds(destination.open, other) <==> Holds(old(destination.open), other)
    ensures forall other :: Holds(destination.open, other) ==> Holds(old(destination.open), other)
    ensures if ok then ledger.entries == old(ledger.entries) + [Entry(id, Resolved(record.reference))]
            else ledger.entries == old(ledger.entries)
    ensures ok ==> !Holds(destination.open, id)
    ensures forall other ::
      Attempts(ledger.entries, other) == Attempts(old(ledger.entries), other) && Acks(ledger.entries, other) == Acks(old(ledger.entries), other)
    ensures |destination.answers| <= |old(destination.answers)| && (old(destination.Healthy()) ==> destination.Healthy())
    ensures old(destination.Healthy()) && destination.answers != [] ==> ok
  {
    hide Attempts, Acks, OneEach, Holds, Without;
    ghost var open, before := destination.open, ledger.entries;
    ok := destination.Resolve(record);
    WithoutKeepsOneEach(open, id);
    forall other: EventId
      ensures Holds(Without(open, id), other) <==> Holds(open, other) && other != id
      ensures Acks(before + [Entry(id, Resolved(record.reference))], other) == Acks(before, other)
    {
      WithoutHolds(open, id, other);
      CountsOneMore(before, Entry(id, Resolved(record.reference)), other);
    }
    if ok {
      ledger.Add(id, Resolved(record.reference));
    }
  }

  /** The resolution loop of `run_cycle`: alerts that were open and are not routed. */
  method ResolveCleared(records: map<EventId, Record>, destination: Destination, settings: Settings, people: People,
                        routed: set<EventId>, known: map<EventId, Record>, ledger: Ledger)
    requires OneEach(destination.open) && RecordsOk(records, known, routed)
    requires AllSound(ledger.entries, settings, people, routed, known, records)
    requires forall id :: Attempts(ledger.entries, id) <= settings.maxAttempts && Acks(ledger.entries, id) <= 1
    modifies destination`answers, destination`open, ledger
    ensures OneEach(destination.open)
    ensures forall id | id in routed :: Holds(destination.open, id) <==> Holds(old(destination.open), id)
    ensures forall id :: Holds(destination.open, id) ==> Holds(old(destination.open), id)
    ensures AllSound(ledger.entries, settings, people, routed, known, records)
    ensures forall id :: Attempts(ledger.entries, id) <= settings.maxAttempts && Acks(ledger.entries, id) <= 1
    ensures |destination.answers| <= |old(destination.answers)| && (old(destination.Healthy()) ==> destination.Healthy())
    ensures old(ledger.entries) <= ledger.entries
    ensures old(destination.Healthy()) && destination.answers != [] ==>
      forall id | id in known && id !in routed :: ResolvedIn(ledger.entries, destination.open, id, known)
    ensures forall e | e in ledger.entries && e !in old(ledger.entries) :: e.state.Resolved?
  {
    hide Attempts, Acks, VerifyAck, OneEach, Holds, Without, AllSound, Sound, ResolvedIn, AllResolved, ResolvedOrRouted;
    var order := Sorted(known.Keys);
    NothingResolved(ledger.entries, destination.open, known, routed);
    for i := 0 to |order|
      invariant OneEach(destination.open)
      invariant forall id | id in routed :: Holds(destination.open, id) <==> Holds(old(destination.open), id)
      invariant forall id :: Holds(destination.open, id) ==> Holds(old(destination.open), id)
      invariant AllSound(ledger.entries, settings, people, routed, known, records)
      invariant forall id :: Attempts(ledger.entries, id) <= settings.maxAttempts && Acks(ledger.entries, id) <= 1
      invariant |destination.answers| <= |old(destination.answers)| && (old(destination.Healthy()) ==> destination.Healthy())
      invariant old(ledger.entries) <= ledger.entries
      invariant old(destination.Healthy()) && destination.answers != [] ==>
        AllResolved(ledger.entries, destination.open, order[..i], known, routed)
      invariant forall e | e in ledger.entries && e !in old(ledger.entries) :: e.state.Resolved?
    {
      var id := order[i];
      assert id in order && order[..i + 1] == order[..i] + [id];
      ghost var open, before := destination.open, ledger.entries;
      if id !in routed {
        var ok := ResolveOne(id, known[id], destination, ledger);
        if ok {
          ResolvedSound(before, id, settings, people, routed, known, records);
        }
        ResolvedOrNot(before, ledger.entries, destination.open, id, known, routed, ok);
      }
      RoutedIsFine(ledger.entries, destination.open, id, known, routed);
      OneMoreResolved(before, ledger.entries, open, destination.open, order[..i], id, known, routed);
    }
    assert order[..|order|] == order;
    ResolvedAll(ledger.entries, destination.open, order, known, routed);
  }

  /** The last event with this identifier is the one that counts. */
  predicate LastOf(events: seq<Event>, id: EventId, event: Event) {
    exists i :: 0 <= i < |events| && events[i] == event && event.id == id && forall j :: i < j < |events| ==> events[j].id != id
  }

  lemma LastOneMore(events: seq<Event>, i: nat, routed: map<EventId, Event>)
    requires i < |events| && forall id | id in routed :: LastOf(events[..i], id, routed[id])
    ensures LastOf(events[..i + 1], events[i].id, events[i])
    ensures forall id | id in routed && id != events[i].id :: LastOf(events[..i + 1], id, routed[id])
  {
    var all := events[..i + 1];
    assert all[i] == events[i] && forall j :: 0 <= j < i ==> all[j] == events[..i][j];
    forall id | id in routed && id != events[i].id
      ensures LastOf(all, id, routed[id])
    {
      var k :| 0 <= k < |events[..i]| && events[..i][k] == routed[id] && routed[id].id == id
               && forall j :: k < j < |events[..i]| ==> events[..i][j].id != id;
      assert all[k] == routed[id];
    }
  }

  /** The start of `run_cycle`: what is routed, in order, and one entry for each event. */
  method Route(events: seq<Event>, settings: Settings, people: People, ledger: Ledger)
    returns (routed: map<EventId, Event>, order: seq<EventId>)
    requires ledger.entries == []
    modifies ledger
    ensures forall i, j :: 0 <= i < j < |order| ==> order[i] != order[j]
    ensures forall id :: id in order <==> id in routed
    ensures forall id | id in routed :: routed[id].id == id && routed[id] in events
    ensures forall e | e in events :: e.id in routed
    ensures forall id :: Attempts(ledger.entries, id) == 0
    ensures forall e | e in ledger.entries :: e.state.EventCreated? && e.event in routed
    ensures ledger.entries == seq(|events|, i requires 0 <= i < |events| => Entry(events[i].id, EventCreated(events[i].occurrence)))
    ensures forall id | id in routed :: LastOf(events, id, routed[id])
  {
    hide Attempts, LastOf;
    routed, order := map[], [];
    assert forall id :: Attempts([], id) == 0 by { NothingTried(); }
    for i := 0 to |events|
      invariant forall i, j :: 0 <= i < j < |order| ==> order[i] != order[j]
      invariant forall id :: id in order <==> id in routed
      invariant forall id | id in routed :: routed[id].id == id && routed[id] in events
      invariant forall j :: 0 <= j < i ==> events[j].id in routed
      invariant forall id :: Attempts(ledger.entries, id) == 0
      invariant forall e | e in ledger.entries :: e.state.EventCreated? && e.event in routed
      invariant ledger.entries == seq(i, k requires 0 <= k < i => Entry(events[k].id, EventCreated(events[k].occurrence)))
      invariant forall id | id in routed :: LastOf(events[..i], id, routed[id])
    {
      var event := events[i];
      if event.id !in routed {
        order := order + [event.id];
      }
      LastOneMore(events, i, routed);
      routed := routed[event.id := event];
      ledger.Add(event.id, EventCreated(event.occurrence));
    }
    assert events[..|events|] == events;
  }

  lemma NothingTried()
    ensures forall id :: Attempts([], id) == 0
  {
  }

  /** Without the destination's view no write is made; every event is recorded as not reconciled. */
  method RecordUnreadable(order: seq<EventId>, routed: map<EventId, Event>, settings: Settings, people: People, ledger: Ledger)
    requires forall id :: id in order <==> id in routed
    requires AllSound(ledger.entries, settings, people, routed.Keys, map[], map[])
    requires forall id :: Attempts(ledger.entries, id) == 0
    requires forall e | e in ledger.entries :: !e.state.Acknowledged?
    modifies ledger
    ensures AllSound(ledger.entries, settings, people, routed.Keys, map[], map[])
    ensures forall id :: Attempts(ledger.entries, id) == 0
    ensures forall e | e in ledger.entries :: !e.state.Acknowledged?
    ensures ledger.entries
         == old(ledger.entries) + seq(|order|, i requires 0 <= i < |order| => Entry(order[i], DeliveryAttempted(0, FAILED_RECONCILE)))
  {
    hide Attempts;
    for i := 0 to |order|
      invariant AllSound(ledger.entries, settings, people, routed.Keys, map[], map[])
      invariant forall id :: Attempts(ledger.entries, id) == 0
      invariant forall e | e in ledger.entries :: !e.state.Acknowledged?
      invariant ledger.entries
             == old(ledger.entries) + seq(i, k requires 0 <= k < i => Entry(order[k], DeliveryAttempted(0, FAILED_RECONCILE)))
    {
      assert order[i] in order;
      ledger.Add(order[i], DeliveryAttempted(0, FAILED_RECONCILE));
    }
  }

  /** Each record is acknowledged exactly by the first action heard for it that counts, and nothing else is. */
  ghost predicate AcksAreThose(entries: seq<Entry>, records: map<EventId, Record>, heard: seq<Option<seq<Ack>>>, people: People)
    requires |heard| == |records|
  {
    && (forall k, ack :: 0 <= k < |records| ==>
          (Entry(Sorted(records.Keys)[k], Acknowledged(ack)) in entries <==>
             && Sorted(records.Keys)[k] in records && heard[k].Some?
             && IsFirst(heard[k].value, records[Sorted(records.Keys)[k]], people, ack)))
    && forall e | e in entries && e.state.Acknowledged? :: e.event in records
  }

  lemma AcksOfCycle(before: seq<Entry>, records: map<EventId, Record>, heard: seq<Option<seq<Ack>>>, people: People)
    requires |heard| == |records| && forall e | e in before :: !e.state.Acknowledged?
    requires forall id | id in Sorted(records.Keys) :: id in records
    ensures AcksAreThose(before + AckEntries(Sorted(records.Keys), heard, records, people), records, heard, people)
  {
    hide IsFirst, AckEntries;
    var order := Sorted(records.Keys);
    AscendingDistinct(order);
    AckEntriesAre(order, heard, records, people);
    forall k, ack | 0 <= k < |records|
      ensures Entry(order[k], Acknowledged(ack)) in before + AckEntries(order, heard, records, people) <==>
        order[k] in records && heard[k].Some? && IsFirst(heard[k].value, records[order[k]], people, ack)
    {
      AckedExactly(order, heard, records, people, k, ack);
    }
  }

  lemma AcksStay(was: seq<Entry>, now: seq<Entry>, records: map<EventId, Record>, heard: seq<Option<seq<Ack>>>, people: People)
    requires |heard| == |records| && AcksAreThose(was, records, heard, people) && was <= now
    requires forall e | e in now && e !in was :: e.state.Resolved?
    ensures AcksAreThose(now, records, heard, people)
  {
    hide IsFirst;
    assert forall e | e in was :: e in now;
  }

  /** The three loops of `run_cycle`, behind a view of the destination. */
  method Settle(order: seq<EventId>, routed: map<EventId, Event>, known: map<EventId, Record>,
                destination: Destination, settings: Settings, people: People, ledger: Ledger)
    returns (records: map<EventId, Record>, ghost heard: seq<Option<seq<Ack>>>)
    requires OneEach(destination.open) && |settings.backoff| + 1 >= settings.maxAttempts
    requires forall id :: Holds(destination.open, id) <==> id in known
    requires forall id | id in known :: known[id].event == id
    requires forall i, j :: 0 <= i < j < |order| ==> order[i] != order[j]
    requires forall id :: id in order <==> id in routed
    requires forall id | id in routed :: routed[id].id == id
    requires forall id :: Attempts(ledger.entries, id) == 0
    requires AllSound(ledger.entries, settings, people, routed.Keys, known, known)
    requires forall e | e in ledger.entries :: e.state.EventCreated?
    modifies destination, ledger
    ensures OneEach(destination.open) && AllSound(ledger.entries, settings, people, routed.Keys, known, records)
    ensures forall id :: Attempts(ledger.entries, id) <= settings.maxAttempts && Acks(ledger.entries, id) <= 1
    ensures forall e | e in ledger.entries && e.state.Delivered? :: Holds(destination.open, e.event)
    ensures forall id | id in known && id in routed :: Holds(destination.open, id)
    ensures |heard| == |records| && AcksAreThose(ledger.entries, records, heard, people)
    ensures |destination.answers| <= |old(destination.answers)| && (old(destination.Healthy()) ==> destination.Healthy())
    ensures old(destination.Healthy()) && destination.answers != [] && 0 < settings.maxAttempts ==>
      && (forall id | id in routed :: DeliveredIn(ledger.entries, id, records))
      && (forall id | id in known && id !in routed :: ResolvedIn(ledger.entries, destination.open, id, known))
      && forall acks | acks in heard :: acks.Some?
  {
    hide Attempts, Acks, OneEach, Holds, AcksAreThose, AllDelivered, DeliveredIn, ResolvedIn, AckEntries, Heard, Sound, IsFirst;
    records := DeliverAll(order, routed, known, destination, settings, people, ledger);
    ghost var coming, before := destination.answers, ledger.entries;
    ghost var well := destination.Healthy();
    heard := Heard(coming, |records|);
    Acknowledge(records, destination, settings, people, routed.Keys, known, ledger);
    ghost var acked := ledger.entries;
    AcksOfCycle(before, records, heard, people);
    ResolveCleared(records, destination, settings, people, routed.Keys, known, ledger);
    AcksStay(acked, ledger.entries, records, heard, people);
    DeliveredStay(before, ledger.entries, order, records);
    if well && destination.answers != [] {
      HeardAll(coming, |records|);
    }
    DeliveredIsSound(ledger.entries, settings, people, routed.Keys, known, records);
  }

  lemma NothingHeard(entries: seq<Entry>, people: People)
    requires forall e | e in entries :: !e.state.Acknowledged?
    ensures AcksAreThose(entries, map[], [], people)
  {
  }

  lemma DeliveredIsSound(entries: seq<Entry>, settings: Settings, people: People, routed: set<EventId>,
                         known: map<EventId, Record>, records: map<EventId, Record>)
    requires AllSound(entries, settings, people, routed, known, records)
    ensures forall e | e in entries && e.state.Delivered? :: e.event in routed && e.event in records
  {
    forall e | e in entries && e.state.Delivered?
      ensures e.event in routed && e.event in records
    {
      assert Sound(e, settings, people, routed, known, records);
    }
  }

  lemma DeliveredStay(was: seq<Entry>, now: seq<Entry>, order: seq<EventId>, records: map<EventId, Record>)
    requires was <= now
    ensures AllDelivered(was, order, records) ==> forall id | id in order :: DeliveredIn(now, id, records)
  {
    assert forall e | e in was :: e in now;
  }

  lemma HeardAll(answers: seq<Answer>, n: nat)
    requires n <= |answers| && forall a | a in answers :: a.fault.None? && a.acks.Some?
    ensures forall acks | acks in Heard(answers, n) :: acks.Some?
  {
    forall acks | acks in Heard(answers, n)
      ensures acks.Some?
    {
      var i :| 0 <= i < n && Heard(answers, n)[i] == acks;
      assert answers[i] in answers;
    }
  }

  /** `run_cycle`: at most one open alert for each event, attempts within the limit, at most one
      verified acknowledgement for each alert, only cleared conditions resolved; and what the
      ledger says was delivered is open when the cycle ends. */
  method RunCycle(events: seq<Event>, destination: Destination, settings: Settings, people: People)
    returns (ledger: Ledger, routed: map<EventId, Event>, known: map<EventId, Record>, records: map<EventId, Record>,
             ghost heard: seq<Option<seq<Ack>>>)
    requires OneEach(destination.open) && |settings.backoff| + 1 >= settings.maxAttempts
    modifies destination
    ensures OneEach(destination.open)
    ensures forall id :: id in routed <==> exists e :: e in events && e.id == id
    ensures AllSound(ledger.entries, settings, people, routed.Keys, known, records)
    ensures forall id :: Attempts(ledger.entries, id) <= settings.maxAttempts && Acks(ledger.entries, id) <= 1
    ensures forall e | e in ledger.entries && e.state.Delivered? :: Holds(destination.open, e.event)
    ensures forall id | id in known && id in routed :: Holds(destination.open, id)
    ensures |heard| == |records| && AcksAreThose(ledger.entries, records, heard, people)
    ensures old(destination.Healthy()) && destination.answers != [] && 0 < settings.maxAttempts ==>
      && (forall id :: id in known <==> Holds(old(destination.open), id))
      && (forall id | id in routed :: DeliveredIn(ledger.entries, id, records))
      && (forall id | id in known && id !in routed :: ResolvedIn(ledger.entries, destination.open, id, known))
      && forall acks | acks in heard :: acks.Some?
  {
    hide Attempts, Acks, OneEach, Holds, AcksAreThose, AllDelivered, DeliveredIn, ResolvedIn, AckEntries, Heard, IsFirst,
      RecordsOk;
    ledger := new Ledger();
    var order: seq<EventId>;
    routed, order := Route(events, settings, people, ledger);
    known, records, heard := map[], map[], [];
    var view := destination.OpenAlerts();
    if view.None? {
      RecordUnreadable(order, routed, settings, people, ledger);
      forall id: EventId
        ensures Acks(ledger.entries, id) == 0
      {
        NoAcks(ledger.entries, id);
      }
      NothingHeard(ledger.entries, people);
      return;
    }
    known := view.value;
    records, heard := Settle(order, routed, known, destination, settings, people, ledger);
  }

  /** Between cycles people may close alerts. */
  datatype Act = Cycles(events: seq<Event>) | Closes(event: EventId)

  /** Over any number of cycles no event ever has two open alerts. */
  method Operate(acts: seq<Act>, destination: Destination, settings: Settings, people: People)
    requires OneEach(destination.open) && |settings.backoff| + 1 >= settings.maxAttempts
    modifies destination
    ensures OneEach(destination.open)
  {
    for i := 0 to |acts|
      invariant OneEach(destination.open)
    {
      match acts[i]
      case Cycles(events) =>
        var ledger, routed, known, records, heard := RunCycle(events, destination, settings, people);
      case Closes(event) =>
        WithoutKeepsOneEach(destination.open, event);
        destination.open := Without(destination.open, event);
    }
  }
}
