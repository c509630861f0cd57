/** What holds over all runs of a round that follow the journal protocol, with crashes,
    restarts, unknown start outcomes and retransmissions anywhere. */
module JournalRuns {
  import opened Common
  import opened Journal

  lemma StepKeepsSane(plan: Plan, reference: string, w: World, e: Event)
    requires Sane(plan, reference, w) && Permitted(plan, reference, w, e)
    ensures Sane(plan, reference, Next(w, e))
  {
    hide Almost, JournalStep, MaySleep, Sane, MayStart;
    match e
    case Wrote(k, journal, _) => WriteKeepsSane(plan, reference, w, k, journal);
    case Started(k, token, landed, id) => StartKeepsSane(plan, reference, w, k, token, id);
    case _ =>
  }

  lemma StartKeepsSane(plan: Plan, reference: string, w: World, k: nat, token: Token, id: string)
    requires Sane(plan, reference, w) && MayStart(plan, w, k, token)
    ensures token !in w.executions ==> Sane(plan, reference, w.(executions := w.executions[token := id]))
  {
    EntryRequest(plan, reference, w.disk.value, k);
    hide Framed;
  }

  lemma EntryRequest(plan: Plan, reference: string, j: Journal, k: nat)
    requires Framed(plan, reference, j) && k in j.executions
    ensures k < STATEMENTS == |plan.statements| && j.executions[k].request == RequestOf(plan, k)
    ensures j.executions[k].request.token.statement == k
  {
    assert Core(plan, k, j.executions[k]);
  }

  lemma WriteKeepsSane(plan: Plan, reference: string, w: World, k: nat, j: Journal)
    requires Sane(plan, reference, w) && Almost(plan, reference, j, k) && JournalStep(plan, reference, w, k, j)
    ensures Sane(plan, reference, w.(disk := Some(j)))
  {
    var before := if w.disk.Some? then w.disk.value else Empty(plan, reference);
    forall token | token in w.executions
      ensures token.statement in j.executions
           && j.executions[token.statement].request.token == token
           && j.executions[token.statement].starts.Some?
    {
      var i := token.statement;
      assert i in before.executions && (i == k ==> EntryStep(before.executions[k], j.executions[k], w.executions));
    }
    forall i | i in j.executions && j.executions[i].queryId.Some?
      ensures j.executions[i].request.token in w.executions
           && w.executions[j.executions[i].request.token] == j.executions[i].queryId.value
    {
      assert i in before.executions && (i == k ==> EntryStep(before.executions[k], j.executions[k], w.executions));
    }
  }

  /** Write-ahead, over every history: each execution at the service is reserved in the
      journal on disk, and each execution id in the journal is the service's. */
  lemma {:induction false} ServiceNeverAheadOfJournal(plan: Plan, reference: string, w: World, h: seq<Event>)
    requires Sane(plan, reference, w) && Lawful(plan, reference, w, h)
    ensures Sane(plan, reference, After(w, h))
  {
    if h != [] {
      ServiceNeverAheadOfJournal(plan, reference, w, h[..|h| - 1]);
      StepKeepsSane(plan, reference, After(w, h[..|h| - 1]), h[|h| - 1]);
    }
  }

  /** Each statement has at most one execution, and there are never more than eighteen. */
  lemma OneExecutionPerStatement(plan: Plan, reference: string, w: World)
    requires Sane(plan, reference, w)
    ensures forall t, u | t in w.executions && u in w.executions && t.statement == u.statement :: t == u
    ensures |w.executions| <= STATEMENTS
    ensures w.disk.Some? ==> |w.executions| <= |w.disk.value.executions|
  {
    if w.disk.Some? {
      var places := set t | t in w.executions :: t.statement;
      InjectedSize(w.executions.Keys, places);
      assert places <= w.disk.value.executions.Keys;
      SubsetSize(places, w.disk.value.executions.Keys);
      assert |w.executions| == |w.executions.Keys| && |w.disk.value.executions| == |w.disk.value.executions.Keys|;
    }
  }

  lemma {:induction false} InjectedSize(tokens: set<Token>, places: set<nat>)
    requires places == set t | t in tokens :: t.statement
    requires forall t, u | t in tokens && u in tokens && t.statement == u.statement :: t == u
    ensures |tokens| == |places|
  {
    if tokens == {} {
      assert places == {};
    } else {
      var t :| t in tokens;
      assert places - {t.statement} == set u | u in tokens - {t} :: u.statement;
      InjectedSize(tokens - {t}, places - {t.statement});
    }
  }

  lemma {:induction false} SubsetSize(a: set<nat>, b: set<nat>)
    requires a <= b
    ensures |a| <= |b|
  {
    if a != {} {
      var x :| x in a;
      SubsetSize(a - {x}, b - {x});
    }
  }

  /** The history up to one of its events. */
  lemma {:induction false} LawfulAt(plan: Plan, reference: string, w: World, h: seq<Event>, i: nat)
    requires Lawful(plan, reference, w, h) && i < |h|
    ensures Lawful(plan, reference, w, h[..i]) && Permitted(plan, reference, After(w, h[..i]), h[i])
    ensures After(w, h[..i + 1]) == Next(After(w, h[..i]), h[i])
  {
    var before := h[..|h| - 1];
    assert h[..i + 1][..i] == h[..i];
    if i < |h| - 1 {
      LawfulAt(plan, reference, w, before, i);
      assert before[..i] == h[..i] && before[..i + 1] == h[..i + 1];
    }
  }

  /** Statement `k` is started only while the journal on disk has every earlier statement
      verified, and its own request reserved under the very token that is sent. */
  lemma StartsInOrder(plan: Plan, reference: string, w: World, h: seq<Event>, i: nat)
    requires Sane(plan, reference, w) && Lawful(plan, reference, w, h) && i < |h| && h[i].Started?
    ensures var disk := After(w, h[..i]).disk;
            && disk.Some? && BudgetOk(plan) && h[i].k < STATEMENTS
            && h[i].token == RequestOf(plan, h[i].k).token
            && (forall n: nat | n < h[i].k :: n in disk.value.executions && disk.value.executions[n].state == Verified)
            && (forall n: nat | h[i].k < n :: n !in disk.value.executions)
  {
    LawfulAt(plan, reference, w, h, i);
    ServiceNeverAheadOfJournal(plan, reference, w, h[..i]);
  }

  predicate ClosedAt(w: World, k: nat, state: State) {
    && w.disk.Some? && k in w.disk.value.executions
    && Closed(state) && w.disk.value.executions[k].state == state
  }

  /** What of an entry is kept for good. */
  predicate Kept(e: Entry, e': Entry) {
    && e'.request == e.request && e'.submittedAt == e.submittedAt
    && (e.queryId.Some? ==> e'.queryId == e.queryId)
    && (Closed(e.state) ==> e'.state == e.state)
  }

  /** One event of any process on the entry of a statement. */
  lemma StepKeepsEntry(plan: Plan, reference: string, w: World, e: Event, k: nat)
    requires Permitted(plan, reference, w, e) && w.disk.Some? && k in w.disk.value.executions
    ensures var now := Next(w, e).disk;
            now.Some? && k in now.value.executions && Kept(w.disk.value.executions[k], now.value.executions[k])
  {
    hide Almost, MayStart, MaySleep;
  }

  /** A FAILED, CANCELLED or TIMED_OUT entry, once written, is in every later journal. */
  lemma {:induction false} ClosedForever(plan: Plan, reference: string, w: World, h: seq<Event>, i: nat, k: nat, state: State)
    requires Lawful(plan, reference, w, h) && i <= |h| && ClosedAt(After(w, h[..i]), k, state)
    ensures ClosedAt(After(w, h), k, state)
  {
    hide Permitted;
    if i == |h| {
      assert h[..i] == h;
    } else {
      var before := h[..|h| - 1];
      assert before[..i] == h[..i];
      ClosedForever(plan, reference, w, before, i, k, state);
      StepKeepsEntry(plan, reference, After(w, before), h[|h| - 1], k);
    }
  }

  /** After such an entry no statement is ever started again, in this run or a later one. */
  lemma NoStartAfterFailure(plan: Plan, reference: string, w: World, h: seq<Event>, i: nat, n: nat, k: nat, state: State)
    requires Lawful(plan, reference, w, h) && i <= n < |h| && ClosedAt(After(w, h[..i]), k, state)
    ensures !h[n].Started?
  {
    hide Lawful, Almost, JournalStep, MaySleep, HasId, After;
    LawfulAt(plan, reference, w, h, n);
    assert h[..n][..i] == h[..i];
    ClosedForever(plan, reference, w, h[..n], i, k, state);
  }

  /** The request, submission time and execution id of a statement never change once written. */
  lemma {:induction false} IdentityKept(plan: Plan, reference: string, w: World, h: seq<Event>, i: nat, k: nat)
    requires Lawful(plan, reference, w, h) && i <= |h|
    requires var disk := After(w, h[..i]).disk; disk.Some? && k in disk.value.executions
    ensures var was, now := After(w, h[..i]).disk.value, After(w, h).disk;
            now.Some? && k in now.value.executions && Kept(was.executions[k], now.value.executions[k])
  {
    hide Permitted;
    if i == |h| {
      assert h[..i] == h;
    } else {
      var before := h[..|h| - 1];
      assert before[..i] == h[..i];
      IdentityKept(plan, reference, w, before, i, k);
      StepKeepsEntry(plan, reference, After(w, before), h[|h| - 1], k);
    }
  }

  /** The service never gives a token a second execution. */
  lemma {:induction false} ExecutionsNeverReplaced(plan: Plan, reference: string, w: World, h: seq<Event>, i: nat, token: Token)
    requires i <= |h| && token in After(w, h[..i]).executions
    ensures token in After(w, h).executions && After(w, h).executions[token] == After(w, h[..i]).executions[token]
  {
    if i == |h| {
      assert h[..i] == h;
    } else {
      assert h[..|h| - 1][..i] == h[..i];
      ExecutionsNeverReplaced(plan, reference, w, h[..|h| - 1], i, token);
    }
  }

  /** Whoever waits for a query, in whichever run, wakes no later than the timeout after the
      submission time of the journal that first reserved it, on both clocks. */
  lemma DeadlineNeverExtended(plan: Plan, reference: string, w: World, h: seq<Event>, i: nat, n: nat)
    requires Lawful(plan, reference, w, h) && i <= n < |h| && h[n].Slept?
    requires var first := After(w, h[..i]).disk; first.Some? && h[n].k in first.value.executions
    ensures var submitted := After(w, h[..i]).disk.value.executions[h[n].k].submittedAt;
            && h[n].clock + h[n].pause <= submitted + plan.timeout as real
            && h[n].age + h[n].elapsedHere + h[n].pause <= plan.timeout as real
            && 0.0 <= h[n].pause <= 2.0
            && (h[n].pause < 2.0 ==> h[n].clock + h[n].pause == submitted + plan.timeout as real
                                     || h[n].age + h[n].elapsedHere + h[n].pause == plan.timeout as real)
  {
    hide Almost, JournalStep, MayStart, HasId, Lawful, After;
    LawfulAt(plan, reference, w, h, n);
    assert h[..n][..i] == h[..i];
    IdentityKept(plan, reference, w, h[..n], i, h[n].k);
  }

  /** Statement `k` is the last one or verified, and its pages under way belong to a
      succeeded execution. */
  predicate Fits(plan: Plan, j: Journal, k: nat)
    requires k in j.executions && k < |plan.statements|
  {
    (k == |j.executions| - 1 || j.executions[k].state == Verified) && CaptureFine(plan, k, j.executions[k])
  }

  lemma FitsExactly(plan: Plan, reference: string, j: Journal, k: nat)
    requires Almost(plan, reference, j, k)
    ensures Accepts(plan, reference, j) <==> Fits(plan, j, k)
  {
  }

  /** Exactly when a journal written in any run is one the next run accepts. */
  lemma AcceptedExactly(plan: Plan, reference: string, w: World, h: seq<Event>, i: nat)
    requires Lawful(plan, reference, w, h) && i < |h| && h[i].Wrote?
    ensures Almost(plan, reference, h[i].journal, h[i].k)
    ensures Accepts(plan, reference, h[i].journal) <==> Fits(plan, h[i].journal, h[i].k)
  {
    LawfulAt(plan, reference, w, h, i);
  }

  /** Recording the poll of a statement that is not the last one writes a journal that every
      later run refuses, although the journal it started from was accepted. */
  lemma RecordedPollRefused(plan: Plan, reference: string, w: World, h: seq<Event>, i: nat)
    requires Lawful(plan, reference, w, h) && i < |h| && h[i].Wrote? && h[i].polled
    ensures h[i].k < |h[i].journal.executions| - 1 ==> !Accepts(plan, reference, h[i].journal)
  {
    LawfulAt(plan, reference, w, h, i);
  }

  /** The smallest such case: a resumed run polls the first of two verified statements, the
      service says SUCCEEDED again, and that is written. */
  lemma ResumedJournalRefused(plan: Plan, reference: string, j: Journal)
    requires Accepts(plan, reference, j) && |j.executions| == 2
    ensures 0 in j.executions && j.executions[0].state == Verified
    ensures !Accepts(plan, reference, j.(executions := j.executions[0 := j.executions[0].(state := Succeeded)]))
  {
    var j' := j.(executions := j.executions[0 := j.executions[0].(state := Succeeded)]);
    assert 0 in j.executions && j'.executions.Keys == j.executions.Keys;
    assert j'.executions[0].state != Verified && |j'.executions| == 2;
  }

  /** The other such case: a run resumed while result pages were being read polls their
      statement, the service no longer says SUCCEEDED, and that is written over the pages. */
  lemma PagesUnderWayRefused(plan: Plan, reference: string, j: Journal, k: nat, state: State)
    requires Accepts(plan, reference, j) && k in j.executions && j.executions[k].capture.Some? && state != Succeeded
    ensures k == |j.executions| - 1 && j.executions[k].state == Succeeded
    ensures !Accepts(plan, reference, j.(executions := j.executions[k := j.executions[k].(state := state)]))
  {
    hide Core, DistinctIds, CaptureOwned;
    var j' := j.(executions := j.executions[k := j.executions[k].(state := state)]);
    assert k in j'.executions && !CaptureFine(plan, k, j'.executions[k]);
  }

  /** How many writes left a journal the next run refuses, and how many recorded a poll. */
  function Refusals(plan: Plan, reference: string, h: seq<Event>): nat {
    if h == [] then 0
    else
      var e := h[|h| - 1];
      Refusals(plan, reference, h[..|h| - 1]) + if e.Wrote? && !Accepts(plan, reference, e.journal) then 1 else 0
  }

  function Polls(h: seq<Event>): nat {
    if h == [] then 0
    else Polls(h[..|h| - 1]) + if h[|h| - 1].Wrote? && h[|h| - 1].polled then 1 else 0
  }

  /** A write of a journal of one statement, in a state other than SUCCEEDED and VERIFIED. */
  predicate Regresses(e: Event) {
    && e.Wrote? && |e.journal.executions| == 1 && 0 in e.journal.executions
    && e.journal.executions[0].state !in {Succeeded, Verified}
  }

  function Regressions(h: seq<Event>): nat {
    if h == [] then 0 else Regressions(h[..|h| - 1]) + if Regresses(h[|h| - 1]) then 1 else 0
  }

  /** Once the journal on disk has a second statement, every later write has it too. */
  lemma {:induction false} NoLaterRegression(plan: Plan, reference: string, w: World, was: seq<Event>, now: seq<Event>)
    requires was <= now && Lawful(plan, reference, w, now)
    requires var disk := After(w, was).disk; disk.Some? && 0 in disk.value.executions && 1 in disk.value.executions
    ensures Regressions(now) == Regressions(was)
  {
    hide Permitted, Kept;
    if was != now {
      var before := now[..|now| - 1];
      NoLaterRegression(plan, reference, w, was, before);
      assert now[..|was|] == was && before[..|was|] == was;
      IdentityKept(plan, reference, w, now, |was|, 0);
      IdentityKept(plan, reference, w, now, |was|, 1);
      var e := now[|now| - 1];
      if e.Wrote? {
        TwoEntries(e.journal.executions);
      }
    }
  }

  lemma TwoEntries(entries: map<nat, Entry>)
    requires 0 in entries && 1 in entries
    ensures 2 <= |entries|
  {
    SubsetSize({0, 1}, entries.Keys);
  }
}
