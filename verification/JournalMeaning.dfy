/** What `validate_journal` accepts, entry by entry, and what is on disk in every history. */
module JournalMeaning {
  import opened Common
  import opened Journal
  import opened JournalRuns

  /** The statements of one kind. */
  function OfKind(plan: Plan, kind: Kind): set<nat> {
    set k: nat | k < |plan.statements| && plan.statements[k].kind == kind
  }

  /** Eighteen statements in their order: five of DDL, eleven SELECT and two DESCRIBE. */
  predicate IsBudget(plan: Plan) {
    && plan.executionLimit == 18 && |plan.statements| == 18
    && (forall k :: 0 <= k < 18 ==> plan.statements[k].id == k)
    && |OfKind(plan, Ddl)| == 5 && |OfKind(plan, Select)| == 11 && |OfKind(plan, Describe)| == 2
  }

  predicate IsId(id: string) {
    1 <= |id| <= 128 && forall i :: 0 <= i < |id| ==>
      'A' <= id[i] <= 'Z' || 'a' <= id[i] <= 'z' || '0' <= id[i] <= '9' || id[i] == '_' || id[i] == '-'
  }

  /** The entry holds the request of its statement under the token of round, statement and request; it has
      an execution unless it is only prepared; attempts and reads were counted; and a verified one kept
      the succeeded execution and the bytes it scanned. */
  predicate IsEntry(plan: Plan, k: nat, e: Entry)
    requires k < |plan.statements|
  {
    var s := plan.statements[k];
    var request := Request(s.sql, plan.workgroup, plan.catalog, plan.database, plan.results, s.parameters);
    && e.request.request == request && e.request.token == Sha256(plan.round, s.id, request)
    && e.submittedAt >= 0.0
    && (match e.queryId case None => e.state == Prepared case Some(id) => e.state != Prepared && IsId(id))
    && (e.starts.Some? ==> e.starts.value >= 1) && (e.gets.Some? ==> e.gets.value >= 1)
    && (e.state == Verified ==>
          && e.scanned.Some? && e.scanned.value >= 0 && e.execution.Some?
          && e.execution.value.state == RemoteSucceeded && e.queryId == Some(e.execution.value.queryId))
  }

  /** Pages under way are at most sixteen, of the succeeded execution of a statement that is not DDL. */
  predicate HasPages(plan: Plan, k: nat, e: Entry)
    requires k < |plan.statements|
  {
    e.capture.Some? ==>
      && e.state == Succeeded && plan.statements[k].kind in {Select, Describe}
      && e.queryId == Some(e.capture.value.queryId) && |e.capture.value.pages| <= 16
  }

  /** The journal of this plan and authorization: the first `n` statements, all but the last one verified,
      no two of them with one execution. */
  ghost predicate IsJournal(plan: Plan, reference: string, j: Journal, n: nat) {
    && IsBudget(plan) && j.plan == plan && j.reference == reference
    && n <= 18 && (forall k: nat :: k in j.executions <==> k < n)
    && (forall k :: 0 <= k < n ==> IsEntry(plan, k, j.executions[k]) && HasPages(plan, k, j.executions[k]))
    && (forall k :: 0 <= k < n - 1 ==> j.executions[k].state == Verified)
    && forall i, k :: 0 <= i < k < n && j.executions[i].queryId.Some? ==> j.executions[i].queryId != j.executions[k].queryId
  }

  // --------------------------------------------------------------------- the budget

  function KindBelow(statements: seq<Statement>, kind: Kind, n: nat): set<nat>
    requires n <= |statements|
  {
    set k: nat | k < n && statements[k].kind == kind
  }

  lemma {:induction false} KindsOneMore(statements: seq<Statement>, s: Statement)
    ensures Kinds(statements + [s]) == Kinds(statements) + multiset{s.kind}
  {
    if statements == [] {
      assert statements + [s] == [s] && [s][1..] == [];
    } else {
      KindsOneMore(statements[1..], s);
      assert (statements + [s])[1..] == statements[1..] + [s];
    }
  }

  lemma {:induction false} KindsCount(statements: seq<Statement>, kind: Kind, n: nat)
    requires n <= |statements|
    ensures Kinds(statements[..n])[kind] == |KindBelow(statements, kind, n)|
  {
    hide Kinds, KindBelow;
    NoneBelow(statements, kind);
    if n == 0 {
      NoKinds(kind);
      assert statements[..0] == [];
    } else {
      KindsCount(statements, kind, n - 1);
      KindsOneMore(statements[..n - 1], statements[n - 1]);
      assert statements[..n] == statements[..n - 1] + [statements[n - 1]];
      OneBelow(statements, kind, n);
    }
  }

  lemma NoneBelow(statements: seq<Statement>, kind: Kind)
    ensures KindBelow(statements, kind, 0) == {}
  {
  }

  lemma OneBelow(statements: seq<Statement>, kind: Kind, n: nat)
    requires 0 < n <= |statements|
    ensures |KindBelow(statements, kind, n)|
         == |KindBelow(statements, kind, n - 1)| + if statements[n - 1].kind == kind then 1 else 0
  {
    var before := KindBelow(statements, kind, n - 1);
    assert KindBelow(statements, kind, n) == if statements[n - 1].kind == kind then before + {n - 1} else before;
    assert n - 1 !in before;
  }

  lemma NoKinds(kind: Kind)
    ensures Kinds([])[kind] == 0
  {
  }

  lemma BudgetExactly(plan: Plan)
    ensures BudgetOk(plan) <==> IsBudget(plan)
  {
    var kinds := Kinds(plan.statements);
    forall kind
      ensures kinds[kind] == |OfKind(plan, kind)|
    {
      KindsCount(plan.statements, kind, |plan.statements|);
      assert plan.statements[..|plan.statements|] == plan.statements;
      assert OfKind(plan, kind) == KindBelow(plan.statements, kind, |plan.statements|);
    }
    var wanted := multiset{}[Ddl := 5][Select := 11][Describe := 2];
    if IsBudget(plan) {
      forall kind
        ensures kinds[kind] == wanted[kind]
      {
        match kind
        case Ddl =>
        case Select =>
        case Describe =>
      }
      assert kinds == wanted;
    }
  }

  // -------------------------------------------------------------------- the journal

  lemma IdExactly(id: string)
    ensures QueryIdOk(id) <==> IsId(id)
  {
    if QueryIdOk(id) {
      assert forall i :: 0 <= i < |id| ==> id[i] in id;
    }
  }

  lemma EntryExactly(plan: Plan, k: nat, e: Entry)
    requires k < |plan.statements|
    ensures Core(plan, k, e) <==> IsEntry(plan, k, e)
    ensures CaptureFine(plan, k, e) <==> HasPages(plan, k, e)
  {
    hide QueryIdOk, IsId;
    if e.queryId.Some? {
      IdExactly(e.queryId.value);
    }
  }

  /** Exactly which journals are accepted. */
  lemma AcceptsExactly(plan: Plan, reference: string, j: Journal)
    ensures Accepts(plan, reference, j) <==> IsJournal(plan, reference, j, |j.executions|)
  {
    hide BudgetOk, IsBudget, Core, IsEntry, CaptureFine, HasPages;
    BudgetExactly(plan);
    BudgetSize(plan);
    var n := |j.executions|;
    if BudgetOk(plan) && n <= 18 {
      forall k: nat | k in j.executions && k < 18
        ensures Core(plan, k, j.executions[k]) <==> IsEntry(plan, k, j.executions[k])
        ensures CaptureFine(plan, k, j.executions[k]) <==> HasPages(plan, k, j.executions[k])
      {
        EntryExactly(plan, k, j.executions[k]);
      }
    }
  }

  lemma BudgetSize(plan: Plan)
    ensures BudgetOk(plan) ==> |plan.statements| == 18
    ensures IsBudget(plan) ==> |plan.statements| == 18
  {
  }

  /** In every history, whatever crashed and whenever: what is on disk is a list of sound entries of the
      first statements, no two of them with one execution. */
  lemma DiskAlwaysSound(plan: Plan, reference: string, w: World, h: seq<Event>)
    requires Sane(plan, reference, w) && Lawful(plan, reference, w, h) && After(w, h).disk.Some?
    ensures var j := After(w, h).disk.value;
      && IsBudget(plan) && j.plan == plan && j.reference == reference && |j.executions| <= 18
      && (forall k :: 0 <= k < |j.executions| ==> k in j.executions && IsEntry(plan, k, j.executions[k]))
      && forall i, k :: 0 <= i < k < |j.executions| && j.executions[i].queryId.Some? ==>
           j.executions[i].queryId != j.executions[k].queryId
  {
    hide BudgetOk, IsBudget, Core, IsEntry, Lawful, After;
    ServiceNeverAheadOfJournal(plan, reference, w, h);
    BudgetExactly(plan);
    BudgetSize(plan);
    var j := After(w, h).disk.value;
    forall k: nat | k in j.executions
      ensures k < 18 && IsEntry(plan, k, j.executions[k])
    {
      EntryExactly(plan, k, j.executions[k]);
    }
  }
}
