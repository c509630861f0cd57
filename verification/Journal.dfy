/** The write-ahead journal of `athena_run.py`: the frozen plan, the journal file and
    what `validate_journal` accepts, and the protocol every run of a round follows
    between the journal on disk and a service that keeps one execution per token. */
module Journal {
  import opened Common

  const STATEMENTS: nat := 18

  // ------------------------------------------------------------------- the plan

  datatype Kind = Ddl | Select | Describe

  type Cell = Option<string>

  type Row = seq<Cell>

  datatype Statement = Statement(
    id: nat, kind: Kind, sql: string, parameters: seq<string>,
    expected: Option<multiset<Row>>, jsonColumns: set<string>)

  datatype Plan = Plan(
    round: string, workgroup: string, catalog: string, database: string, results: string,
    executionLimit: int, scanCutoff: int, timeout: nat, statements: seq<Statement>)

  datatype Request = Request(
    sql: string, workgroup: string, catalog: string, database: string, results: string, parameters: seq<string>)

  /** sha256 of the canonical round, statement and request: a free constructor. */
  datatype Token = Sha256(round: string, statement: nat, request: Request)

  datatype Submission = Submission(request: Request, token: Token)

  function Kinds(statements: seq<Statement>): multiset<Kind> {
    if statements == [] then multiset{} else multiset{statements[0].kind} + Kinds(statements[1..])
  }

  /** Statement names are numbered by their place in the fixed list of eighteen. */
  predicate BudgetOk(plan: Plan) {
    && plan.executionLimit == STATEMENTS
    && |plan.statements| == STATEMENTS
    && (forall k :: 0 <= k < STATEMENTS ==> plan.statements[k].id == k)
    && Kinds(plan.statements) == multiset{}[Ddl := 5][Select := 11][Describe := 2]
  }

  /** `request`. */
  function RequestOf(plan: Plan, k: nat): Submission
    requires k < |plan.statements|
  {
    var s := plan.statements[k];
    var body := Request(s.sql, plan.workgroup, plan.catalog, plan.database, plan.results, s.parameters);
    Submission(body, Sha256(plan.round, s.id, body))
  }

  // ---------------------------------------------------------------- the journal

  datatype State = Prepared | Submitted | Queued | Running | Succeeded | Verified | Failed | Cancelled | TimedOut

  datatype RemoteState = RemoteQueued | RemoteRunning | RemoteSucceeded | RemoteFailed | RemoteCancelled | RemoteOther

  /** How the SQL of an answer may differ from the one sent. */
  datatype Rule = ExactTokens | TerminatorOmitted | QualifierOmitted

  datatype Parameters = NotReturned | Malformed | Returned(values: seq<string>)

  /** A `GetQueryExecution` answer; the context is the catalog and the database. What is None
      was missing or had another type. */
  datatype Remote = Remote(
    queryId: string, workgroup: Option<string>, context: Option<(string, string)>, sql: Option<string>,
    parameters: Parameters, state: RemoteState,
    submission: Option<real>, completion: Option<real>, totalMillis: Option<int>, millis: seq<int>,
    effectiveResults: bool, engine: bool, reused: Option<bool>, scanned: Option<int>)

  datatype Timing = Timing(duration: real, submissionToCompletion: real, delay: real, deadline: real, withinDeadline: bool)

  datatype Column = Column(name: string, heading: Option<string>, kind: string)

  datatype Page = Page(bytes: nat, columns: seq<Column>, rows: seq<Row>, next: Option<string>)

  datatype Capture = Capture(queryId: string, pages: seq<Page>)

  datatype Results = Results(columns: seq<Column>, rows: seq<Row>, pages: seq<Page>)

  datatype Entry = Entry(
    request: Submission, submittedAt: real, state: State, queryId: Option<string>,
    starts: Option<int>, gets: Option<int>, observation: Option<(Remote, Rule)>, execution: Option<Remote>,
    timing: Option<Timing>, scanned: Option<int>, capture: Option<Capture>, results: Option<Results>,
    cancellation: Option<Remote>)

  /** The file. A name outside the list of statements is a number from 18 on. */
  datatype Journal = Journal(plan: Plan, reference: string, executions: map<nat, Entry>)

  function Empty(plan: Plan, reference: string): Journal {
    Journal(plan, reference, map[])
  }

  function Reserved(plan: Plan, k: nat, now: real): Entry
    requires k < |plan.statements|
  {
    Entry(RequestOf(plan, k), now, Prepared, None, None, None, None, None, None, None, None, None, None)
  }

  predicate QueryIdOk(id: string) {
    && 1 <= |id| <= 128
    && forall c | c in id :: 'A' <= c <= 'Z' || 'a' <= c <= 'z' || '0' <= c <= '9' || c == '_' || c == '-'
  }

  predicate Closed(state: State) {
    state == Failed || state == Cancelled || state == TimedOut
  }

  /** What is demanded of one entry, but for the pages being read. */
  predicate Core(plan: Plan, k: nat, e: Entry)
    requires k < |plan.statements|
  {
    && e.request == RequestOf(plan, k)
    && 0.0 <= e.submittedAt
    && (e.queryId.None? <==> e.state == Prepared)
    && (e.queryId.Some? ==> QueryIdOk(e.queryId.value))
    && (e.starts.Some? ==> 0 < e.starts.value)
    && (e.gets.Some? ==> 0 < e.gets.value)
    && (e.state == Verified ==>
          && e.scanned.Some? && 0 <= e.scanned.value
          && e.execution.Some? && Some(e.execution.value.queryId) == e.queryId
          && e.execution.value.state == RemoteSucceeded)
  }

  /** Pages under way are of this statement's execution, which is not DDL. */
  predicate CaptureOwned(plan: Plan, k: nat, e: Entry)
    requires k < |plan.statements|
  {
    e.capture.Some? ==>
      && plan.statements[k].kind != Ddl
      && Some(e.capture.value.queryId) == e.queryId && |e.capture.value.pages| <= 16
  }

  predicate CaptureFine(plan: Plan, k: nat, e: Entry)
    requires k < |plan.statements|
  {
    (e.capture.Some? ==> e.state == Succeeded) && CaptureOwned(plan, k, e)
  }

  predicate DistinctIds(entries: map<nat, Entry>) {
    forall i, j | i in entries && j in entries && i != j ::
      entries[i].queryId.None? || entries[i].queryId != entries[j].queryId
  }

  /** The journal is of this plan and authorization and holds the first statements, each sound. */
  predicate Framed(plan: Plan, reference: string, j: Journal) {
    && BudgetOk(plan)
    && j.plan == plan && j.reference == reference
    && |j.executions| <= STATEMENTS
    && (forall k | k in j.executions :: k < |j.executions|)
    && (forall k :: 0 <= k < |j.executions| ==> k in j.executions)
    && DistinctIds(j.executions)
    && forall k | k in j.executions :: Core(plan, k, j.executions[k])
  }

  /** `validate_journal`. */
  predicate Accepts(plan: Plan, reference: string, j: Journal) {
    && Framed(plan, reference, j)
    && (forall k | k in j.executions :: CaptureFine(plan, k, j.executions[k]))
    && forall k | k in j.executions :: k == |j.executions| - 1 || j.executions[k].state == Verified
  }

  /** Accepted but for the entry of statement `k`, which a run is working on. */
  predicate Almost(plan: Plan, reference: string, j: Journal, k: nat) {
    && Framed(plan, reference, j)
    && k in j.executions
    && (forall i | i in j.executions && i != k :: CaptureFine(plan, i, j.executions[i]))
    && forall i | i in j.executions && i != k :: i == |j.executions| - 1 || j.executions[i].state == Verified
  }

  predicate AllVerified(j: Journal) {
    forall i | i in j.executions :: j.executions[i].state == Verified
  }

  // --------------------------------------------------------------- the protocol

  /** The journal file, and the execution the service keeps for each token. */
  datatype World = World(disk: Option<Journal>, executions: map<Token, string>)

  /** What one process does to that world. `polled` marks the write that records the state
      a poll returned; `id` is the execution the service would create for a new token. */
  datatype Event =
    | Wrote(k: nat, journal: Journal, polled: bool)
    | Started(k: nat, token: Token, landed: bool, id: string)
    | Read(k: nat, id: string)
    | Slept(k: nat, clock: real, age: real, elapsedHere: real, pause: real)
    | Stopped(k: nat, id: string)

  function Next(w: World, e: Event): World {
    match e
    case Wrote(_, journal, _) => w.(disk := Some(journal))
    case Started(_, token, landed, id) =>
      if landed && token !in w.executions then w.(executions := w.executions[token := id]) else w
    case _ => w
  }

  function After(w: World, h: seq<Event>): World {
    if h == [] then w else Next(After(w, h[..|h| - 1]), h[|h| - 1])
  }

  /** How an entry may change from one write to the next: the request, the submission time
      and a known execution are kept, a closed state is final, and the execution is the
      one the service holds for the entry's token. */
  predicate EntryStep(e: Entry, e': Entry, executions: map<Token, string>) {
    && e'.request == e.request && e'.submittedAt == e.submittedAt
    && (e.queryId.Some? ==> e'.queryId == e.queryId)
    && (e'.queryId.Some? && e.queryId.None? ==>
          e'.starts.Some? && e.request.token in executions && executions[e.request.token] == e'.queryId.value)
    && (Closed(e.state) ==> e'.state == e.state)
    && (e.starts.Some? ==> e'.starts.Some? && e.starts.value <= e'.starts.value)
    && (e.gets.Some? ==> e'.gets.Some? && e.gets.value <= e'.gets.value)
  }

  /** Only statement `k` changes; a new one is reserved after every earlier one is verified. */
  predicate JournalStep(plan: Plan, reference: string, w: World, k: nat, j: Journal) {
    var before := if w.disk.Some? then w.disk.value else Empty(plan, reference);
    && (forall i | i in before.executions && i != k :: i in j.executions && j.executions[i] == before.executions[i])
    && (forall i | i in j.executions && i != k :: i in before.executions)
    && k in j.executions
    && if k in before.executions
       then EntryStep(before.executions[k], j.executions[k], w.executions)
       else AllVerified(before) && j.executions[k].queryId.None? && j.executions[k].starts.None?
  }

  /** The journal on disk has every earlier statement verified and this one reserved,
      with the attempt counted. */
  predicate MayStart(plan: Plan, w: World, k: nat, token: Token) {
    && w.disk.Some?
    && var entries := w.disk.value.executions;
    && k in entries && k == |entries| - 1
    && (forall i | i in entries && i != k :: entries[i].state == Verified)
    && entries[k].state == Prepared && entries[k].starts.Some?
    && entries[k].request.token == token
  }

  /** An active query is only waited for inside the deadline of its first submission,
      measured on the wall clock and on this process's monotonic clock: two seconds, or as
      long as the deadline leaves on one of the two. */
  predicate MaySleep(plan: Plan, w: World, e: Event)
    requires e.Slept?
  {
    && w.disk.Some? && e.k in w.disk.value.executions
    && var elapsed := e.clock - w.disk.value.executions[e.k].submittedAt;
    && elapsed < plan.timeout as real && e.age + e.elapsedHere < plan.timeout as real
    && 0.0 <= e.pause <= 2.0
    && (e.pause == 2.0 || elapsed + e.pause == plan.timeout as real
        || e.age + e.elapsedHere + e.pause == plan.timeout as real)
    && elapsed + e.pause <= plan.timeout as real
    && e.age + e.elapsedHere + e.pause <= plan.timeout as real
  }

  predicate HasId(w: World, k: nat, id: string) {
    w.disk.Some? && k in w.disk.value.executions && w.disk.value.executions[k].queryId == Some(id)
  }

  predicate Permitted(plan: Plan, reference: string, w: World, e: Event) {
    match e
    case Wrote(k, journal, polled) =>
      && Almost(plan, reference, journal, k)
      && JournalStep(plan, reference, w, k, journal)
      && (polled ==> journal.executions[k].state != Verified)
    case Started(k, token, _, _) => MayStart(plan, w, k, token)
    case Slept(_, _, _, _, _) => MaySleep(plan, w, e)
    case Read(k, id) => HasId(w, k, id)
    case Stopped(k, id) => HasId(w, k, id) && w.disk.value.executions[k].state == TimedOut
  }

  predicate Lawful(plan: Plan, reference: string, w: World, h: seq<Event>) {
    h == [] || (Lawful(plan, reference, w, h[..|h| - 1])
                && Permitted(plan, reference, After(w, h[..|h| - 1]), h[|h| - 1]))
  }

  /** Write-ahead: the service holds nothing the journal has not reserved and counted, and
      each execution in the journal is the one the service holds for that token. */
  predicate Sane(plan: Plan, reference: string, w: World) {
    match w.disk
    case None => w.executions == map[]
    case Some(j) =>
      && Framed(plan, reference, j)
      && (forall token | token in w.executions ::
            && token.statement in j.executions
            && j.executions[token.statement].request.token == token
            && j.executions[token.statement].starts.Some?)
      && forall k | k in j.executions && j.executions[k].queryId.Some? ::
           && j.executions[k].request.token in w.executions
           && w.executions[j.executions[k].request.token] == j.executions[k].queryId.value
  }
}
