/** What the surroundings of one run of `execute_plan` answer, what the code makes of an answer,
    and which answers a run meets when nothing goes wrong. */
module AthenaAnswers {
  import opened Common
  import opened Journal
  import opened ResultPages
  import opened ExecutionIdentity

  type Instant = t: real | 0.0 <= t

  /** When the process dies around a call, and what the service makes of the call. */
  datatype Life = Survives | DiesBefore | DiesAfter

  datatype Fate = Answers | LosesAnswer | Refuses

  /** The next thing the surroundings do; each call reads the part that concerns it. */
  datatype Answer = Answer(life: Life, fate: Fate, text: string, clock: Instant, monotonic: real, remote: Remote, page: Page)

  function Larger(a: real, b: real): real { if a >= b then a else b }

  function Smaller(a: real, b: real): real { if a <= b then a else b }

  function Magnitude(a: real): real { if a < 0.0 then -a else a }

  function Attempts(count: Option<int>): int { if count.Some? then count.value else 0 }

  function Local(remote: RemoteState): Option<State> {
    match remote
    case RemoteQueued => Some(Queued)
    case RemoteRunning => Some(Running)
    case RemoteSucceeded => Some(Succeeded)
    case RemoteFailed => Some(Failed)
    case RemoteCancelled => Some(Cancelled)
    case RemoteOther => None
  }

  /** The state in the journal is the one the service reported. */
  predicate Mirrors(state: State, remote: RemoteState) {
    && (state == Queued <==> remote == RemoteQueued) && (state == Running <==> remote == RemoteRunning)
    && (state == Succeeded <==> remote == RemoteSucceeded) && (state == Failed <==> remote == RemoteFailed)
    && (state == Cancelled <==> remote == RemoteCancelled)
    && state in {Queued, Running, Succeeded, Failed, Cancelled}
  }

  /** `_terminal_timing`: None when the reported times are missing or inconsistent. */
  function TerminalTiming(remote: Remote, submittedAt: real, now: real, timeout: nat): Option<Timing> {
    if remote.submission.None? || remote.completion.None? || remote.totalMillis.None? then None
    else
      var start, end, total := remote.submission.value, remote.completion.value, remote.totalMillis.value;
      if !(total >= 0 && submittedAt <= start <= end <= now) then None
      else if 1.001 < Magnitude((end - start) * 1000.0 - total as real) then None
      else if exists m | m in remote.millis :: !(0 <= m <= total) then None
      else Some(Timing(end - start, end - submittedAt, now - end, submittedAt + timeout as real,
                       total < timeout * 1000 && end - submittedAt < timeout as real))
  }

  /** The reported times are there, in order and in agreement with the reported durations. */
  predicate ConsistentTimes(remote: Remote, submittedAt: real, now: real) {
    && remote.submission.Some? && remote.completion.Some? && remote.totalMillis.Some?
    && submittedAt <= remote.submission.value <= remote.completion.value <= now
    && 0 <= remote.totalMillis.value
    && -1.001 <= (remote.completion.value - remote.submission.value) * 1000.0 - remote.totalMillis.value as real <= 1.001
    && forall m | m in remote.millis :: 0 <= m <= remote.totalMillis.value
  }

  /** The execution ended inside the deadline that counts from the submission in the journal. */
  predicate InTime(remote: Remote, submittedAt: real, timeout: nat) {
    && remote.completion.Some? && remote.completion.value - submittedAt < timeout as real
    && remote.totalMillis.Some? && remote.totalMillis.value < timeout * 1000
  }

  /** What is recorded of consistent times. */
  predicate TimesRecorded(remote: Remote, submittedAt: real, now: real, timeout: nat, timing: Timing) {
    && remote.submission.Some? && remote.completion.Some?
    && timing.duration == remote.completion.value - remote.submission.value
    && timing.submissionToCompletion == remote.completion.value - submittedAt
    && timing.delay == now - remote.completion.value
    && timing.deadline == submittedAt + timeout as real
    && (timing.withinDeadline <==> InTime(remote, submittedAt, timeout))
  }

  lemma TimingExactly(remote: Remote, submittedAt: real, now: real, timeout: nat)
    ensures TerminalTiming(remote, submittedAt, now, timeout).Some? <==> ConsistentTimes(remote, submittedAt, now)
    ensures TerminalTiming(remote, submittedAt, now, timeout).Some? ==>
      TimesRecorded(remote, submittedAt, now, timeout, TerminalTiming(remote, submittedAt, now, timeout).value)
  {
  }

  /** A proven execution was in time by consistent times, and they are in the journal. */
  predicate Timely(e: Entry, remote: Remote, timeout: nat) {
    && e.timing.Some? && remote.completion.Some? && 0.0 <= e.timing.value.delay
    && var seen := remote.completion.value + e.timing.value.delay;
    && ConsistentTimes(remote, e.submittedAt, seen) && InTime(remote, e.submittedAt, timeout)
    && TimesRecorded(remote, e.submittedAt, seen, timeout, e.timing.value)
  }

  lemma TimelyKept(e: Entry, e': Entry, remote: Remote, timeout: nat)
    requires Timely(e, remote, timeout) && e'.timing == e.timing && e'.submittedAt == e.submittedAt
    ensures Timely(e', remote, timeout)
  {
  }

  lemma TimingSays(e: Entry, remote: Remote, now: real, timeout: nat)
    requires e.timing.Some? && TimesRecorded(remote, e.submittedAt, now, timeout, e.timing.value)
    ensures e.timing.value.withinDeadline <==> InTime(remote, e.submittedAt, timeout)
  {
  }

  lemma TimelyNow(e: Entry, remote: Remote, timeout: nat, now: real)
    requires ConsistentTimes(remote, e.submittedAt, now) && InTime(remote, e.submittedAt, timeout)
    requires e.timing.Some? && TimesRecorded(remote, e.submittedAt, now, timeout, e.timing.value)
    ensures Timely(e, remote, timeout)
  {
  }

  /** `_verify_execution`: the scanned bytes of an execution whose settings are the plan's. */
  function Scanned(plan: Plan, kind: Kind, remote: Remote): Option<int> {
    if !remote.effectiveResults || !remote.engine then None
    else if remote.reused == Some(true) || (kind == Select && remote.reused.None?) then None
    else if remote.scanned.None? || !(0 <= remote.scanned.value <= plan.scanCutoff) then None
    else remote.scanned
  }

  /** The settings were the plan's, nothing was reused, and the bytes scanned are within its limit. */
  predicate ScanAllowed(plan: Plan, kind: Kind, remote: Remote, scanned: int) {
    && remote.effectiveResults && remote.engine
    && (remote.reused.Some? ==> !remote.reused.value) && (kind == Select ==> remote.reused.Some?)
    && remote.scanned == Some(scanned) && 0 <= scanned <= plan.scanCutoff
  }

  lemma ScannedExactly(plan: Plan, kind: Kind, remote: Remote)
    ensures Scanned(plan, kind, remote).Some? <==> remote.scanned.Some? && ScanAllowed(plan, kind, remote, remote.scanned.value)
    ensures Scanned(plan, kind, remote).Some? ==> Scanned(plan, kind, remote) == remote.scanned
  {
  }

  // ------------------------------------------------------------ when nothing goes wrong

  /** How many calls in a row are answered and survived. */
  function Leading(a: seq<Answer>): (n: nat)
    ensures n <= |a|
  {
    if a != [] && a[0].life == Survives && a[0].fate == Answers then 1 + Leading(a[1..]) else 0
  }

  lemma {:induction false} LeadingDrop(a: seq<Answer>, n: nat)
    requires n <= Leading(a)
    ensures Leading(a[n..]) == Leading(a) - n
  {
    if n > 0 {
      LeadingDrop(a[1..], n - 1);
      assert a[n..] == a[1..][n - 1..];
    } else {
      assert a[0..] == a;
    }
  }

  /** The execution the service reports is the one asked for, its SQL as it was sent. */
  predicate Said(plan: Plan, k: nat, id: string, remote: Remote)
    requires k < |plan.statements|
  {
    && Judge(Some(plan.statements[k].kind), id, RequestOf(plan, k).request, remote) == Ok(ExactTokens)
    && ParametersSame(RequestOf(plan, k).request, remote)
  }

  /** Both clocks are inside the deadline of the submission. */
  predicate Waits(timeout: nat, submitted: real, anchor: real, age: real, clock: real, monotonic: real) {
    && 0.0 <= Larger(clock - submitted, age + monotonic - anchor)
    && clock - submitted < timeout as real && age + monotonic - anchor < timeout as real
  }

  /** `n` polls find the query active inside its deadline, and the one after them finds it
      succeeded in time. A poll is four calls; a wait looks at both clocks, the end at one. */
  predicate SmoothPoll(plan: Plan, k: nat, id: string, submitted: real, anchor: real, age: real, n: nat, a: seq<Answer>)
    requires k < |plan.statements|
  {
    if n == 0 then
      && 5 <= Leading(a) && Said(plan, k, id, a[1].remote) && a[1].remote.state == RemoteSucceeded
      && ConsistentTimes(a[1].remote, submitted, a[4].clock) && InTime(a[1].remote, submitted, plan.timeout)
    else
      && 6 <= Leading(a) && Said(plan, k, id, a[1].remote) && a[1].remote.state in {RemoteQueued, RemoteRunning}
      && Waits(plan.timeout, submitted, anchor, age, a[4].clock, a[5].monotonic)
      && SmoothPoll(plan, k, id, submitted, anchor, age, n - 1, a[6..])
  }

  /** The answer of the last poll, and the answers behind it. */
  function PollEnd(n: nat, a: seq<Answer>): (Option<Remote>, seq<Answer>) {
    if n == 0 then if 5 <= |a| then (Some(a[1].remote), a[5..]) else (None, a)
    else if 6 <= |a| then PollEnd(n - 1, a[6..])
    else (None, a)
  }

  /** `n` more pages of two calls each complete the pages read so far. */
  predicate SmoothPages(f: Format, pages: seq<Page>, n: nat, a: seq<Answer>)
    decreases n
  {
    && 0 < n && 2 <= Leading(a)
    && var all := pages + [a[0].page];
    && FinePage(f, pages, a[0].page)
    && |all| <= PAGE_LIMIT
    && if a[0].page.next.None? then n == 1 else SmoothPages(f, all, n - 1, a[2..])
  }

  /** The page is read within the limits and names a new one, if any. */
  predicate FinePage(f: Format, pages: seq<Page>, page: Page) {
    && TotalBytes(pages + [page]) <= RESULT_BYTES
    && AllRows(f, pages + [page]).Some? && |AllRows(f, pages + [page]).value| <= RESULT_ROWS
    && NewToken(pages, page.next)
  }

  /** All the pages, and the answers behind them. */
  function PagesRead(pages: seq<Page>, n: nat, a: seq<Answer>): (seq<Page>, seq<Answer>)
    decreases n
  {
    if n == 0 || |a| < 2 then (pages, a) else PagesRead(pages + [a[0].page], n - 1, a[2..])
  }

  predicate Expected(statement: Statement, rows: seq<Row>) {
    match statement.expected
    case Some(expected) => multiset(rows) == expected
    case None => rows != []
  }

  /** The execution passes its checks, and the pages of a statement that is not DDL hold what is
      expected. */
  predicate SmoothCheck(plan: Plan, f: Format, k: nat, remote: Remote, n: nat, a: seq<Answer>)
    requires k < |plan.statements|
  {
    && remote.scanned.Some? && ScanAllowed(plan, plan.statements[k].kind, remote, remote.scanned.value)
    && if plan.statements[k].kind == Ddl then 1 <= Leading(a)
       else SmoothRows(plan, f, k, n, a)
  }

  predicate SmoothRows(plan: Plan, f: Format, k: nat, n: nat, a: seq<Answer>)
    requires k < |plan.statements|
  {
    && SmoothPages(f, [], n, a)
    && var (pages, rest) := PagesRead([], n, a);
    && AllRows(f, pages).Some? && Expected(plan.statements[k], AllRows(f, pages).value)
    && 2 <= Leading(rest)
  }

  function CheckEnd(plan: Plan, k: nat, n: nat, a: seq<Answer>): seq<Answer>
    requires k < |plan.statements|
  {
    if plan.statements[k].kind == Ddl then if a == [] then [] else a[1..]
    else
      var rest := PagesRead([], n, a).1;
      if |rest| < 2 then [] else rest[2..]
  }

  /** How often a statement is found active, and how many pages its result has. */
  datatype Pace = Pace(waits: nat, pages: nat)

  /** The answers a new statement meets: a clock, a write, a counted attempt, the start with a new
      execution id, a write, both clocks, the polls and the checks. */
  predicate SmoothTurn(plan: Plan, decode: Decoder, k: nat, pace: Pace, a: seq<Answer>)
    requires k < |plan.statements|
  {
    && 7 <= Leading(a) && QueryIdOk(a[3].text) && a[0].clock <= a[6].clock
    && SmoothPoll(plan, k, a[3].text, a[0].clock, a[5].monotonic, a[6].clock - a[0].clock, pace.waits, a[7..])
    && SmoothEnd(plan, decode, k, pace, a[7..])
  }

  /** Behind the polls, the execution they found passes its checks. */
  predicate SmoothEnd(plan: Plan, decode: Decoder, k: nat, pace: Pace, a: seq<Answer>)
    requires k < |plan.statements|
  {
    var (remote, rest) := PollEnd(pace.waits, a);
    remote.Some? && SmoothCheck(plan, FormatOf(plan, k, decode), k, remote.value, pace.pages, rest)
  }

  function TurnEnd(plan: Plan, k: nat, pace: Pace, a: seq<Answer>): seq<Answer>
    requires k < |plan.statements|
  {
    if |a| < 7 then [] else CheckEnd(plan, k, pace.pages, PollEnd(pace.waits, a[7..]).1)
  }

  /** The statements from `k` on, one after the other, with ids that are not used yet. */
  predicate SmoothRun(plan: Plan, decode: Decoder, k: nat, paces: seq<Pace>, a: seq<Answer>, used: set<string>)
    requires k <= |plan.statements|
    decreases |plan.statements| - k
  {
    k == |plan.statements| ||
    (&& paces != [] && SmoothTurn(plan, decode, k, paces[0], a) && a[3].text !in used
     && SmoothRun(plan, decode, k + 1, paces[1..], TurnEnd(plan, k, paces[0], a), used + {a[3].text}))
  }

  function FormatOf(plan: Plan, k: nat, decode: Decoder): Format
    requires k < |plan.statements|
  {
    Format(plan.statements[k].kind, plan.statements[k].jsonColumns, decode)
  }
}
