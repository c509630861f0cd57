/** `execute_plan` of `athena_run.py`: one process and the journal file, the service and
    the clocks around it. Any call may be the last one the process makes (Crashed); the
    journal file and the service's executions outlive it. */
module AthenaRun {
  import opened Common
  import opened Journal
  import opened JournalRuns
  import opened ResultPages
  import opened ExecutionIdentity
  import opened AthenaAnswers

  datatype Code =
    | AuthorizationRequired | JournalRefused | PriorExecutionFailed | StartOutcomeUnknown | ServiceError
    | QueryIdInvalid | ClockInvalid | IdentityDiffers | ContextInvalid | SqlUnsupported | StateInvalid | QueryFailed
    | TimingInvalid | QueryTimeout
    | ExecutionRefused | ResultBytesLimit | ResultColumnsInvalid | ResultRowsInvalid | ResultRowLimit
    | ResultTokenInvalid | ResultPageLimit | ResultsDiffer | DescribeEmpty
    | CatalogIncomplete | CatalogNameConflict | OwnershipInconclusive

  datatype Outcome<+T> = Done(value: T) | Raised(code: Code) | Crashed {
    predicate IsFailure() { !Done? }

    function PropagateFailure<U>(): Outcome<U>
      requires IsFailure()
    {
      match this
      case Raised(code) => Raised(code)
      case _ => Crashed
    }

    function Extract(): T
      requires Done?
    {
      value
    }
  }

  class Process {
    const plan: Plan
    const reference: string
    const decode: Decoder
    var answers: seq<Answer>
    var disk: Option<Journal>
    var service: map<Token, string>
    var memory: Journal
    ghost const start: World
    ghost var history: seq<Event>

    constructor (plan: Plan, reference: string, decode: Decoder, disk: Option<Journal>, service: map<Token, string>,
                 answers: seq<Answer>)
      ensures this.plan == plan && this.reference == reference && this.decode == decode
      ensures this.disk == disk && this.service == service && this.answers == answers
      ensures start == World(disk, service) && history == [] && Consistent()
    {
      this.plan, this.reference, this.decode, this.answers := plan, reference, decode, answers;
      this.disk, this.service, this.memory := disk, service, Empty(plan, reference);
      this.start, this.history := World(disk, service), [];
    }

    ghost function Now(): World reads this { World(disk, service) }

    /** All that was done so far follows the protocol and led here. */
    ghost predicate Consistent()
      reads this
    {
      Lawful(plan, reference, start, history) && After(start, history) == Now()
    }

    /** The journal in memory may be written for statement `k` at any moment. */
    ghost predicate Ready(k: nat)
      reads this
    {
      && Consistent()
      && k in memory.executions && k < |memory.executions| && k < |plan.statements| && Core(plan, k, memory.executions[k])
      && Almost(plan, reference, memory, k)
      && JournalStep(plan, reference, Now(), k, memory)
    }

    /** Statement `k` is reserved on disk too. */
    ghost predicate Working(k: nat)
      reads this
    {
      Ready(k) && disk.Some? && k in disk.value.executions
    }

    /** The execution of statement `k` is known, and known to the journal on disk. */
    ghost predicate Polling(k: nat)
      reads this
    {
      && Working(k)
      && memory.executions[k].queryId.Some?
      && HasId(Now(), k, memory.executions[k].queryId.value)
    }

    ghost function Refused(): nat reads this { Refusals(plan, reference, history) }

    ghost function Polled(): nat reads this { Polls(history) }

    ghost function Regressed(): nat reads this { Regressions(history) }

    /** Nothing that counts was written. */
    twostate predicate Quiet()
      reads this
    {
      Refused() == old(Refused()) && Polled() == old(Polled())
    }

    /** And no journal was written at all. */
    twostate predicate Unwritten()
      reads this
    {
      Quiet() && Regressed() == old(Regressed())
    }

    /** A journal was refused exactly when the only statement was written out of SUCCEEDED. */
    twostate predicate Even()
      reads this
    {
      Refused() == old(Refused()) <==> Regressed() == old(Regressed())
    }

    /** Pages under way stay with their statement, and such a journal was refused exactly when
        the statement was written out of SUCCEEDED. */
    twostate predicate Paging()
      reads this
    {
      old(Paged(plan, memory)) ==> Paged(plan, memory) && Even()
    }

    twostate predicate Forward()
      reads this
    {
      && old(history) <= history
      && old(Refused()) <= Refused() && old(Polled()) <= Polled() && old(Regressed()) <= Regressed()
      && |answers| <= |old(answers)|
    }

    /** Exactly the next `n` calls were made. */
    twostate predicate Made(n: nat)
      reads this
    {
      && n <= Leading(old(answers)) && answers == old(answers)[n..]
      && Leading(answers) == Leading(old(answers)) - n
    }

    /** The next `n` calls are answered, and the answer to the one at `i` is about the statement. */
    ghost predicate Tells(k: nat, n: nat, i: nat)
      reads this
    {
      && k in memory.executions && k < |plan.statements| && memory.executions[k].queryId.Some?
      && i < n <= Leading(answers) && Said(plan, k, memory.executions[k].queryId.value, answers[i].remote)
    }

    /** One poll to come is answered with a known state. */
    ghost predicate TellsState(k: nat)
      reads this
    {
      Tells(k, 4, 1) && Local(answers[1].remote.state).Some?
    }

    /** The next two calls give clocks inside the deadline. */
    ghost predicate MayWait(k: nat, anchor: real, age: real)
      reads this
    {
      && k in memory.executions && 2 <= Leading(answers)
      && Waits(plan.timeout, memory.executions[k].submittedAt, anchor, age, answers[0].clock, answers[1].monotonic)
    }

    /** The polls to come find the statement active `waits` times, and then succeeded in time. */
    ghost predicate WillSucceed(k: nat, anchor: real, age: real, waits: nat)
      reads this
    {
      && k in memory.executions && k < |plan.statements| && memory.executions[k].queryId.Some?
      && SmoothPoll(plan, k, memory.executions[k].queryId.value, memory.executions[k].submittedAt, anchor, age, waits, answers)
    }

    /** The execution id is new, and the service has seen nothing of the statement. */
    ghost predicate Fresh(k: nat, id: string)
      reads this
    {
      && k < |plan.statements| && RequestOf(plan, k).token !in service && QueryIdOk(id)
      && NewId(memory, k, Some(id))
    }

    /** The next `n` calls are answered, and the one at `i` gives the statement a new execution. */
    ghost predicate Starts(k: nat, n: nat, i: nat)
      reads this
    {
      n <= Leading(answers) && i < n && Fresh(k, answers[i].text)
    }

    /** The execution succeeded, is about the statement, and was in time. */
    ghost predicate Succeeds(k: nat, remote: Remote)
      reads this
    {
      && k in memory.executions && k < |plan.statements|
      && var e := memory.executions[k];
      && e.state == Succeeded && e.execution == Some(remote) && Some(remote.queryId) == e.queryId
      && remote.state == RemoteSucceeded && IsAbout(plan, k, Some(plan.statements[k].kind), remote)
      && Timely(e, remote, plan.timeout)
    }

    /** The last state recorded is not a success in time, and the statement is timed out on disk; when it
        was still active it was looked at again. */
    ghost predicate Overdue(k: nat)
      reads this
    {
      && k in memory.executions && memory.executions[k].execution.Some?
      && var (e, remote) := (memory.executions[k], memory.executions[k].execution.value);
      && (remote.state == RemoteSucceeded ==>
            && !InTime(remote, e.submittedAt, plan.timeout)
            && disk.Some? && k in disk.value.executions && disk.value.executions[k].state == TimedOut)
      && (remote.state in {RemoteQueued, RemoteRunning} ==> LookedAgain(k))
    }

    /** The service said that the execution failed or was cancelled, and that is on disk. */
    ghost predicate Ended(k: nat)
      reads this
    {
      && disk.Some? && k in disk.value.executions
      && var e := disk.value.executions[k];
      && e.execution.Some?
      && ((e.execution.value.state == RemoteFailed && e.state == Failed)
          || (e.execution.value.state == RemoteCancelled && e.state == Cancelled))
    }

    /** Behind event `n` the query was told to stop. */
    ghost predicate StopSent(k: nat, n: nat)
      reads this
    {
      k in memory.executions && exists i :: n <= i < |history| && history[i].Stopped? && history[i].k == k
                                            && Some(history[i].id) == memory.executions[k].queryId
    }

    /** It is timed out on disk, with what a later look at the stopped query showed. */
    ghost predicate LookedAgain(k: nat)
      reads this
    {
      disk.Some? && k in disk.value.executions
      && disk.value.executions[k].state == TimedOut && disk.value.executions[k].cancellation.Some?
    }

    /** An answer, or this one, is on disk as what was last observed. */
    ghost predicate Preserved(k: nat, remote: Option<Remote>)
      reads this
    {
      && disk == Some(memory) && k in memory.executions && memory.executions[k].observation.Some?
      && (remote.Some? ==> memory.executions[k].observation.value.0 == remote.value)
    }

    /** The journal on disk has the statement failed, cancelled or timed out. */
    ghost predicate Shut(k: nat)
      reads this
    {
      disk.Some? && k in disk.value.executions && Closed(disk.value.executions[k].state)
    }

    /** From a calm entry: a statement that is the last one never has a journal refused;
        an earlier one has exactly when a poll of it is recorded. */
    twostate predicate Tally(k: nat)
      reads this
    {
      var last := |old(memory).executions| <= k + 1;
      && (last || Polled() == old(Polled()) ==> Refused() == old(Refused()))
      && (!last && old(Polled()) < Polled() ==> old(Refused()) < Refused())
    }

    // ------------------------------------------------------------ the surroundings

    method NextAnswer() returns (a: Answer)
      modifies this`answers
      ensures |answers| <= |old(answers)|
      ensures a.life != DiesBefore ==> |answers| < |old(answers)|
      ensures a.clock == old(NextClock())
      ensures 1 <= Leading(old(answers)) ==> a == old(answers)[0] && a.life == Survives && a.fate == Answers && Made(1)
    {
      if answers == [] {
        var remote := Remote("", None, None, None, NotReturned, RemoteOther, None, None, None, [], false, false, None, None);
        return Answer(DiesBefore, Refuses, "", 0.0, 0.0, remote, Page(0, [], [], None));
      }
      a := answers[0];
      answers := answers[1..];
    }

    ghost method Append(e: Event)
      requires Lawful(plan, reference, start, history) && Permitted(plan, reference, After(start, history), e)
      modifies this`history
      ensures history == old(history) + [e]
      ensures Lawful(plan, reference, start, history)
      ensures After(start, history) == Next(old(After(start, history)), e)
      ensures Polled() == old(Polled()) + if e.Wrote? && e.polled then 1 else 0
      ensures Refused() == old(Refused()) + if e.Wrote? && !Accepts(plan, reference, e.journal) then 1 else 0
      ensures Regressed() == old(Regressed()) + if Regresses(e) then 1 else 0
    {
      hide Permitted, Accepts, Regresses;
      history := history + [e];
      assert history[..|history| - 1] == old(history);
    }

    /** `write_json`: the whole journal, or nothing. */
    method Write(k: nat, polled: bool) returns (alive: bool)
      requires Ready(k) && (polled ==> memory.executions[k].state != Verified)
      modifies this`answers, this`disk, this`history
      ensures Ready(k) && Forward()
      ensures disk == old(disk) || disk == Some(memory)
      ensures alive ==> disk == Some(memory) && |answers| < |old(answers)|
      ensures alive || old(Working(k)) ==> Working(k)
      ensures old(Polling(k)) ==> Polling(k)
      ensures !polled ==> Polled() == old(Polled())
      ensures polled && alive ==> old(Polled()) < Polled()
      ensures polled && Polled() == old(Polled()) ==> Refused() == old(Refused())
      ensures Fits(plan, memory, k) ==> Refused() == old(Refused())
      ensures !Fits(plan, memory, k) && alive ==> old(Refused()) < Refused()
      ensures !Fits(plan, memory, k) && old(Polled()) < Polled() ==> old(Refused()) < Refused()
      ensures Paged(plan, memory) ==> Even()
      ensures k != 0 || memory.executions[k].state in {Succeeded, Verified} ==> Regressed() == old(Regressed())
      ensures 1 <= Leading(old(answers)) ==> alive && Made(1)
    {
      hide Leading, Almost, Accepts, Fits, EntryStep, AllVerified, Lawful, Paged, Regressions;
      FitsExactly(plan, reference, memory, k);
      RegressesExactly(plan, memory, k, polled);
      var a := NextAnswer();
      if a.life == DiesBefore {
        return false;
      }
      Append(Wrote(k, memory, polled));
      disk := Some(memory);
      alive := a.life == Survives;
      WrittenAgain(plan, reference, Now(), k, memory);
    }

    /** A change of the entry in memory that may be written. */
    method Amend(k: nat, e: Entry)
      requires Working(k) && Core(plan, k, e) && EntryStep(memory.executions[k], e, service)
      requires e.queryId == memory.executions[k].queryId || NewId(memory, k, e.queryId)
      modifies this`memory
      ensures Working(k) && memory == With(old(memory), k, e)
      ensures |memory.executions| == |old(memory).executions|
      ensures old(Polling(k)) ==> Polling(k)
      ensures old(Paged(plan, memory)) && SamePages(old(memory).executions[k], e) ==> Paged(plan, memory)
    {
      hide Almost, JournalStep, Core, NewId, SamePages, Lawful, After, Paged;
      memory := With(memory, k, e);
      AmendKeeps(plan, reference, Now(), k, old(memory), e);
      PagedStays(plan, old(memory), memory, k);
    }

    method StartExecution(k: nat) returns (r: Outcome<string>)
      requires Ready(k) && disk == Some(memory) && MayStart(plan, Now(), k, memory.executions[k].request.token)
      modifies this`answers, this`service, this`history
      ensures Ready(k) && Forward() && Quiet()
      ensures r.Raised? ==> r.code in {StartOutcomeUnknown, ServiceError}
      ensures forall token | token in old(service) :: token in service && service[token] == old(service)[token]
      ensures var token := memory.executions[k].request.token;
              r.Done? ==> token in service && service[token] == r.value
      ensures 1 <= Leading(old(answers)) ==> r.Done? && Made(1)
      ensures var token := memory.executions[k].request.token;
        1 <= Leading(old(answers)) && token !in old(service) ==>
          r.value == old(answers)[0].text && service == old(service)[token := r.value]
    {
      hide Leading, Almost, JournalStep, MayStart, Lawful, Refusals, Polls, Regressions, Paged, IsAbout, Core, After,
        Permitted;
      var a := NextAnswer();
      if a.life == DiesBefore {
        return Crashed;
      }
      var token := memory.executions[k].request.token;
      var landed := a.fate != Refuses;
      assert Permitted(plan, reference, Now(), Started(k, token, landed, a.text)) by {
        StartPermitted(plan, reference, Now(), k, token, landed, a.text);
      }
      Append(Started(k, token, landed, a.text));
      service := if landed && token !in service then service[token := a.text] else service;
      WrittenAgain(plan, reference, Now(), k, memory);
      if a.life == DiesAfter {
        return Crashed;
      }
      match a.fate
      case Answers => r := Done(service[token]);
      case LosesAnswer => r := Raised(StartOutcomeUnknown);
      case Refuses => r := Raised(ServiceError);
    }

    method GetExecution(k: nat) returns (r: Outcome<Remote>)
      requires Polling(k)
      modifies this`answers, this`history
      ensures r.Raised? ==> r.code == ServiceError
      ensures Polling(k) && Forward() && Unwritten()
      ensures 1 <= Leading(old(answers)) ==> r == Done(old(answers)[0].remote) && Made(1)
    {
      hide Leading, Almost, EntryStep, AllVerified, Lawful;
      var a := NextAnswer();
      if a.life == DiesBefore {
        return Crashed;
      }
      Append(Read(k, memory.executions[k].queryId.value));
      r := if a.life == DiesAfter then Crashed
           else if a.fate == Answers then Done(a.remote) else Raised(ServiceError);
    }

    method GetResults(k: nat) returns (r: Outcome<Page>)
      requires Polling(k)
      modifies this`answers, this`history
      ensures r.Raised? ==> r.code == ServiceError
      ensures Polling(k) && Forward() && Unwritten()
      ensures 1 <= Leading(old(answers)) ==> r == Done(old(answers)[0].page) && Made(1)
    {
      hide Leading, Almost, EntryStep, AllVerified, Lawful;
      var a := NextAnswer();
      if a.life == DiesBefore {
        return Crashed;
      }
      Append(Read(k, memory.executions[k].queryId.value));
      r := if a.life == DiesAfter then Crashed
           else if a.fate == Answers then Done(a.page) else Raised(ServiceError);
    }

    method StopExecution(k: nat) returns (r: Outcome<()>)
      requires Polling(k) && disk.value.executions[k].state == TimedOut
      modifies this`answers, this`history
      ensures r.Raised? ==> r.code == ServiceError
      ensures r.Done? ==> StopSent(k, old(|history|))
      ensures Polling(k) && Forward() && Unwritten()
    {
      hide Almost, JournalStep, EntryStep, AllVerified, Lawful, Core, Refusals, Polls, Regressions, Paged, IsAbout, After;
      var a := NextAnswer();
      if a.life == DiesBefore {
        return Crashed;
      }
      Append(Stopped(k, memory.executions[k].queryId.value));
      assert history[old(|history|)] == Stopped(k, memory.executions[k].queryId.value);
      r := if a.life == DiesAfter then Crashed else if a.fate == Answers then Done(()) else Raised(ServiceError);
    }

    method Sleep(k: nat, clock: real, age: real, elapsedHere: real, pause: real)
      requires Polling(k) && MaySleep(plan, Now(), Slept(k, clock, age, elapsedHere, pause))
      modifies this`history
      ensures Polling(k) && Forward() && Unwritten()
      ensures answers == old(answers)
    {
      Append(Slept(k, clock, age, elapsedHere, pause));
    }

    /** What the next call of the wall clock gives. */
    ghost function NextClock(): Instant
      reads this
    {
      if answers == [] then 0.0 else answers[0].clock
    }

    method Clock() returns (now: Instant)
      modifies this`answers
      ensures |answers| <= |old(answers)| && now == old(NextClock())
      ensures 1 <= Leading(old(answers)) ==> now == old(answers)[0].clock && Made(1)
    {
      var a := NextAnswer();
      now := a.clock;
    }

    method Monotonic() returns (now: real)
      modifies this`answers
      ensures |answers| <= |old(answers)|
      ensures 1 <= Leading(old(answers)) ==> now == old(answers)[0].monotonic && Made(1)
    {
      var a := NextAnswer();
      now := a.monotonic;
    }

    // ------------------------------------------------------------- one execution

    /** An update that leaves request, execution id, state and start attempts alone. */
    method Annotate(k: nat, e: Entry)
      requires Working(k) && Annotates(memory.executions[k], e)
      requires e.state != Verified || Core(plan, k, e)
      modifies this`memory
      ensures Working(k) && memory == With(old(memory), k, e)
      ensures |memory.executions| == |old(memory).executions|
      ensures old(Polling(k)) ==> Polling(k)
      ensures old(Paged(plan, memory)) && SamePages(old(memory).executions[k], e) ==> Paged(plan, memory)
    {
      hide Paged, Almost, JournalStep, Lawful;
      Amend(k, e);
    }

    method CountRead(k: nat)
      requires Polling(k)
      modifies this`memory
      ensures Polling(k) && |memory.executions| == |old(memory).executions|
      ensures OnlyAt(old(memory), memory, k)
      ensures var e, e' := old(memory).executions[k], memory.executions[k];
              e' == e.(gets := e'.gets) && e'.gets == Some(1 + if e.gets.Some? then e.gets.value else 0)
      ensures old(Paged(plan, memory)) ==> Paged(plan, memory)
    {
      hide Paged, Almost, JournalStep, Lawful;
      Annotate(k, memory.executions[k].(gets := Some(Attempts(memory.executions[k].gets) + 1)));
    }

    method SetState(k: nat, state: State)
      requires Polling(k) && !Closed(memory.executions[k].state)
      requires state != Prepared && state != Verified
      modifies this`memory
      ensures Polling(k) && |memory.executions| == |old(memory).executions|
      ensures memory == With(old(memory), k, old(memory).executions[k].(state := state))
      ensures old(Paged(plan, memory)) ==> Paged(plan, memory)
    {
      hide Paged, Almost, JournalStep, Lawful;
      Amend(k, memory.executions[k].(state := state));
    }

    /** `preserve`. */
    method Preserve(k: nat, remote: Remote, rule: Rule) returns (alive: bool)
      requires Polling(k)
      modifies this`answers, this`disk, this`history, this`memory
      ensures Polling(k) && Forward() && Polled() == old(Polled())
      ensures Observed(old(memory), memory, k)
      ensures old(Fits(plan, memory, k)) ==> Refused() == old(Refused())
      ensures Paging()
      ensures alive ==> disk == Some(memory)
      ensures alive ==> Preserved(k, Some(remote)) && Preserved(k, None)
      ensures 1 <= Leading(old(answers)) ==> alive && Made(1)
    {
      hide Almost, JournalStep, Lawful, Refusals, Polls, Regressions, Paged, IsAbout;
      Amend(k, memory.executions[k].(observation := Some((remote, rule))));
      alive := Write(k, false);
    }

    /** `_execution`: the answer is kept in the journal before its identity is judged, and kept
        again with the exception that was made for its SQL. */
    method ReadExecution(k: nat, kind: Option<Kind>) returns (r: Outcome<Remote>)
      requires Polling(k)
      modifies this`answers, this`disk, this`history, this`memory
      ensures r.Raised? ==> r.code in {ServiceError, IdentityDiffers, ContextInvalid, SqlUnsupported}
      ensures r.Done? ==> Preserved(k, Some(r.value))
      ensures r.Raised? && r.code != ServiceError ==> Preserved(k, None)
      ensures Polling(k) && Forward() && Polled() == old(Polled())
      ensures Observed(old(memory), memory, k)
      ensures old(Fits(plan, memory, k)) ==> Refused() == old(Refused())
      ensures Paging()
      ensures r.Done? ==> Some(r.value.queryId) == memory.executions[k].queryId && disk == Some(memory)
      ensures r.Done? ==> IsAbout(plan, k, kind, r.value)
      ensures old(Tells(k, 2, 0)) && kind == Some(plan.statements[k].kind) && 0 < |old(answers)| ==>
        r == Done(old(answers)[0].remote) && Made(2)
    {
      hide Framed, HasId, Said, Leading, Almost, JournalStep, Lawful, Refusals, Polls, Regressions, Paged, Core,
        Judge, ParametersSame, Preserved;
      RequestKept(plan, k, memory.executions[k]);
      r := GetExecution(k);
      if !r.Done? {
        return;
      }
      var remote := r.value;
      var alive := Preserve(k, remote, ExactTokens);
      if !alive {
        return Crashed;
      }
      var request := memory.executions[k].request.request;
      var judged := Judge(kind, memory.executions[k].queryId.value, request, remote);
      JudgedId(kind, memory.executions[k].queryId.value, request, remote);
      SaidIs(plan, k, memory.executions[k].queryId.value, remote);
      if judged.Err? {
        return Raised(IdentityCode(judged.error));
      }
      if judged.value != ExactTokens {
        alive := Preserve(k, remote, judged.value);
        if !alive {
          return Crashed;
        }
      }
      r := if ParametersSame(request, remote) then Done(remote) else Raised(IdentityDiffers);
    }

    /** The statement is timed out, on disk. */
    method MarkTimedOut(k: nat) returns (alive: bool)
      requires Polling(k) && !Closed(memory.executions[k].state)
      modifies this`answers, this`disk, this`history, this`memory
      ensures Polling(k) && Forward() && Polled() == old(Polled())
      ensures alive ==> disk == Some(memory)
      ensures Bookkept(old(memory), memory, k) && memory.executions[k].state == TimedOut
      ensures memory.executions[k].execution == old(memory).executions[k].execution
      ensures k == |memory.executions| - 1 && memory.executions[k].capture.None? ==> Refused() == old(Refused())
      ensures Paging()
    {
      hide Leading, Almost, JournalStep, Lawful, Refusals, Polls, Regressions, Paged, IsAbout, Core, EntryStep, Sane, Framed;
      SetState(k, TimedOut);
      alive := Write(k, false);
    }

    /** The deadline has passed: record it, then stop the query. */
    method Expire(k: nat) returns (r: Outcome<()>)
      requires Polling(k) && !Closed(memory.executions[k].state)
      modifies this`answers, this`disk, this`history, this`memory
      ensures Polling(k) && Forward() && Polled() == old(Polled())
      ensures !r.Crashed? ==> Shut(k)
      ensures r.Raised? ==> r.code == ServiceError
      ensures r.Done? ==> StopSent(k, old(|history|))
      ensures Bookkept(old(memory), memory, k) && memory.executions[k].state == TimedOut
      ensures k == |memory.executions| - 1 && memory.executions[k].capture.None? ==> Refused() == old(Refused())
      ensures Paging()
      ensures memory.executions[k].submittedAt == old(memory).executions[k].submittedAt
      ensures memory.executions[k].execution == old(memory).executions[k].execution
    {
      hide Almost, JournalStep, Lawful, Refusals, Polls, Regressions, Paged, IsAbout, Core, EntryStep, Sane, Framed;
      var alive := MarkTimedOut(k);
      if !alive {
        return Crashed;
      }
      r := StopExecution(k);
    }

    /** And look once more at what was stopped. */
    method TimeOut(k: nat) returns (r: Outcome<Remote>)
      requires Polling(k) && !Closed(memory.executions[k].state)
      modifies this`answers, this`disk, this`history, this`memory
      ensures Polling(k) && Forward() && Polled() == old(Polled()) && !r.Done? && r != Raised(QueryFailed)
      ensures r.Raised? ==> Shut(k) && Closed(memory.executions[k].state)
      ensures r == Raised(QueryTimeout) ==> StopSent(k, old(|history|)) && LookedAgain(k)
      ensures Bookkept(old(memory), memory, k)
      ensures k == |memory.executions| - 1 && memory.executions[k].capture.None? ==> Refused() == old(Refused())
      ensures Paging()
      ensures memory.executions[k].submittedAt == old(memory).executions[k].submittedAt
      ensures memory.executions[k].execution == old(memory).executions[k].execution
    {
      hide Almost, JournalStep, Lawful, Refusals, Polls, Regressions, Paged, IsAbout, Core, EntryStep, Sane, Framed,
        Fits, SamePages;
      var stopped := Expire(k);
      if !stopped.Done? {
        return if stopped.Raised? then Raised(stopped.code) else Crashed;
      }
      ghost var shut := history;
      r := LookAgain(k);
      StaysShut(plan, reference, start, shut, history, k);
    }

    /** The read that shows what became of a query that was stopped. */
    method LookAgain(k: nat) returns (r: Outcome<Remote>)
      requires Polling(k) && memory.executions[k].state == TimedOut
      modifies this`answers, this`disk, this`history, this`memory
      ensures Polling(k) && Forward() && Polled() == old(Polled()) && !r.Done? && r != Raised(QueryFailed)
      ensures Bookkept(old(memory), memory, k) && memory.executions[k].state == TimedOut
      ensures r == Raised(QueryTimeout) ==> LookedAgain(k)
      ensures k == |memory.executions| - 1 && memory.executions[k].capture.None? ==> Refused() == old(Refused())
      ensures Paging()
      ensures memory.executions[k].submittedAt == old(memory).executions[k].submittedAt
      ensures memory.executions[k].execution == old(memory).executions[k].execution
    {
      hide HasId, Almost, JournalStep, Lawful, Refusals, Polls, Regressions, Paged, IsAbout, Core, EntryStep;
      CountRead(k);
      r := ReadExecution(k, Some(plan.statements[k].kind));
      if !r.Done? {
        return;
      }
      Annotate(k, memory.executions[k].(cancellation := Some(r.value)));
      var alive := Write(k, false);
      r := if alive then Raised(QueryTimeout) else Crashed;
    }

    /** Record the state a poll returned. */
    method RecordPoll(k: nat, remote: Remote) returns (r: Outcome<()>)
      requires Polling(k) && !Closed(memory.executions[k].state)
      modifies this`answers, this`disk, this`history, this`memory
      ensures Polling(k) && Forward()
      ensures Bookkept(old(memory), memory, k)
      ensures r.Done? ==> |answers| < |old(answers)| && old(Polled()) < Polled() && Local(remote.state).Some?
      ensures r.Done? ==> var e := memory.executions[k]; e.state == Local(remote.state).value && e.execution == Some(remote)
      ensures memory.executions[k].gets == old(memory).executions[k].gets
      ensures r.Done? ==> disk == Some(memory)
      ensures r.Raised? ==> r.code == StateInvalid
      ensures r.Raised? ==> memory == old(memory) && Polled() == old(Polled())
      ensures Calm(old(memory), k) ==> Tally(k)
      ensures Paging()
      ensures 1 <= Leading(old(answers)) && Local(remote.state).Some? ==> r.Done? && Made(1)
    {
      hide Leading, Almost, JournalStep, Lawful, Refusals, Polls, Regressions, Paged, IsAbout, Core, EntryStep;
      var state := Local(remote.state);
      if state.None? {
        return Raised(StateInvalid);
      }
      SetState(k, state.value);
      Annotate(k, memory.executions[k].(execution := Some(remote)));
      var alive := Write(k, true);
      r := if alive then Done(()) else Crashed;
    }

    /** The end of a terminal poll: success within the deadline, or a failure for good. */
    method Conclude(k: nat, remote: Remote) returns (r: Outcome<Remote>)
      requires Polling(k) && memory.executions[k].execution == Some(remote)
      requires memory.executions[k].state in {Succeeded, Failed, Cancelled}
      requires disk.value.executions[k].state == memory.executions[k].state
      modifies this`answers, this`disk, this`history, this`memory
      ensures Polling(k) && Forward() && Polled() == old(Polled())
      ensures Bookkept(old(memory), memory, k)
      ensures k == |memory.executions| - 1 && memory.executions[k].capture.None? ==> Refused() == old(Refused())
      ensures Paging()
      ensures memory.executions[k].execution == old(memory).executions[k].execution
      ensures r == Raised(QueryFailed) || r == Raised(QueryTimeout) ==> Shut(k) && Closed(memory.executions[k].state)
      ensures r == Raised(QueryFailed) <==> old(memory).executions[k].state in {Failed, Cancelled}
      ensures r == Raised(QueryFailed) ==> memory == old(memory) && disk == old(disk)
      ensures r.Done? ==> r.value == remote && memory.executions[k].execution == Some(remote)
      ensures r.Done? ==> memory.executions[k].state == old(memory).executions[k].state == Succeeded
      ensures r.Done? ==> Timely(memory.executions[k], remote, plan.timeout)
      ensures memory.executions[k].submittedAt == old(memory).executions[k].submittedAt
      ensures old(memory).executions[k].state == Succeeded ==>
        var submitted := old(memory).executions[k].submittedAt;
        if !ConsistentTimes(remote, submitted, old(NextClock())) then r == Raised(TimingInvalid)
        else if InTime(remote, submitted, plan.timeout) then r == Done(remote)
        else r == Crashed || (r == Raised(QueryTimeout) && disk.value.executions[k].state == TimedOut)
      ensures 1 <= Leading(old(answers)) && r.Done? ==> Made(1)
    {
      hide Fits, Leading, Timely, ConsistentTimes, InTime, TimesRecorded, TerminalTiming, Almost, JournalStep, Lawful,
        Refusals, Polls, Regressions, Paged, IsAbout, Core, EntryStep;
      if memory.executions[k].state != Succeeded {
        return Raised(QueryFailed);
      }
      var now := Clock();
      var timing := TerminalTiming(remote, memory.executions[k].submittedAt, now, plan.timeout);
      TimingExactly(remote, memory.executions[k].submittedAt, now, plan.timeout);
      if timing.None? {
        return Raised(TimingInvalid);
      }
      Annotate(k, memory.executions[k].(timing := timing));
      TimingSays(memory.executions[k], remote, now, plan.timeout);
      if !timing.value.withinDeadline {
        var alive := MarkTimedOut(k);
        return if alive then Raised(QueryTimeout) else Crashed;
      }
      TimelyNow(memory.executions[k], remote, plan.timeout, now);
      r := Done(remote);
    }

    /** The active branch of the poll loop: wait inside the deadline (None), or end the loop. */
    method WaitOrEnd(k: nat, anchor: real, age: real) returns (end: Option<Outcome<Remote>>)
      requires Polling(k) && !Closed(memory.executions[k].state)
      modifies this`answers, this`disk, this`history, this`memory
      ensures Polling(k) && Forward() && Polled() == old(Polled())
      ensures Bookkept(old(memory), memory, k)
      ensures k == |memory.executions| - 1 && memory.executions[k].capture.None? ==> Refused() == old(Refused())
      ensures Paging()
      ensures memory.executions[k].submittedAt == old(memory).executions[k].submittedAt
      ensures memory.executions[k].execution == old(memory).executions[k].execution
      ensures end.None? ==> memory == old(memory)
      ensures end.Some? ==> !end.value.Done? && end.value != Raised(QueryFailed)
      ensures end == Some(Raised(QueryTimeout)) ==> Shut(k) && Closed(memory.executions[k].state)
      ensures end == Some(Raised(QueryTimeout)) ==> StopSent(k, old(|history|)) && LookedAgain(k)
      ensures old(MayWait(k, anchor, age)) ==> end.None? && Made(2)
    {
      hide SmoothPoll, Leading, Almost, Lawful, Refusals, Polls, Regressions, Paged, IsAbout, Core;
      var clock := Clock();
      var monotonic := Monotonic();
      var submitted := memory.executions[k].submittedAt;
      var elapsed := Larger(clock - submitted, age + monotonic - anchor);
      if elapsed < 0.0 {
        return Some(Raised(ClockInvalid));
      }
      if plan.timeout as real <= elapsed {
        var r := TimeOut(k);
        return Some(r);
      }
      var pause := Smaller(2.0, Larger(0.0, plan.timeout as real - elapsed));
      assert disk.value.executions[k].submittedAt == submitted;
      Sleep(k, clock, age, monotonic - anchor, pause);
      end := None;
    }

    /** A read that is counted on disk before it is made. */
    method CountedRead(k: nat, kind: Option<Kind>) returns (r: Outcome<Remote>)
      requires Polling(k)
      modifies this`answers, this`disk, this`history, this`memory
      ensures Polling(k) && Forward() && Polled() == old(Polled())
      ensures Bookkept(old(memory), memory, k)
      ensures memory.executions[k].state == old(memory).executions[k].state
      ensures old(Fits(plan, memory, k)) ==> Fits(plan, memory, k) && Refused() == old(Refused())
      ensures Paging()
      ensures r.Done? ==> |answers| < |old(answers)| && disk == Some(memory)
      ensures r.Done? ==> Counted(old(memory), memory, k)
      ensures r.Done? ==> Some(r.value.queryId) == memory.executions[k].queryId && IsAbout(plan, k, kind, r.value)
      ensures r.Raised? ==> r.code in {ServiceError, IdentityDiffers, ContextInvalid, SqlUnsupported}
      ensures old(Tells(k, 3, 1)) && kind == Some(plan.statements[k].kind) && 1 < |old(answers)| ==>
        r == Done(old(answers)[1].remote) && Made(3)
    {
      hide Said, Leading, Almost, JournalStep, Lawful, Refusals, Polls, Regressions, Paged, IsAbout, Core, EntryStep;
      CountRead(k);
      var alive := Write(k, false);
      if !alive {
        return Crashed;
      }
      r := ReadExecution(k, kind);
    }

    /** One poll: counted, read, its identity judged and its state recorded. */
    method PollOnce(k: nat) returns (r: Outcome<Remote>)
      requires Polling(k) && !Closed(memory.executions[k].state)
      modifies this`answers, this`disk, this`history, this`memory
      ensures Polling(k) && Forward()
      ensures Bookkept(old(memory), memory, k)
      ensures r.Done? ==> |answers| < |old(answers)| && old(Polled()) < Polled() && disk == Some(memory)
      ensures r.Raised? ==> r.code !in {QueryFailed, QueryTimeout}
      ensures r.Done? ==> var e := memory.executions[k]; Local(r.value.state) == Some(e.state) && e.execution == Some(r.value)
      ensures r.Done? ==> Mirrors(memory.executions[k].state, r.value.state)
      ensures r.Done? ==> Counted(old(memory), memory, k)
      ensures r.Done? ==> Some(r.value.queryId) == memory.executions[k].queryId
      ensures r.Done? ==> IsAbout(plan, k, Some(plan.statements[k].kind), r.value)
      ensures r.Raised? ==> memory.executions[k].state == old(memory).executions[k].state
      ensures Calm(old(memory), k) ==> Tally(k)
      ensures Paging()
      ensures old(TellsState(k)) && 1 < |old(answers)| ==> r == Done(old(answers)[1].remote) && Made(4)
    {
      hide Said, Leading, Almost, JournalStep, Lawful, Refusals, Polls, Regressions, Paged, IsAbout, Core, EntryStep;
      r := CountedRead(k, Some(plan.statements[k].kind));
      if !r.Done? {
        return;
      }
      var recorded := RecordPoll(k, r.value);
      if !recorded.Done? {
        return if recorded.Raised? then Raised(recorded.code) else Crashed;
      }
    }

    /** What a recorded poll leads to: the end of the loop, or None after a pause. */
    method Continue(k: nat, remote: Remote, anchor: real, age: real) returns (end: Option<Outcome<Remote>>)
      requires Polling(k) && memory.executions[k].execution == Some(remote) && disk == Some(memory)
      requires Local(remote.state) == Some(memory.executions[k].state)
      modifies this`answers, this`disk, this`history, this`memory
      ensures Polling(k) && Forward() && Polled() == old(Polled())
      ensures Bookkept(old(memory), memory, k)
      ensures k == |memory.executions| - 1 && memory.executions[k].capture.None? ==> Refused() == old(Refused())
      ensures Paging()
      ensures memory.executions[k].execution == old(memory).executions[k].execution
      ensures end.None? ==> memory == old(memory) && !Closed(memory.executions[k].state)
      ensures end == Some(Raised(QueryFailed)) || end == Some(Raised(QueryTimeout)) ==>
        Shut(k) && Closed(memory.executions[k].state)
      ensures end == Some(Raised(QueryFailed)) <==> remote.state in {RemoteFailed, RemoteCancelled}
      ensures end == Some(Raised(QueryFailed)) ==> Ended(k)
      ensures end.Some? && end.value.Done? ==>
        && end.value == Done(remote) && remote.state == RemoteSucceeded
        && memory.executions[k].state == Succeeded && memory.executions[k].execution == Some(remote)
        && Timely(memory.executions[k], remote, plan.timeout)
      ensures memory.executions[k].submittedAt == old(memory).executions[k].submittedAt
      ensures remote.state == RemoteSucceeded ==>
        var submitted := old(memory).executions[k].submittedAt;
        if !ConsistentTimes(remote, submitted, old(NextClock())) then end == Some(Raised(TimingInvalid))
        else if InTime(remote, submitted, plan.timeout) then end == Some(Done(remote))
        else end == Some(Crashed) || (end == Some(Raised(QueryTimeout)) && disk.value.executions[k].state == TimedOut)
      ensures 1 <= Leading(old(answers)) && end.Some? && end.value.Done? ==> Made(1)
      ensures remote.state in {RemoteQueued, RemoteRunning} && end == Some(Raised(QueryTimeout)) ==>
        StopSent(k, old(|history|)) && LookedAgain(k)
      ensures remote.state in {RemoteQueued, RemoteRunning} && old(MayWait(k, anchor, age)) ==> end.None? && Made(2)
    {
      hide Leading, Waits, Timely, ConsistentTimes, InTime, Almost, JournalStep, Lawful, Refusals, Polls, Regressions,
        Paged, IsAbout, Core, EntryStep, MaySleep, Fits, SamePages;
      if memory.executions[k].state in {Succeeded, Failed, Cancelled} {
        var r := Conclude(k, remote);
        end := Some(r);
      } else {
        end := WaitOrEnd(k, anchor, age);
      }
    }

    /** A poll and what it leads to: the end of the loop, or None after a pause. */
    method PollAndWait(k: nat, anchor: real, age: real, ghost left: nat) returns (end: Option<Outcome<Remote>>)
      requires Polling(k) && !Closed(memory.executions[k].state)
      modifies this`answers, this`disk, this`history, this`memory
      ensures Polling(k) && Forward() && Bookkept(old(memory), memory, k) && Paging()
      ensures end.None? ==> !Closed(memory.executions[k].state) && |answers| < |old(answers)| && old(Polled()) < Polled()
      ensures end.Some? && end.value.Done? ==> Succeeds(k, end.value.value) && old(Polled()) < Polled()
      ensures end == Some(Raised(QueryFailed)) || end == Some(Raised(QueryTimeout)) ==>
        Shut(k) && Closed(memory.executions[k].state)
      ensures end == Some(Raised(QueryFailed)) ==> Ended(k)
      ensures end == Some(Raised(QueryTimeout)) ==> Overdue(k)
      ensures Calm(old(memory), k) ==> Tally(k)
      ensures Calm(old(memory), k) && end.Some? && end.value.Raised? ==> Calm(memory, k) || old(Polled()) < Polled()
      ensures old(WillSucceed(k, anchor, age, left)) ==>
        if left == 0 then end.Some? && end.value.Done? && old(PollEnd(left, answers)) == (Some(end.value.value), answers)
        else end.None? && WillSucceed(k, anchor, age, left - 1) && PollEnd(left - 1, answers) == old(PollEnd(left, answers))
    {
      hide Said, Leading, SmoothPoll, PollEnd, Waits, Timely, ConsistentTimes, InTime, Almost, JournalStep, Lawful, Refusals,
        Polls, Regressions, Paged, IsAbout, Core, EntryStep, MaySleep;
      ghost var coming := answers;
      PollAhead(plan, k, memory.executions[k], anchor, age, left, coming);
      var polled := PollOnce(k);
      if !polled.Done? {
        return Some(polled);
      }
      end := Continue(k, polled.value, anchor, age);
    }

    /** The poll loop: until a terminal state, the deadline or a failure. */
    method Await(k: nat, anchor: real, age: real, ghost waits: nat) returns (r: Outcome<Remote>)
      requires Polling(k) && !Closed(memory.executions[k].state)
      modifies this`answers, this`disk, this`history, this`memory
      ensures Polling(k) && Forward()
      ensures Bookkept(old(memory), memory, k)
      ensures r.Done? ==> Succeeds(k, r.value) && old(Polled()) < Polled()
      ensures r == Raised(QueryFailed) || r == Raised(QueryTimeout) ==> Shut(k) && Closed(memory.executions[k].state)
      ensures r == Raised(QueryFailed) ==> Ended(k)
      ensures r == Raised(QueryTimeout) ==> Overdue(k)
      ensures Calm(old(memory), k) ==> Tally(k)
      ensures Paging()
      ensures Calm(old(memory), k) && r.Raised? ==> Calm(memory, k) || old(Polled()) < Polled()
      ensures old(WillSucceed(k, anchor, age, waits)) ==> r.Done? && old(PollEnd(waits, answers)) == (Some(r.value), answers)
    {
      hide WillSucceed, Succeeds, Overdue, PollEnd, Timely, Almost, JournalStep, Lawful, Refusals, Polls, Regressions, Paged,
        IsAbout, Core, EntryStep;
      ghost var left := waits;
      ghost var smooth, end0 := WillSucceed(k, anchor, age, waits), PollEnd(waits, answers);
      while true
        invariant smooth ==> WillSucceed(k, anchor, age, left) && PollEnd(left, answers) == end0
        invariant Polling(k) && Forward() && !Closed(memory.executions[k].state)
        invariant Bookkept(old(memory), memory, k)
        invariant Calm(old(memory), k) ==> Tally(k) && (Calm(memory, k) || old(Polled()) < Polled())
        invariant Paging()
        decreases |answers|
      {
        var end := PollAndWait(k, anchor, age, left);
        if end.Some? {
          return end.value;
        }
        left := if left == 0 then 0 else left - 1;
      }
    }

    // ----------------------------------------------------------------- the start

    method CountAttempt(k: nat) returns (alive: bool)
      requires Working(k) && memory.executions[k].state == Prepared
      requires k == |memory.executions| - 1 && memory.executions[k].capture.None?
      modifies this`answers, this`disk, this`history, this`memory
      ensures Working(k) && Forward() && Quiet() && |memory.executions| == |old(memory).executions|
      ensures memory == With(old(memory), k, Attempted(old(memory).executions[k]))
      ensures alive ==> disk == Some(memory)
      ensures 1 <= Leading(old(answers)) ==> alive && Made(1)
    {
      hide Leading, Almost, JournalStep, Lawful, Refusals, Polls, Regressions, Paged, IsAbout;
      Amend(k, Attempted(memory.executions[k]));
      alive := Write(k, false);
    }

    /** Record the execution the service answered with. */
    method Adopt(k: nat, id: string) returns (alive: bool)
      requires Working(k) && memory.executions[k].state == Prepared && memory.executions[k].starts.Some?
      requires k == |memory.executions| - 1 && memory.executions[k].capture.None?
      requires QueryIdOk(id) && NewId(memory, k, Some(id))
      requires var token := memory.executions[k].request.token; token in service && service[token] == id
      modifies this`answers, this`disk, this`history, this`memory
      ensures Working(k) && Forward() && Quiet() && |memory.executions| == |old(memory).executions|
      ensures memory == With(old(memory), k, old(memory).executions[k].(queryId := Some(id), state := Submitted))
      ensures alive ==> disk == Some(memory)
      ensures 1 <= Leading(old(answers)) ==> alive && Made(1)
    {
      hide Leading, Almost, JournalStep, Lawful, Refusals, Polls, Regressions, Paged, IsAbout;
      Amend(k, memory.executions[k].(queryId := Some(id), state := Submitted));
      alive := Write(k, false);
    }

    /** Count the attempt, write, then send the one frozen request with its token. */
    method StartStatement(k: nat) returns (r: Outcome<()>)
      requires Working(k) && disk == Some(memory) && memory.executions[k].state == Prepared
      requires k == |memory.executions| - 1 && memory.executions[k].capture.None?
      requires forall i | i in memory.executions && i != k :: memory.executions[i].state == Verified
      modifies this`answers, this`disk, this`history, this`memory, this`service
      ensures Working(k) && Forward() && Quiet()
      ensures OnlyAt(old(memory), memory, k)
      ensures r.Raised? ==> r.code in {StartOutcomeUnknown, ServiceError, QueryIdInvalid}
      ensures !r.Crashed? ==> disk == Some(memory) && Tried(old(memory), memory, k)
      ensures r.Done? ==> Polling(k) && disk == Some(memory)
      ensures r.Done? ==> memory.executions[k].state == Submitted && memory.executions[k].capture.None?
      ensures old(Starts(k, 3, 1)) && 1 < |old(answers)| ==>
        && r.Done? && Made(3) && memory.executions[k].queryId == Some(old(answers)[1].text)
        && service == old(service)[RequestOf(plan, k).token := old(answers)[1].text]
      ensures memory.executions[k].submittedAt == old(memory).executions[k].submittedAt
    {
      hide Leading, Almost, JournalStep, Lawful, Refusals, Polls, Regressions, Paged, IsAbout, Core;
      RequestKept(plan, k, memory.executions[k]);
      var alive := CountAttempt(k);
      if !alive {
        return Crashed;
      }
      var started := StartExecution(k);
      if !started.Done? {
        return if started.Raised? then Raised(started.code) else Crashed;
      }
      if !QueryIdOk(started.value) || !NewId(memory, k, Some(started.value)) {
        return Raised(QueryIdInvalid);
      }
      alive := Adopt(k, started.value);
      r := if alive then Done(()) else Crashed;
    }

    // --------------------------------------------------------------- the results

    /** `keep_page`: a page is in the journal before its shape is judged. */
    method KeepPage(k: nat, pages: seq<Page>) returns (alive: bool)
      requires Polling(k) && memory.executions[k].state == Succeeded
      requires plan.statements[k].kind != Ddl && |pages| <= PAGE_LIMIT
      modifies this`answers, this`disk, this`history, this`memory
      ensures Polling(k) && Forward() && Polled() == old(Polled())
      ensures k == |memory.executions| - 1 ==> Refused() == old(Refused())
      ensures Regressed() == old(Regressed())
      ensures memory == With(old(memory), k, Capturing(old(memory).executions[k], pages))
      ensures alive ==> disk == Some(memory)
      ensures 1 <= Leading(old(answers)) ==> alive && Made(1)
    {
      hide Leading, Almost, JournalStep, Lawful, Refusals, Polls, Regressions, Paged, IsAbout, Core, EntryStep;
      Annotate(k, Capturing(memory.executions[k], pages));
      alive := Write(k, false);
    }

    /** One page of `query_results`: its bytes, then kept, then checked and decoded. */
    method NextPage(k: nat, f: Format, pages: seq<Page>, rows: seq<Row>) returns (r: Outcome<(Page, seq<Row>)>)
      requires Polling(k) && memory.executions[k].state == Succeeded && plan.statements[k].kind != Ddl
      requires |pages| < PAGE_LIMIT && Gathering(f, pages, rows) && TotalBytes(pages) <= RESULT_BYTES
      requires memory.executions[k] == Capturing(memory.executions[k], pages)
      modifies this`answers, this`disk, this`history, this`memory
      ensures Polling(k) && Forward() && Polled() == old(Polled())
      ensures k == |memory.executions| - 1 ==> Refused() == old(Refused())
      ensures Regressed() == old(Regressed())
      ensures r.Raised? ==> r.code !in {QueryFailed, QueryTimeout, ResultsDiffer, DescribeEmpty}
      ensures r.Raised? && r.code in PAGE_FAULTS ==> disk == Some(memory) && UnderWay(memory, k, |pages| + 1)
      ensures Captured(old(memory), memory, k)
      ensures r.Done? ==>
        && memory.executions[k] == Capturing(memory.executions[k], pages + [r.value.0])
        && TotalBytes(pages + [r.value.0]) <= RESULT_BYTES
        && if r.value.0.next.Some? then Gathering(f, pages + [r.value.0], r.value.1)
           else Complete(f, Results(r.value.0.columns, r.value.1, pages + [r.value.0]))
      ensures 2 <= Leading(old(answers)) && FinePage(f, pages, old(answers)[0].page) ==>
        r.Done? && r.value.0 == old(answers)[0].page && Made(2)
    {
      hide FinePage, TotalBytes, NewToken, Leading, Almost, JournalStep, Lawful, Refusals, Polls, Regressions, Paged,
        IsAbout, Core, EntryStep, Gathering, Complete, CaptureOwned, AllRows;
      var got := GetResults(k);
      if !got.Done? {
        return if got.Raised? then Raised(got.code) else Crashed;
      }
      var page := got.value;
      FineIs(f, pages, page);
      OnePageHeavier(pages, page);
      if RESULT_BYTES < TotalBytes(pages) + page.bytes {
        return Raised(ResultBytesLimit);
      }
      var alive := KeepPage(k, pages + [page]);
      if !alive {
        return Crashed;
      }
      var judged := JudgePage(f, pages, rows, page);
      r := if judged.Err? then Raised(FaultCode(judged.error)) else Done((page, judged.value));
    }

    /** `query_results`: at most sixteen pages. */
    method ReadResults(k: nat, ghost count: nat) returns (r: Outcome<Results>)
      requires Polling(k) && memory.executions[k].state == Succeeded && plan.statements[k].kind != Ddl
      modifies this`answers, this`disk, this`history, this`memory
      ensures Polling(k) && Forward() && Polled() == old(Polled())
      ensures k == |memory.executions| - 1 ==> Refused() == old(Refused())
      ensures Regressed() == old(Regressed())
      ensures r.Raised? ==> r.code !in {QueryFailed, QueryTimeout, ResultsDiffer, DescribeEmpty}
      ensures r.Raised? && r.code in PAGE_FAULTS ==>
        disk == Some(memory) && exists n :: 0 < n <= PAGE_LIMIT && UnderWay(memory, k, n)
      ensures Captured(old(memory), memory, k)
      ensures r.Done? ==> Complete(FormatOf(plan, k, decode), r.value)
      ensures SmoothPages(FormatOf(plan, k, decode), [], count, old(answers)) ==>
        r.Done? && (r.value.pages, answers) == PagesRead([], count, old(answers))
    {
      hide Leading, SmoothPages, PagesRead, FinePage, AllRows, Almost, JournalStep, Lawful, Refusals, Polls,
        Regressions, Paged, IsAbout, Core, EntryStep, Gathering, Complete, CaptureOwned, TotalBytes;
      var f := FormatOf(plan, k, decode);
      var pages: seq<Page>, rows: seq<Row> := [], [];
      Annotate(k, Capturing(memory.executions[k], []));
      NothingGathered(f);
      ghost var left := count;
      ghost var smooth, end0 := SmoothPages(f, [], count, answers), PagesRead([], count, answers);
      for n := 0 to PAGE_LIMIT
        invariant smooth ==> SmoothPages(f, pages, left, answers) && PagesRead(pages, left, answers) == end0
        invariant Polling(k) && Forward() && Polled() == old(Polled())
        invariant k == |memory.executions| - 1 ==> Refused() == old(Refused())
        invariant Regressed() == old(Regressed())
        invariant |pages| == n && memory.executions[k] == Capturing(memory.executions[k], pages)
        invariant Captured(old(memory), memory, k)
        invariant Gathering(f, pages, rows) && TotalBytes(pages) <= RESULT_BYTES
      {
        PagesAhead(f, pages, left, answers);
        var next := NextPage(k, f, pages, rows);
        if !next.Done? {
          return if next.Raised? then Raised(next.code) else Crashed;
        }
        var (page, all) := next.value;
        pages, rows := pages + [page], all;
        if page.next.None? {
          return Done(Results(page.columns, rows, pages));
        }
        left := if left == 0 then 0 else left - 1;
      }
      PagesAhead(f, pages, left, answers);
      r := Raised(ResultPageLimit);
    }

    /** Read the result, replace the pages under way by it, and compare. */
    method CompareResults(k: nat, ghost count: nat) returns (r: Outcome<()>)
      requires Polling(k) && memory.executions[k].state == Succeeded && plan.statements[k].kind != Ddl
      modifies this`answers, this`disk, this`history, this`memory
      ensures Polling(k) && Forward() && Polled() == old(Polled())
      ensures k == |memory.executions| - 1 ==> Refused() == old(Refused())
      ensures Regressed() == old(Regressed())
      ensures r.Raised? ==> r.code !in {QueryFailed, QueryTimeout}
      ensures OnlyAt(old(memory), memory, k) && CaptureFine(plan, k, memory.executions[k])
      ensures var e, e' := old(memory).executions[k], memory.executions[k];
              e' == e.(capture := e'.capture, results := e'.results)
      ensures r.Done? ==> memory.executions[k].capture.None? && ResultsMatch(plan, k, decode, memory.executions[k].results)
      ensures r == Raised(ResultsDiffer) || r == Raised(DescribeEmpty) ==>
        disk == Some(memory) && memory.executions[k].results.Some? && !ResultsMatch(plan, k, decode, memory.executions[k].results)
      ensures SmoothRows(plan, FormatOf(plan, k, decode), k, count, old(answers)) ==>
        r.Done? && 1 <= |PagesRead([], count, old(answers)).1| && answers == PagesRead([], count, old(answers)).1[1..]
        && 1 <= Leading(answers)
    {
      hide Leading, SmoothPages, PagesRead, FinePage, AllRows, Almost, JournalStep, Lawful, Refusals, Polls,
        Regressions, Paged, IsAbout, Core, EntryStep, Complete;
      var read := ReadResults(k, count);
      if !read.Done? {
        return if read.Raised? then Raised(read.code) else Crashed;
      }
      CompleteRows(FormatOf(plan, k, decode), read.value);
      Annotate(k, memory.executions[k].(capture := None, results := Some(read.value)));
      var alive := Write(k, false);
      if !alive {
        return Crashed;
      }
      var expected := plan.statements[k].expected;
      r := if expected.Some? && multiset(read.value.rows) != expected.value then Raised(ResultsDiffer)
           else if expected.None? && read.value.rows == [] then Raised(DescribeEmpty)
           else Done(());
    }

    method MarkVerified(k: nat) returns (alive: bool)
      requires Polling(k) && memory.executions[k].state == Succeeded && memory.executions[k].capture.None?
      requires var e := memory.executions[k];
               && e.scanned.Some? && 0 <= e.scanned.value
               && e.execution.Some? && Some(e.execution.value.queryId) == e.queryId
               && e.execution.value.state == RemoteSucceeded
      modifies this`answers, this`disk, this`history, this`memory
      ensures Polling(k) && Forward() && Polled() == old(Polled()) && Refused() == old(Refused())
      ensures Regressed() == old(Regressed())
      ensures |memory.executions| == |old(memory).executions|
      ensures memory == With(old(memory), k, old(memory).executions[k].(state := Verified))
      ensures alive ==> disk == Some(memory)
      ensures 1 <= Leading(old(answers)) ==> alive && Made(1)
    {
      hide Leading, Almost, JournalStep, Lawful, Refusals, Polls, Regressions, Paged, IsAbout;
      Amend(k, memory.executions[k].(state := Verified));
      alive := Write(k, false);
    }

    /** After success: scanned bytes and settings, then the results, then VERIFIED. */
    method Verify(k: nat, remote: Remote, ghost count: nat) returns (r: Outcome<()>)
      requires Polling(k) && memory.executions[k].state == Succeeded
      requires memory.executions[k].execution == Some(remote) && remote.state == RemoteSucceeded
      requires Some(remote.queryId) == memory.executions[k].queryId
      requires Timely(memory.executions[k], remote, plan.timeout)
      requires IsAbout(plan, k, Some(plan.statements[k].kind), remote)
      requires CaptureOwned(plan, k, memory.executions[k])
      modifies this`answers, this`disk, this`history, this`memory
      ensures Polling(k) && Forward() && Polled() == old(Polled())
      ensures k == |memory.executions| - 1 ==> Refused() == old(Refused())
      ensures Regressed() == old(Regressed())
      ensures r.Raised? ==> r.code !in {QueryFailed, QueryTimeout}
      ensures OnlyAt(old(memory), memory, k) && CaptureFine(plan, k, memory.executions[k])
      ensures memory.executions[k].state in {Succeeded, Verified}
      ensures r.Done? ==> disk == Some(memory) && Proven(plan, k, decode, memory.executions[k])
      ensures SmoothCheck(plan, FormatOf(plan, k, decode), k, remote, count, old(answers)) ==>
        r.Done? && answers == CheckEnd(plan, k, count, old(answers))
      ensures memory.executions[k].queryId == old(memory).executions[k].queryId
    {
      hide Leading, SmoothRows, PagesRead, ScanAllowed, Scanned, Timely, Almost, JournalStep, Lawful, Refusals, Polls,
        Regressions, Paged, IsAbout, Core, EntryStep, ResultsMatch;
      ghost var before := memory.executions[k];
      var kind := plan.statements[k].kind;
      var scanned := Scanned(plan, kind, remote);
      ScannedExactly(plan, kind, remote);
      if scanned.None? {
        return Raised(ExecutionRefused);
      }
      ScanFits(plan, kind, remote);
      Annotate(k, memory.executions[k].(scanned := scanned));
      if kind != Ddl {
        r := CompareResults(k, count);
        if !r.Done? {
          return;
        }
      }
      var alive := MarkVerified(k);
      TimelyKept(before, memory.executions[k], remote, plan.timeout);
      r := if alive then Done(()) else Crashed;
    }

    /** The guarded part of the statement loop: whatever fails, the journal is written once more. */
    method AwaitAndVerify(k: nat, anchor: real, age: real, ghost pace: Pace) returns (r: Outcome<()>)
      requires Polling(k) && !Closed(memory.executions[k].state)
      requires CaptureOwned(plan, k, memory.executions[k])
      modifies this`answers, this`disk, this`history, this`memory
      ensures Polling(k) && Forward() && OnlyAt(old(memory), memory, k)
      ensures Calm(old(memory), k) ==> Tally(k)
      ensures old(Paged(plan, memory)) ==> Even()
      ensures r == Raised(QueryFailed) || r == Raised(QueryTimeout) ==> Shut(k)
      ensures r.Raised? ==> disk == Some(memory)
      ensures r.Done? ==> old(Polled()) < Polled()
      ensures r.Done? ==> disk == Some(memory) && Proven(plan, k, decode, memory.executions[k])
      ensures old(WillSucceed(k, anchor, age, pace.waits)) && SmoothEnd(plan, decode, k, pace, old(answers)) ==>
        r.Done? && answers == CheckEnd(plan, k, pace.pages, PollEnd(pace.waits, old(answers)).1)
      ensures memory.executions[k].queryId == old(memory).executions[k].queryId
    {
      hide Leading, SmoothCheck, CheckEnd, PollEnd, WillSucceed, Timely, InTime, Almost, JournalStep, Lawful,
        Refusals, Polls, Regressions, Paged, IsAbout, Core, EntryStep, Proven;
      PagedHasId(plan, memory);
      var awaited := Await(k, anchor, age, pace.waits);
      if awaited.Done? {
        r := Verify(k, awaited.value, pace.pages);
      } else {
        r := if awaited.Raised? then Raised(awaited.code) else Crashed;
      }
      if r.Raised? {
        var alive := Write(k, false);
        r := if alive then r else Crashed;
      }
    }

    /** A known execution, from both clocks to the end of its checks. */
    method Attend(k: nat, ghost pace: Pace) returns (r: Outcome<()>)
      requires Polling(k) && !Closed(memory.executions[k].state)
      requires CaptureOwned(plan, k, memory.executions[k])
      modifies this`answers, this`disk, this`history, this`memory
      ensures Polling(k) && Forward() && OnlyAt(old(memory), memory, k)
      ensures Calm(old(memory), k) ==> Tally(k)
      ensures old(Paged(plan, memory)) ==> Even()
      ensures r == Raised(QueryFailed) || r == Raised(QueryTimeout) ==> Shut(k)
      ensures r.Done? ==> old(Polled()) < Polled()
      ensures r.Done? ==> disk == Some(memory) && Proven(plan, k, decode, memory.executions[k])
      ensures memory.executions[k].queryId == old(memory).executions[k].queryId
      ensures SmoothAttend(plan, decode, k, pace, old(memory).executions[k], old(answers)) ==>
        r.Done? && answers == CheckEnd(plan, k, pace.pages, PollEnd(pace.waits, old(answers)[2..]).1)
    {
      hide Leading, SmoothPoll, SmoothEnd, CheckEnd, PollEnd, Lawful, Refusals, Polls, Regressions, Paged, IsAbout, Core,
        EntryStep, Almost, Proven, CaptureOwned, JournalStep, Calm;
      var anchor := Monotonic();
      var now := Clock();
      var age := now - memory.executions[k].submittedAt;
      if age < 0.0 {
        return Raised(ClockInvalid);
      }
      r := AwaitAndVerify(k, anchor, age, pace);
    }

    // -------------------------------------------------------------- whole runs

    /** It is the turn of statement `k`: the journal is accepted, as on disk, and everything
        before `k` is verified. */
    ghost predicate Turn(k: nat)
      reads this
    {
      && Consistent() && Accepts(plan, reference, memory)
      && (disk == Some(memory) || (disk.None? && memory == Empty(plan, reference)))
      && k <= |memory.executions|
      && forall i | i in memory.executions && i < k :: memory.executions[i].state == Verified
    }

    /** Reserve the statement unless it is there, and write. */
    method Reserve(k: nat) returns (alive: bool)
      requires Turn(k) && k < STATEMENTS
      modifies this`answers, this`disk, this`history, this`memory
      ensures Consistent() && Forward() && Quiet()
      ensures k != 0 || Paged(plan, memory) ==> Regressed() == old(Regressed())
      ensures |memory.executions| == if k in old(memory).executions then |old(memory).executions| else k + 1
      ensures alive ==> Working(k) && disk == Some(memory) && memory == With(old(memory), k, memory.executions[k])
      ensures alive ==> CaptureFine(plan, k, memory.executions[k])
      ensures k in old(memory).executions ==> memory == old(memory)
      ensures alive && k !in old(memory).executions ==>
        memory.executions[k].state == Prepared && memory.executions[k].capture.None?
      ensures alive ==> k == |memory.executions| - 1 || memory.executions[k].state == Verified
      ensures alive ==> forall i | i in memory.executions && i < k :: memory.executions[i].state == Verified
      ensures k !in old(memory).executions && 2 <= Leading(old(answers)) ==>
        alive && Made(2) && memory == With(old(memory), k, Reserved(plan, k, old(answers)[0].clock))
    {
      hide Leading, Lawful, Refusals, Polls, Regressions, Paged, IsAbout, Core, EntryStep, Almost, Accepts,
        AllVerified, JournalStep;
      if k in memory.executions {
        TurnTaken(plan, reference, Now(), memory, k);
      } else {
        var now := Clock();
        ReserveReady(plan, reference, Now(), memory, k, now);
        memory := With(memory, k, Reserved(plan, k, now));
      }
      alive := Write(k, false);
    }

    /** A reserved statement up to a known execution: refused when it is closed, started when it has none. */
    method SubmitReserved(k: nat) returns (r: Outcome<()>)
      requires Working(k) && disk == Some(memory) && CaptureFine(plan, k, memory.executions[k])
      requires k == |memory.executions| - 1 || memory.executions[k].state == Verified
      modifies this`answers, this`disk, this`history, this`memory, this`service
      ensures Working(k) && Forward() && Quiet() && OnlyAt(old(memory), memory, k)
      ensures k != 0 || old(memory).executions[k].queryId.Some? ==> Regressed() == old(Regressed())
      ensures old(memory).executions[k].queryId.Some? ==> memory == old(memory)
      ensures r == Raised(PriorExecutionFailed) ==> Shut(k)
      ensures r.Raised? ==> r.code !in {QueryFailed, QueryTimeout}
      ensures r.Done? ==> Polling(k) && !Closed(memory.executions[k].state) && CaptureOwned(plan, k, memory.executions[k])
      ensures r.Done? ==> memory.executions[k].state == old(memory).executions[k].state || memory.executions[k].state == Submitted
      ensures r.Done? ==> disk == Some(memory) && memory.executions[k].capture == old(memory).executions[k].capture
      ensures r.Done? && memory.executions[k].state == Submitted ==> k == |memory.executions| - 1 || memory == old(memory)
      ensures old(memory).executions[k].state == Prepared && old(Starts(k, 3, 1)) && 1 < |old(answers)| ==>
        && r.Done? && Made(3) && memory.executions[k].queryId == Some(old(answers)[1].text)
        && service == old(service)[RequestOf(plan, k).token := old(answers)[1].text]
      ensures memory.executions[k].submittedAt == old(memory).executions[k].submittedAt
    {
      hide Leading, Lawful, Refusals, Polls, Regressions, Paged, IsAbout, Core, EntryStep, Almost, Accepts, AllVerified,
        JournalStep, NewId, Fresh;
      ghost var reserved := history;
      if Closed(memory.executions[k].state) {
        return Raised(PriorExecutionFailed);
      }
      KnownExecution(plan, k, memory.executions[k]);
      if memory.executions[k].queryId.None? {
        PreparedAlone(plan, reference, memory, k);
        r := StartStatement(k);
        NoFirstAgain(plan, reference, start, reserved, history, k);
      } else {
        r := Done(());
      }
    }

    /** Up to a known execution: reserved, not failed before, started if it has none. */
    method Submit(k: nat) returns (r: Outcome<()>)
      requires Turn(k) && k < STATEMENTS
      modifies this`answers, this`disk, this`history, this`memory, this`service
      ensures Consistent() && Forward() && Quiet()
      ensures k != 0 || old(Paged(plan, memory)) ==> Regressed() == old(Regressed())
      ensures r.Done? && k == 0 && old(Paged(plan, memory)) ==> Paged(plan, memory)
      ensures r.Done? ==> disk.Some? && Almost(plan, reference, disk.value, k)
      ensures r == Raised(PriorExecutionFailed) ==> Shut(k)
      ensures r.Raised? ==> r.code !in {QueryFailed, QueryTimeout}
      ensures r.Done? ==> Polling(k) && !Closed(memory.executions[k].state)
      ensures r.Done? ==> CaptureOwned(plan, k, memory.executions[k])
      ensures r.Done? ==> k == |memory.executions| - 1 || memory.executions[k].state == Verified
      ensures r.Done? ==> (|old(memory).executions| <= k + 1 <==> |memory.executions| == k + 1)
      ensures r.Done? && CalmTurn(old(memory), k) ==> Calm(memory, k)
      ensures r.Done? ==> memory == With(old(memory), k, memory.executions[k])
      ensures r.Done? ==> forall i | i in memory.executions && i < k :: memory.executions[i].state == Verified
      ensures k !in old(memory).executions && old(Starts(k, 5, 3)) && 3 < |old(answers)| ==>
        && r.Done? && Made(5) && memory.executions[k].queryId == Some(old(answers)[3].text)
        && memory.executions[k].submittedAt == old(answers)[0].clock
        && service == old(service)[RequestOf(plan, k).token := old(answers)[3].text]
    {
      hide Framed, QueryIdOk, MayStart, Leading, Lawful, Refusals, Polls, Regressions, Paged, IsAbout, Core,
        EntryStep, Almost, Accepts, AllVerified, JournalStep;
      PagedHasId(plan, memory);
      var alive := Reserve(k);
      if !alive {
        return Crashed;
      }
      r := SubmitReserved(k);
    }

    /** One statement of `execute_plan`. */
    method RunStatement(k: nat, ghost pace: Pace) returns (r: Outcome<()>)
      requires Turn(k) && k < STATEMENTS
      modifies this`answers, this`disk, this`history, this`memory, this`service
      ensures Consistent() && Forward()
      ensures CalmTurn(old(memory), k) ==> Tally(k)
      ensures old(Paged(plan, memory)) && k == 0 ==> Even()
      ensures k != 0 ==> Regressed() == old(Regressed())
      ensures r == Raised(QueryFailed) || r == Raised(QueryTimeout) ==> Shut(k)
      ensures r.Done? ==> Turn(k + 1) && disk == Some(memory) && old(Polled()) < Polled()
      ensures r.Done? ==> memory == With(old(memory), k, memory.executions[k])
      ensures r.Done? ==> Proven(plan, k, decode, memory.executions[k])
      ensures k !in old(memory).executions && SmoothTurn(plan, decode, k, pace, old(answers)) && old(Starts(k, 7, 3)) ==>
        && r.Done? && answers == TurnEnd(plan, k, pace, old(answers))
        && memory.executions[k].queryId == Some(old(answers)[3].text)
        && service == old(service)[RequestOf(plan, k).token := old(answers)[3].text]
    {
      hide SmoothAttend, SmoothTurn, TurnEnd, QueryIdOk, NewId, Leading, SmoothPoll, SmoothEnd, CheckEnd, PollEnd,
        Lawful, Refusals, Polls, Regressions, Paged, IsAbout, Core, EntryStep, Almost, Accepts, AllVerified,
        JournalStep, Proven, CaptureOwned, With, OnlyAt;
      r := Submit(k);
      if !r.Done? {
        return;
      }
      ghost var submitted, known := memory, history;
      if 7 <= |old(answers)| {
        TurnSplits(plan, decode, k, pace, old(answers), memory.executions[k]);
      }
      r := Attend(k, pace);
      NoFirstAgain(plan, reference, start, known, history, k);
      if r.Done? {
        TurnOver(plan, reference, memory, k, decode);
        OnlyThere(old(memory), submitted, memory, k);
      }
    }

    ghost function Tolls(): Toll
      reads this
    {
      Toll(Refused(), Polled(), Regressed())
    }

    /** One statement, and whether everything is still on track behind it. */
    method TakeTurn(k: nat, ghost paces: seq<Pace>, ghost used: set<string>) returns (r: Outcome<()>)
      requires Turn(k) && k < STATEMENTS == |plan.statements|
      modifies this`answers, this`disk, this`history, this`memory, this`service
      ensures Consistent() && Forward()
      ensures Charged(k, |old(memory).executions|, Restful(old(memory)), old(Tolls()), Tolls())
      ensures r == Raised(QueryFailed) || r == Raised(QueryTimeout) ==> Shut(k)
      ensures r.Done? ==> Turn(k + 1) && disk == Some(memory) && old(Polled()) < Polled()
      ensures k <= |old(memory).executions|
      ensures r.Done? ==> OneMore(old(memory), memory, k)
      ensures r.Done? ==> |memory.executions| == if k < |old(memory).executions| then |old(memory).executions| else k + 1
      ensures r.Done? && (Restful(old(memory)) || |memory.executions| == 1) ==> Restful(memory)
      ensures r.Done? ==> Proven(plan, k, decode, memory.executions[k])
      ensures OnTrack(plan, decode, k, paces, used, old(memory), old(service), old(answers)) ==>
        r.Done? && OnTrack(plan, decode, k + 1, Later(paces), used + IdAt(old(answers)), memory, service, answers)
    {
      hide OnTrack, SmoothTurn, TurnEnd, Leading, QueryIdOk, Accepts, Lawful, Refusals, Polls, Regressions, Paged, IsAbout,
        Proven, After, Restful, JournalStep, Almost, Core, CalmTurn;
      OnTrackNow(plan, decode, k, paces, used, memory, service, answers);
      ghost var before := memory;
      RestfulIsCalm(before, k);
      FirstTurn(plan, reference, before);
      EighteenStatements(plan, reference, before);
      r := RunStatement(k, if paces == [] then Pace(0, 0) else paces[0]);
      if r.Done? {
        EighteenStatements(plan, reference, memory);
        StillRestful(plan, before, memory, k, decode);
        ProvenAlone(plan, reference, memory, k, decode);
      }
      if r.Done? && paces != [] && 3 < |old(answers)| {
        OnTrackNext(plan, decode, k, paces, used, old(memory), old(service), old(answers), memory, service, answers);
      }
    }

    /** The journal this process would start from. */
    ghost function Found(): Journal
      reads this
    {
      if disk.Some? then disk.value else Empty(plan, reference)
    }

    lemma TurnIsAccepted(k: nat)
      requires Turn(k)
      ensures Consistent() && Accepts(plan, reference, memory)
    {
    }

    /** The statement loop of `execute_plan`. */
    method RunAll(ghost paces: seq<Pace>) returns (r: Outcome<()>)
      requires Turn(0)
      modifies this`answers, this`disk, this`history, this`memory, this`service
      ensures Consistent() && Forward()
      ensures Paid(|old(memory).executions|, Restful(old(memory)), old(Tolls()), Tolls())
      ensures r == Raised(QueryFailed) || r == Raised(QueryTimeout) ==> exists k: nat :: Shut(k)
      ensures r.Done? ==> Turn(STATEMENTS) && disk == Some(memory) && |memory.executions| == STATEMENTS
      ensures r.Done? ==> forall k :: 0 <= k < STATEMENTS ==>
        k in memory.executions && k < |plan.statements| && Proven(plan, k, decode, memory.executions[k])
      ensures OnTrack(plan, decode, 0, paces, {}, old(memory), old(service), old(answers)) ==> r.Done?
    {
      hide Turn, Consistent, OnTrack, Leading, Accepts, Lawful, Refusals, Polls, Regressions, Proven, After, Restful,
        CaptureFine, Core, Charged, Owed, Paid, Framed, DistinctIds, BudgetOk;
      TurnIsAccepted(0);
      EighteenStatements(plan, reference, memory);
      NothingUnderWay(memory);
      ghost var many, restful, toll := |memory.executions|, Restful(memory), Tolls();
      OwedAtFirst(many, restful, toll);
      ghost var left, used: set<string> := paces, {};
      ghost var smooth := OnTrack(plan, decode, 0, paces, {}, memory, service, answers);
      for k := 0 to STATEMENTS
        invariant smooth ==> OnTrack(plan, decode, k, left, used, memory, service, answers)
        invariant Turn(k) && Consistent() && Forward()
        invariant |memory.executions| == if k <= many then many else k
        invariant 0 < k ==> disk == Some(memory)
        invariant forall i :: 0 <= i < k ==> i in memory.executions && Proven(plan, i, decode, memory.executions[i])
        invariant Owed(k, many, restful, toll, Tolls())
        invariant if k == 0 then Restful(memory) == restful else many <= 1 ==> Restful(memory)
      {
        ghost var before, coming, sofar := memory, answers, Tolls();
        r := TakeTurn(k, left, used);
        OwedNext(k, many, restful, |before.executions|, Restful(before), toll, sofar, Tolls(), r.Done?);
        if !r.Done? {
          return;
        }
        left, used := Later(left), used + IdAt(coming);
      }
      OwedIsPaid(STATEMENTS, many, restful, toll, Tolls());
      r := Done(());
    }

    /** The plan is authorized, nothing has been done for it, and all answers to come are smooth. */
    ghost predicate Undisturbed(authorized: Plan, paces: seq<Pace>)
      reads this
    {
      && plan == authorized && IsReference(reference) && BudgetOk(plan)
      && Found() == Empty(plan, reference)
      && (forall k | 0 <= k < |plan.statements| :: RequestOf(plan, k).token !in service)
      && SmoothRun(plan, decode, 0, paces, answers, {})
    }

    /** `execute_plan`. A journal that is refused is left alone. A run from an accepted journal
        of two entries or more leaves a journal refused exactly when it records a poll; from one
        entry with pages under way, exactly when it writes that entry in a state other than
        SUCCEEDED and VERIFIED; otherwise never. Success is eighteen proven statements. */
    method ExecutePlan(authorized: Plan, ghost paces: seq<Pace>) returns (r: Outcome<Report>)
      requires Consistent()
      modifies this
      ensures Consistent() && Forward()
      ensures plan != authorized || !IsReference(reference) ==>
        r == Raised(AuthorizationRequired) && disk == old(disk) && service == old(service) && history == old(history)
      ensures old(!Accepts(plan, reference, Found())) ==>
        r.Raised? && disk == old(disk) && service == old(service) && history == old(history)
      ensures old(Accepts(plan, reference, Found())) ==>
        Paid(old(|Found().executions|), old(Restful(Found())), old(Tolls()), Tolls())
      ensures r == Raised(QueryFailed) || r == Raised(QueryTimeout) ==> exists k: nat :: Shut(k)
      ensures r.Done? ==> disk.Some? && Accepts(plan, reference, disk.value)
      ensures r.Done? ==> |disk.value.executions| == r.value.executions == STATEMENTS && r.value.remaining == 0
      ensures r.Done? ==> forall k :: 0 <= k < STATEMENTS ==> Proven(plan, k, decode, disk.value.executions[k])
      ensures old(Undisturbed(authorized, paces)) ==> r.Done?
    {
      hide SmoothRun, Accepts, Lawful, Refusals, Polls, Regressions, Paged, IsAbout, Proven, After, Restful;
      memory := if disk.Some? then disk.value else Empty(plan, reference);
      ReferenceExactly(reference);
      if plan != authorized || !ReferenceOk(reference) {
        return Raised(AuthorizationRequired);
      }
      EmptyAccepted(plan, reference);
      if !Accepts(plan, reference, memory) {
        return Raised(JournalRefused);
      }
      var all := RunAll(paces);
      if !all.Done? {
        return if all.Raised? then Raised(all.code) else Crashed;
      }
      r := Done(Report(|memory.executions|, STATEMENTS - |memory.executions|));
    }

    // ---------------------------------------------------------------- read-back

    /** The journal is accepted and on disk, and this process works on no statement. */
    ghost predicate Idle()
      reads this
    {
      Consistent() && Accepts(plan, reference, memory) && disk == Some(memory)
    }

    /** Resend the request of the one statement whose start has no known outcome. */
    method Retransmit() returns (r: Outcome<()>)
      requires Idle()
      modifies this`answers, this`disk, this`history, this`memory, this`service
      ensures Consistent() && Forward() && Quiet()
      ensures r.Done? ==> Idle() && forall k | k in memory.executions :: memory.executions[k].queryId.Some?
    {
      hide Accepts, Almost, Lawful, Refusals, Polls, Regressions, Paged, IsAbout, JournalStep, Core, After;
      EighteenStatements(plan, reference, memory);
      var n := |memory.executions|;
      for k := 0 to n
        invariant Idle() && Forward() && Quiet() && |memory.executions| == n
        invariant forall i :: 0 <= i < n ==> i in memory.executions
        invariant forall i | i in memory.executions :: i < n
        invariant forall i :: 0 <= i < k ==> memory.executions[i].queryId.Some?
      {
        if memory.executions[k].queryId.None? {
          TurnTaken(plan, reference, Now(), memory, k);
          PreparedAlone(plan, reference, memory, k);
          r := StartStatement(k);
          if !r.Done? {
            return;
          }
          FitsExactly(plan, reference, memory, k);
        }
      }
      r := Done(());
    }

    /** Look at the execution behind an object that exists in the catalog. */
    method Observe(k: nat) returns (r: Outcome<()>)
      requires Idle()
      modifies this`answers, this`disk, this`history, this`memory
      ensures Consistent() && Forward() && Quiet()
      ensures r.Done? ==> Idle() && k in memory.executions && memory.executions[k].queryId.Some?
    {
      hide Accepts, Almost, Lawful, Refusals, Polls, Regressions, Paged, IsAbout, JournalStep, Core, EntryStep, After;
      if k !in memory.executions || memory.executions[k].queryId.None? {
        return Raised(CatalogNameConflict);
      }
      TurnTaken(plan, reference, Now(), memory, k);
      var read := CountedRead(k, None);
      if !read.Done? {
        return if read.Raised? then Raised(read.code) else Crashed;
      }
      FitsExactly(plan, reference, memory, k);
      r := if read.value.state == RemoteSucceeded then Done(()) else Raised(OwnershipInconclusive);
    }

    /** `resource_readback`, but for the comparison of catalog definitions: it leaves no journal
        refused and records no state. */
    method Readback(requireComplete: bool) returns (r: Outcome<()>)
      requires Consistent()
      modifies this
      ensures Consistent() && Forward() && Quiet()
      ensures old(disk.Some? && !Accepts(plan, reference, disk.value)) ==>
        !r.Done? && disk == old(disk) && service == old(service) && history == old(history)
      ensures old(disk).None? ==> disk.None? && service == old(service) && history == old(history)
    {
      hide Accepts, Lawful, Refusals, Polls, Regressions, Paged, IsAbout, After;
      memory := Empty(plan, reference);
      var a := NextAnswer();
      if a.life != Survives || a.fate != Answers {
        return if a.life != Survives then Crashed else Raised(ServiceError);
      }
      if disk.Some? {
        memory := disk.value;
        if !Accepts(plan, reference, memory) {
          return Raised(JournalRefused);
        }
        r := Retransmit();
        if !r.Done? {
          return;
        }
      }
      for k := 0 to TABLES
        invariant Consistent() && Forward() && Quiet()
        invariant if old(disk).Some? then Idle() && Accepts(plan, reference, old(disk).value)
                  else disk.None? && memory == Empty(plan, reference) && service == old(service) && history == old(history)
      {
        var table := NextAnswer();
        if table.life != Survives || table.fate == Refuses {
          return if table.life != Survives then Crashed else Raised(ServiceError);
        }
        if table.fate == Answers {
          if memory.executions == map[] {
            return Raised(CatalogNameConflict);
          }
          r := Observe(k);
          if !r.Done? {
            return;
          }
        } else if requireComplete {
          return Raised(CatalogIncomplete);
        }
      }
      r := Done(());
    }

    /** Any number of processes one after the other, each ending anywhere. */
    method Rounds(acts: seq<Act>)
      requires history == [] && Sane(plan, reference, start) && Consistent()
      modifies this
      ensures Consistent() && Sane(plan, reference, Now())
      ensures |service| <= STATEMENTS
      ensures forall t, u | t in service && u in service && t.statement == u.statement :: t == u
    {
      hide Accepts, Sane, Lawful, Restful, Proven;
      for i := 0 to |acts|
        invariant Consistent()
      {
        match acts[i]
        case Executes(authorized) =>
          var ran := ExecutePlan(authorized, []);
        case ReadsBack(requireComplete) =>
          var back := Readback(requireComplete);
      }
      ServiceNeverAheadOfJournal(plan, reference, start, history);
      OneExecutionPerStatement(plan, reference, Now());
    }
  }

  // -------------------------------------------------------------- specifications

  function With(j: Journal, k: nat, e: Entry): Journal {
    j.(executions := j.executions[k := e])
  }

  predicate NewId(j: Journal, k: nat, id: Option<string>) {
    forall i | i in j.executions && i != k :: j.executions[i].queryId != id
  }

  /** Request, execution, state and attempts to start stay; reads are only ever counted up. */
  predicate Annotates(e: Entry, e': Entry) {
    && e'.request == e.request && e'.submittedAt == e.submittedAt && e'.queryId == e.queryId
    && e'.state == e.state && e'.starts == e.starts
    && (e'.gets == e.gets || e'.gets == Some(Attempts(e.gets) + 1))
  }

  /** Statement `k` is the last one or verified, and no pages of it are under way. */
  predicate Calm(j: Journal, k: nat) {
    k in j.executions ==>
      && (k == |j.executions| - 1 || j.executions[k].state == Verified) && j.executions[k].capture.None?
  }

  /** One statement, whose pages are under way. */
  predicate Paged(plan: Plan, j: Journal) {
    && 0 < |plan.statements| && |j.executions| == 1 && 0 in j.executions
    && j.executions[0].state != Verified
    && j.executions[0].capture.Some? && CaptureOwned(plan, 0, j.executions[0])
  }

  lemma RegressesExactly(plan: Plan, j: Journal, k: nat, polled: bool)
    requires k in j.executions && k < |j.executions| && k < |plan.statements|
    ensures Paged(plan, j) ==> (Regresses(Wrote(k, j, polled)) <==> !Fits(plan, j, k))
    ensures k != 0 || j.executions[k].state in {Succeeded, Verified} ==> !Regresses(Wrote(k, j, polled))
  {
  }

  lemma PagedHasId(plan: Plan, j: Journal)
    ensures Paged(plan, j) ==> |j.executions| == 1 && 0 in j.executions && j.executions[0].queryId.Some?
  {
  }

  /** After a later statement is on disk the first one is never alone again. */
  lemma NoFirstAgain(plan: Plan, reference: string, w: World, was: seq<Event>, now: seq<Event>, k: nat)
    requires was <= now && Lawful(plan, reference, w, now)
    requires After(w, was).disk.Some? && Almost(plan, reference, After(w, was).disk.value, k)
    ensures k != 0 ==> Regressions(now) == Regressions(was)
  {
    hide Lawful, After, Core, CaptureFine, DistinctIds;
    if k != 0 {
      NoLaterRegression(plan, reference, w, was, now);
    }
  }

  function IdentityCode(fault: IdentityFault): Code {
    match fault
    case Differs => IdentityDiffers
    case ContextRefused => ContextInvalid
    case SqlRefused => SqlUnsupported
  }

  /** The answer is about the request of this statement. */
  predicate IsAbout(plan: Plan, k: nat, kind: Option<Kind>, remote: Remote)
    requires k < |plan.statements|
  {
    Identified(kind, remote.queryId, RequestOf(plan, k).request, remote)
  }

  lemma RequestKept(plan: Plan, k: nat, e: Entry)
    requires k < |plan.statements| && Core(plan, k, e)
    ensures e.request == RequestOf(plan, k)
  {
  }

  /** What the smooth polls to come begin with. */
  lemma PollAhead(plan: Plan, k: nat, e: Entry, anchor: real, age: real, n: nat, a: seq<Answer>)
    requires k < |plan.statements| && e.queryId.Some?
    ensures SmoothPoll(plan, k, e.queryId.value, e.submittedAt, anchor, age, n, a) ==>
      && 5 <= Leading(a) && Said(plan, k, e.queryId.value, a[1].remote) && Local(a[1].remote.state).Some?
      && if n == 0 then
           && a[1].remote.state == RemoteSucceeded && PollEnd(n, a) == (Some(a[1].remote), a[5..])
           && ConsistentTimes(a[1].remote, e.submittedAt, a[4].clock) && InTime(a[1].remote, e.submittedAt, plan.timeout)
         else
           && a[1].remote.state in {RemoteQueued, RemoteRunning} && 6 <= Leading(a)
           && Waits(plan.timeout, e.submittedAt, anchor, age, a[4].clock, a[5].monotonic)
           && SmoothPoll(plan, k, e.queryId.value, e.submittedAt, anchor, age, n - 1, a[6..])
           && PollEnd(n, a) == PollEnd(n - 1, a[6..])
  {
    hide Said, ConsistentTimes, InTime, Waits;
  }

  /** What the smooth pages to come begin with. */
  lemma PagesAhead(f: Format, pages: seq<Page>, n: nat, a: seq<Answer>)
    ensures SmoothPages(f, pages, n, a) ==>
      && |pages| < PAGE_LIMIT && 2 <= Leading(a) && FinePage(f, pages, a[0].page) && 0 < n
      && if a[0].page.next.None? then PagesRead(pages, n, a) == (pages + [a[0].page], a[2..])
         else
           && SmoothPages(f, pages + [a[0].page], n - 1, a[2..])
           && PagesRead(pages, n, a) == PagesRead(pages + [a[0].page], n - 1, a[2..])
  {
    hide FinePage;
  }

  lemma FineIs(f: Format, pages: seq<Page>, page: Page)
    ensures FinePage(f, pages, page) ==>
      && TotalBytes(pages + [page]) <= RESULT_BYTES && NewToken(pages, page.next)
      && AllRows(f, pages + [page]).Some? && |AllRows(f, pages + [page]).value| <= RESULT_ROWS
  {
    hide AllRows, TotalBytes, NewToken;
  }

  lemma OnePageHeavier(pages: seq<Page>, page: Page)
    ensures TotalBytes(pages + [page]) == TotalBytes(pages) + page.bytes
  {
    assert (pages + [page])[..|pages|] == pages;
  }

  lemma CompleteRows(f: Format, results: Results)
    requires Complete(f, results)
    ensures AllRows(f, results.pages) == Some(results.rows)
  {
  }

  lemma ScanFits(plan: Plan, kind: Kind, remote: Remote)
    requires Scanned(plan, kind, remote).Some?
    ensures 0 <= Scanned(plan, kind, remote).value
  {
  }

  /** Nothing has gone wrong: the statements before `k` are reserved with the ids used so far, the
      service knows none of the others, and the answers to come are smooth. */
  ghost predicate OnTrack(plan: Plan, decode: Decoder, k: nat, paces: seq<Pace>, used: set<string>, j: Journal,
                          service: map<Token, string>, a: seq<Answer>)
  {
    && BudgetOk(plan) && k <= |plan.statements| && SmoothRun(plan, decode, k, paces, a, used)
    && (forall i | k <= i < |plan.statements| :: RequestOf(plan, i).token !in service)
    && forall i | i in j.executions :: i < k && j.executions[i].queryId.Some? && j.executions[i].queryId.value in used
  }

  /** Statement `k` is added or changed, and nothing else. */
  predicate OneMore(was: Journal, now: Journal, k: nat) {
    && k in now.executions && was.executions.Keys <= now.executions.Keys
    && |now.executions| == (if k in was.executions then |was.executions| else |was.executions| + 1)
    && forall i | i in now.executions && i != k :: i in was.executions && now.executions[i] == was.executions[i]
  }

  lemma NothingUnderWay(j: Journal)
    ensures |j.executions| == 0 ==> Restful(j)
  {
  }

  /** Journals refused, polls recorded and writes out of SUCCEEDED, over a history. */
  datatype Toll = Toll(refused: nat, polled: nat, regressed: nat)

  /** What one turn costs on a journal of `n` entries: one with later entries is refused as soon as a poll
      of the first is recorded, a single one with pages under way when it is written out of SUCCEEDED. */
  predicate Charged(k: nat, n: nat, restful: bool, t: Toll, t': Toll) {
    && (n <= k + 1 && restful ==> t'.refused == t.refused)
    && (k == 0 && 1 < n ==> (t'.polled == t.polled <==> t'.refused == t.refused))
    && (k == 0 && n == 1 && !restful ==> (t'.refused == t.refused <==> t'.regressed == t.regressed))
    && (k != 0 ==> t'.regressed == t.regressed)
  }

  /** What `k` turns have cost. */
  predicate Owed(k: nat, many: nat, restful: bool, t0: Toll, t: Toll) {
    if 1 < many then if k == 0 then t == t0 else t0.refused < t.refused && t0.polled < t.polled
    else if restful then t.refused == t0.refused
    else t.refused == t0.refused <==> t.regressed == t0.regressed
  }

  /** A run leaves a journal refused exactly when it found two entries or more and recorded a poll, or
      found one with pages under way and wrote it out of SUCCEEDED. */
  predicate Paid(many: nat, restful: bool, t0: Toll, t: Toll) {
    t.refused == t0.refused <==> if 1 < many then t.polled == t0.polled else restful || t.regressed == t0.regressed
  }

  lemma OwedAtFirst(many: nat, restful: bool, t: Toll)
    ensures Owed(0, many, restful, t, t)
  {
  }

  lemma OwedIsPaid(k: nat, many: nat, restful: bool, t0: Toll, t: Toll)
    requires Owed(k, many, restful, t0, t)
    ensures Paid(many, restful, t0, t)
  {
  }

  lemma OwedNext(k: nat, many: nat, restful: bool, n: nat, now: bool, t0: Toll, t: Toll, t': Toll, done: bool)
    requires Owed(k, many, restful, t0, t) && Charged(k, n, now, t, t') && n == (if k <= many then many else k)
    requires (many == 0 ==> restful) && if k == 0 then now == restful else many <= 1 ==> now
    requires t0.refused <= t.refused <= t'.refused && t0.polled <= t.polled <= t'.polled
    requires t0.regressed <= t.regressed <= t'.regressed && (done ==> t.polled < t'.polled)
    ensures Paid(many, restful, t0, t') && (done ==> Owed(k + 1, many, restful, t0, t'))
  {
  }

  function Later(paces: seq<Pace>): seq<Pace> {
    if paces == [] then [] else paces[1..]
  }

  /** The execution id a new statement is given. */
  function IdAt(a: seq<Answer>): set<string> {
    if 3 < |a| then {a[3].text} else {}
  }

  lemma OnTrackNow(plan: Plan, decode: Decoder, k: nat, paces: seq<Pace>, used: set<string>, j: Journal,
                   service: map<Token, string>, a: seq<Answer>)
    requires k < |plan.statements|
    ensures OnTrack(plan, decode, k, paces, used, j, service, a) ==>
      && k !in j.executions && paces != [] && SmoothTurn(plan, decode, k, paces[0], a) && 7 <= Leading(a)
      && RequestOf(plan, k).token !in service && QueryIdOk(a[3].text) && NewId(j, k, Some(a[3].text))
  {
    hide SmoothPoll, SmoothEnd, TurnEnd, QueryIdOk, RequestOf;
  }

  lemma OnTrackNext(plan: Plan, decode: Decoder, k: nat, paces: seq<Pace>, used: set<string>, j: Journal,
                    service: map<Token, string>, a: seq<Answer>, j': Journal, service': map<Token, string>, a': seq<Answer>)
    requires k < |plan.statements| && paces != [] && 3 < |a| && k in j'.executions && j' == With(j, k, j'.executions[k])
    ensures OnTrack(plan, decode, k, paces, used, j, service, a) && j'.executions[k].queryId == Some(a[3].text)
              && service' == service[RequestOf(plan, k).token := a[3].text] && a' == TurnEnd(plan, k, paces[0], a)
      ==> OnTrack(plan, decode, k + 1, paces[1..], used + {a[3].text}, j', service', a')
  {
    hide SmoothTurn, TurnEnd;
    if BudgetOk(plan) {
      TokensDiffer(plan, k);
    }
  }

  lemma TokensDiffer(plan: Plan, k: nat)
    requires BudgetOk(plan) && k < |plan.statements|
    ensures forall i | k < i < |plan.statements| :: RequestOf(plan, i).token != RequestOf(plan, k).token
  {
  }

  lemma EmptyAccepted(plan: Plan, reference: string)
    ensures BudgetOk(plan) ==> Accepts(plan, reference, Empty(plan, reference))
  {
  }

  /** From both clocks on, the answers for a submitted entry are smooth. */
  predicate SmoothAttend(plan: Plan, decode: Decoder, k: nat, pace: Pace, e: Entry, a: seq<Answer>)
    requires k < |plan.statements|
  {
    && e.queryId.Some? && 2 <= Leading(a) && e.submittedAt <= a[1].clock
    && SmoothPoll(plan, k, e.queryId.value, e.submittedAt, a[0].monotonic, a[1].clock - e.submittedAt, pace.waits, a[2..])
    && SmoothEnd(plan, decode, k, pace, a[2..])
  }

  /** A smooth turn is five smooth calls and what follows them. */
  lemma TurnSplits(plan: Plan, decode: Decoder, k: nat, pace: Pace, a: seq<Answer>, e: Entry)
    requires k < |plan.statements| && 7 <= |a|
    ensures SmoothTurn(plan, decode, k, pace, a) && e.queryId == Some(a[3].text) && e.submittedAt == a[0].clock ==>
      SmoothAttend(plan, decode, k, pace, e, a[5..])
    ensures SmoothTurn(plan, decode, k, pace, a) ==> 7 <= Leading(a)
    ensures TurnEnd(plan, k, pace, a) == CheckEnd(plan, k, pace.pages, PollEnd(pace.waits, a[5..][2..]).1)
  {
    hide SmoothPoll, SmoothEnd, CheckEnd, PollEnd, QueryIdOk;
    assert a[5..][2..] == a[7..];
    if 7 <= Leading(a) {
      LeadingDrop(a, 5);
    }
  }

  lemma SaidIs(plan: Plan, k: nat, id: string, remote: Remote)
    requires k < |plan.statements|
    ensures Said(plan, k, id, remote) <==>
      && Judge(Some(plan.statements[k].kind), id, RequestOf(plan, k).request, remote) == Ok(ExactTokens)
      && ParametersSame(RequestOf(plan, k).request, remote)
  {
    hide Judge, ParametersSame;
  }

  lemma JudgedId(kind: Option<Kind>, id: string, request: Request, remote: Remote)
    ensures Judge(kind, id, request, remote).Ok? ==> remote.queryId == id
  {
    hide TokenRule;
  }

  /** What `Paged` depends on is kept. */
  predicate SamePages(e: Entry, e': Entry) {
    e'.queryId == e.queryId && e'.capture == e.capture && (e.state == Verified || e'.state != Verified)
  }

  lemma PagedStays(plan: Plan, was: Journal, now: Journal, k: nat)
    requires k in was.executions && k < |was.executions| && OnlyAt(was, now, k)
    ensures Paged(plan, was) && SamePages(was.executions[k], now.executions[k]) ==> Paged(plan, now)
  {
    assert now.executions.Keys == was.executions.Keys;
    assert |now.executions| == |now.executions.Keys| && |was.executions| == |was.executions.Keys|;
  }

  predicate ResultsMatch(plan: Plan, k: nat, decode: Decoder, results: Option<Results>)
    requires k < |plan.statements|
  {
    && results.Some? && Complete(FormatOf(plan, k, decode), results.value)
    && match plan.statements[k].expected
       case Some(expected) => multiset(results.value.rows) == expected
       case None => results.value.rows != []
  }

  /** A verified entry: its one execution ran this statement within the scan limit, and its rows,
      read to the end, are the expected ones in any order. */
  predicate Proven(plan: Plan, k: nat, decode: Decoder, e: Entry)
    requires k < |plan.statements|
  {
    && e.state == Verified && e.capture.None?
    && e.execution.Some? && Some(e.execution.value.queryId) == e.queryId
    && IsAbout(plan, k, Some(plan.statements[k].kind), e.execution.value)
    && e.scanned.Some? && ScanAllowed(plan, plan.statements[k].kind, e.execution.value, e.scanned.value)
    && Timely(e, e.execution.value, plan.timeout)
    && (plan.statements[k].kind != Ddl ==> ResultsMatch(plan, k, decode, e.results))
  }

  /** A statement not reserved yet, or with no pages under way. */
  predicate CalmTurn(j: Journal, k: nat) {
    k in j.executions ==> j.executions[k].capture.None?
  }

  lemma OnlyThere(was: Journal, between: Journal, now: Journal, k: nat)
    requires k in between.executions && between == With(was, k, between.executions[k]) && OnlyAt(between, now, k)
    ensures k in now.executions && now == With(was, k, now.executions[k])
    ensures |now.executions| == |between.executions|
    ensures forall i | i in now.executions && i != k :: now.executions[i] == between.executions[i]
  {
    assert now.executions.Keys == between.executions.Keys;
  }

  lemma TurnTaken(plan: Plan, reference: string, w: World, j: Journal, k: nat)
    requires Accepts(plan, reference, j) && k in j.executions && w.disk == Some(j)
    ensures k < |plan.statements| && k < |j.executions| && Core(plan, k, j.executions[k])
    ensures Almost(plan, reference, j, k) && JournalStep(plan, reference, w, k, j) && Fits(plan, j, k)
  {
  }

  lemma ReserveReady(plan: Plan, reference: string, w: World, j: Journal, k: nat, now: Instant)
    requires Accepts(plan, reference, j) && k !in j.executions && k <= |j.executions| && k < STATEMENTS
    requires forall i | i in j.executions && i < k :: j.executions[i].state == Verified
    requires w.disk == Some(j) || (w.disk.None? && j == Empty(plan, reference))
    ensures k < |plan.statements| && Core(plan, k, Reserved(plan, k, now))
    ensures var j' := With(j, k, Reserved(plan, k, now));
            && |j'.executions| == k + 1 && Fits(plan, j', k)
            && Almost(plan, reference, j', k) && JournalStep(plan, reference, w, k, j')
  {
    hide DistinctIds, JournalStep;
    assert k == |j.executions|;
    ReserveFramed(plan, reference, j, k, Reserved(plan, k, now));
    ReserveStep(plan, reference, w, j, k, Reserved(plan, k, now));
    ReserveAlmost(plan, reference, j, k, Reserved(plan, k, now));
  }

  lemma ReserveAlmost(plan: Plan, reference: string, j: Journal, k: nat, e: Entry)
    requires Accepts(plan, reference, j) && AllVerified(j) && k < |plan.statements| && e.capture.None?
    requires Framed(plan, reference, With(j, k, e)) && |With(j, k, e).executions| == k + 1
    ensures Almost(plan, reference, With(j, k, e), k) && Fits(plan, With(j, k, e), k)
  {
    hide Core, DistinctIds;
    EighteenStatements(plan, reference, j);
    assert CaptureFine(plan, k, e);
    hide Framed, CaptureFine;
    var j' := With(j, k, e);
    forall i | i in j'.executions && i != k
      ensures j'.executions[i] == j.executions[i] && CaptureFine(plan, i, j.executions[i])
    {
    }
  }

  lemma ReserveStep(plan: Plan, reference: string, w: World, j: Journal, k: nat, e: Entry)
    requires k !in j.executions && AllVerified(j) && e.queryId.None? && e.starts.None?
    requires w.disk == Some(j) || (w.disk.None? && j == Empty(plan, reference))
    ensures JournalStep(plan, reference, w, k, With(j, k, e))
  {
  }

  lemma ReserveFramed(plan: Plan, reference: string, j: Journal, k: nat, e: Entry)
    requires Framed(plan, reference, j) && k == |j.executions| < STATEMENTS && Core(plan, k, e) && e.queryId.None?
    ensures Framed(plan, reference, With(j, k, e)) && |With(j, k, e).executions| == k + 1
  {
    hide Core, DistinctIds;
    DistinctWith(j.executions, k, e);
    assert k !in j.executions;
    assert With(j, k, e).executions.Keys == j.executions.Keys + {k};
  }

  lemma DistinctWith(entries: map<nat, Entry>, k: nat, e: Entry)
    requires DistinctIds(entries)
    requires forall i | i in entries && i != k :: e.queryId.None? || entries[i].queryId != e.queryId
    ensures DistinctIds(entries[k := e])
  {
  }

  /** A statement without an execution is the last one, after verified ones. */
  lemma PreparedAlone(plan: Plan, reference: string, j: Journal, k: nat)
    requires Almost(plan, reference, j, k) && k < |plan.statements|
    requires j.executions[k].queryId.None? && CaptureFine(plan, k, j.executions[k])
    requires k == |j.executions| - 1 || j.executions[k].state == Verified
    ensures k == |j.executions| - 1 && j.executions[k].state == Prepared && j.executions[k].capture.None?
    ensures forall i | i in j.executions && i != k :: j.executions[i].state == Verified
  {
  }

  lemma KnownExecution(plan: Plan, k: nat, e: Entry)
    requires k < |plan.statements| && Core(plan, k, e)
    ensures e.queryId.Some? <==> e.state != Prepared
  {
  }

  /** A verified statement leaves an accepted journal to the next one. */
  lemma TurnOver(plan: Plan, reference: string, j: Journal, k: nat, decode: Decoder)
    requires Almost(plan, reference, j, k) && k < |plan.statements| && Proven(plan, k, decode, j.executions[k])
    ensures Accepts(plan, reference, j) && j.executions[k].state == Verified
  {
  }

  const TABLES: nat := 5

  datatype Act = Executes(authorized: Plan) | ReadsBack(requireComplete: bool)

  datatype Report = Report(executions: int, remaining: int)

  predicate ReferenceOk(reference: string) {
    && 1 <= |reference| <= 200
    && forall c | c in reference ::
         'A' <= c <= 'Z' || 'a' <= c <= 'z' || '0' <= c <= '9' || c in {':', '.', '/', '_', '#', ' ', '-'}
  }

  /** Up to two hundred letters, digits, blanks and a few signs. */
  predicate IsReference(text: string) {
    1 <= |text| <= 200 && forall i :: 0 <= i < |text| ==>
      || 'A' <= text[i] <= 'Z' || 'a' <= text[i] <= 'z' || '0' <= text[i] <= '9'
      || text[i] in " #-./:_"
  }

  lemma ReferenceExactly(reference: string)
    ensures ReferenceOk(reference) <==> IsReference(reference)
  {
    if ReferenceOk(reference) {
      assert forall i :: 0 <= i < |reference| ==> reference[i] in reference;
    }
  }

  /** No pages are under way in any entry. */
  predicate Restful(j: Journal) {
    forall k | k in j.executions :: j.executions[k].capture.None?
  }

  lemma RestfulIsCalm(j: Journal, k: nat)
    ensures Restful(j) ==> CalmTurn(j, k)
  {
  }

  /** How a run finds the entry of the first statement. */
  lemma FirstTurn(plan: Plan, reference: string, j: Journal)
    requires Accepts(plan, reference, j)
    ensures 1 < |j.executions| ==> CalmTurn(j, 0)
    ensures |j.executions| <= 1 ==> Restful(j) || Paged(plan, j)
  {
    hide Core, DistinctIds;
  }

  lemma ProvenAlone(plan: Plan, reference: string, j: Journal, k: nat, decode: Decoder)
    requires Accepts(plan, reference, j) && k in j.executions
    requires k < |plan.statements| && Proven(plan, k, decode, j.executions[k])
    ensures |j.executions| == 1 ==> Restful(j)
  {
    hide Core, DistinctIds, CaptureFine, ResultsMatch;
  }

  lemma StillRestful(plan: Plan, was: Journal, now: Journal, k: nat, decode: Decoder)
    requires k in now.executions && now == With(was, k, now.executions[k])
    requires k < |plan.statements| && Proven(plan, k, decode, now.executions[k])
    ensures Restful(was) ==> Restful(now)
    ensures |now.executions| == if k in was.executions then |was.executions| else |was.executions| + 1
    ensures forall i | i in now.executions && i != k :: i in was.executions && now.executions[i] == was.executions[i]
  {
    assert now.executions.Keys == was.executions.Keys + {k};
  }

  lemma EighteenStatements(plan: Plan, reference: string, j: Journal)
    requires Accepts(plan, reference, j)
    ensures |plan.statements| == STATEMENTS && |j.executions| <= STATEMENTS
    ensures forall k | k in j.executions :: k < |j.executions|
    ensures forall k :: 0 <= k < |j.executions| ==> k in j.executions
  {
  }

  /** What may be wrong with the shape of a page. */
  const PAGE_FAULTS: set<Code> := {ResultColumnsInvalid, ResultRowsInvalid, ResultRowLimit, ResultTokenInvalid}

  /** So many pages are under way in the entry of statement `k`. */
  predicate UnderWay(j: Journal, k: nat, n: int) {
    k in j.executions && j.executions[k].capture.Some? && |j.executions[k].capture.value.pages| == n
  }

  function FaultCode(fault: PageFault): Code {
    match fault
    case ColumnsRefused => ResultColumnsInvalid
    case RowsRefused => ResultRowsInvalid
    case TooManyRows => ResultRowLimit
    case TokenRefused => ResultTokenInvalid
  }

  lemma NothingGathered(f: Format)
    ensures Gathering(f, [], []) && TotalBytes([]) <= RESULT_BYTES
  {
  }

  /** One more read of statement `k` is counted. */
  predicate Counted(j: Journal, j': Journal, k: nat) {
    && k in j.executions && k in j'.executions
    && var gets := j.executions[k].gets;
    j'.executions[k].gets == Some(1 + if gets.Some? then gets.value else 0)
  }

  /** One more attempt to start statement `k` is counted. */
  predicate Tried(j: Journal, j': Journal, k: nat) {
    && k in j.executions && k in j'.executions
    && var starts := j.executions[k].starts;
    j'.executions[k].starts == Some(1 + if starts.Some? then starts.value else 0)
  }

  function Attempted(e: Entry): Entry {
    e.(starts := Some(Attempts(e.starts) + 1))
  }

  function Capturing(e: Entry, pages: seq<Page>): Entry {
    e.(capture := Some(Capture(if e.queryId.Some? then e.queryId.value else "", pages)))
  }

  /** Only the entry of statement `k` differs. */
  predicate OnlyAt(j: Journal, j': Journal, k: nat) {
    k in j.executions && k in j'.executions && j' == With(j, k, j'.executions[k])
  }

  /** Only the entry of statement `k` differs, with the same execution and pages under way. */
  predicate Bookkept(j: Journal, j': Journal, k: nat) {
    && OnlyAt(j, j', k)
    && j'.executions[k].queryId == j.executions[k].queryId
    && j'.executions[k].submittedAt == j.executions[k].submittedAt
    && j'.executions[k].capture == j.executions[k].capture
  }

  /** Only the pages under way of statement `k` differ, and they are of its execution. */
  predicate Captured(j: Journal, j': Journal, k: nat) {
    && OnlyAt(j, j', k)
    && var e := j'.executions[k];
    && e == j.executions[k].(capture := e.capture)
    && e.capture.Some? && Some(e.capture.value.queryId) == e.queryId && |e.capture.value.pages| <= PAGE_LIMIT
  }

  /** Only the kept observation of statement `k` differs. */
  predicate Observed(j: Journal, j': Journal, k: nat) {
    && OnlyAt(j, j', k)
    && j'.executions[k] == j.executions[k].(observation := j'.executions[k].observation)
  }

  /** A closed entry on disk is still closed after whatever was done since. */
  lemma StaysShut(plan: Plan, reference: string, w: World, was: seq<Event>, now: seq<Event>, k: nat)
    requires was <= now && Lawful(plan, reference, w, now)
    requires var disk := After(w, was).disk;
             disk.Some? && k in disk.value.executions && Closed(disk.value.executions[k].state)
    ensures var disk := After(w, now).disk;
            disk.Some? && k in disk.value.executions && Closed(disk.value.executions[k].state)
  {
    hide Lawful;
    assert now[..|was|] == was;
    ClosedForever(plan, reference, w, now, |was|, k, After(w, was).disk.value.executions[k].state);
  }

  /** What was written may be written again. */
  lemma WrittenAgain(plan: Plan, reference: string, w: World, k: nat, j: Journal)
    requires Almost(plan, reference, j, k) && w.disk == Some(j)
    ensures JournalStep(plan, reference, w, k, j)
  {
  }

  lemma StartPermitted(plan: Plan, reference: string, w: World, k: nat, token: Token, landed: bool, id: string)
    requires MayStart(plan, w, k, token)
    ensures Permitted(plan, reference, w, Started(k, token, landed, id))
  {
  }

  lemma AmendKeeps(plan: Plan, reference: string, w: World, k: nat, j: Journal, e: Entry)
    requires Almost(plan, reference, j, k) && JournalStep(plan, reference, w, k, j)
    requires Core(plan, k, e) && EntryStep(j.executions[k], e, w.executions)
    requires e.queryId == j.executions[k].queryId || NewId(j, k, e.queryId)
    requires w.disk.Some? && k in w.disk.value.executions
    ensures Almost(plan, reference, With(j, k, e), k) && JournalStep(plan, reference, w, k, With(j, k, e))
  {
    hide Core, Framed, EntryStep, CaptureFine, NewId;
    AmendStaysFramed(plan, reference, j, k, e);
    assert EntryStep(w.disk.value.executions[k], j.executions[k], w.executions);
    StepThenStep(w.disk.value.executions[k], j.executions[k], e, w.executions);
  }

  lemma StepThenStep(e: Entry, e': Entry, e'': Entry, executions: map<Token, string>)
    requires EntryStep(e, e', executions) && EntryStep(e', e'', executions)
    ensures EntryStep(e, e'', executions)
  {
  }

  lemma AmendStaysFramed(plan: Plan, reference: string, j: Journal, k: nat, e: Entry)
    requires Framed(plan, reference, j) && k in j.executions && Core(plan, k, e)
    requires e.queryId == j.executions[k].queryId || NewId(j, k, e.queryId)
    ensures Framed(plan, reference, With(j, k, e))
  {
    hide Core;
    assert forall i | i in j.executions && i != k :: e.queryId.None? || j.executions[i].queryId != e.queryId;
    DistinctWith(j.executions, k, e);
    hide DistinctIds;
  }
}
