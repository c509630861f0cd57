/** What a run that succeeded has shown of every statement, field by field. */
module ProvenRun {
  import opened Common
  import opened Journal
  import opened ResultPages
  import opened ResultCells
  import SqlLexer
  import opened ExecutionIdentity
  import opened AthenaAnswers
  import opened AthenaRun

  /** The entry holds the request of the statement, under the token of round, statement and request. */
  predicate Requested(plan: Plan, k: nat, e: Entry)
    requires k < |plan.statements|
  {
    var s := plan.statements[k];
    var request := Request(s.sql, plan.workgroup, plan.catalog, plan.database, plan.results, s.parameters);
    e.request.request == request && e.request.token == Sha256(plan.round, s.id, request)
  }

  /** The execution is the one started, in the workgroup, database and catalog asked for, of the SQL and
      the parameters sent. */
  predicate Ran(plan: Plan, k: nat, e: Entry, remote: Remote)
    requires k < |plan.statements|
  {
    var s := plan.statements[k];
    && e.queryId == Some(remote.queryId) && remote.state == RemoteSucceeded
    && remote.workgroup == Some(plan.workgroup)
    && remote.context.Some? && remote.context.value.1 == plan.database
    && (remote.context.value.0 == plan.catalog
        || (plan.catalog == "AwsDataCatalog" && remote.context.value.0 == "awsdatacatalog"))
    && remote.sql.Some? && SqlLexer.ExecutionTokens(s.sql).Some? && SqlLexer.ExecutionTokens(remote.sql.value).Some?
    && SameSql(s.kind, plan.database, SqlLexer.ExecutionTokens(s.sql).value, SqlLexer.ExecutionTokens(remote.sql.value).value)
    && (remote.parameters == NotReturned || remote.parameters == Returned(s.parameters))
  }

  /** The same tokens, or without the only terminator at the end, or DESCRIBE without its database. */
  predicate SameSql(kind: Kind, database: string, wanted: seq<string>, observed: seq<string>) {
    || observed == wanted
    || (wanted == observed + [";"] && ";" !in observed)
    || (kind == Describe && |wanted| == 4 && |observed| == 2
        && wanted[0] == observed[0] == "DESCRIBE" && wanted[1] == database && wanted[2] == "." && wanted[3] == observed[1])
  }

  /** It ended inside the deadline of its first submission, by times that agree with each other, and used
      the plan's settings within its scan limit. */
  predicate Measured(plan: Plan, k: nat, e: Entry, remote: Remote)
    requires k < |plan.statements|
  {
    && remote.submission.Some? && remote.completion.Some? && remote.totalMillis.Some?
    && var (submission, completion, total) := (remote.submission.value, remote.completion.value, remote.totalMillis.value);
    && e.submittedAt <= submission <= completion
    && completion - e.submittedAt < plan.timeout as real
    && 0 <= total < plan.timeout * 1000
    && -1.001 <= (completion - submission) * 1000.0 - total as real <= 1.001
    && (forall m | m in remote.millis :: 0 <= m <= total)
    && remote.effectiveResults && remote.engine
    && remote.reused != Some(true) && (plan.statements[k].kind == Select ==> remote.reused == Some(false))
    && remote.scanned.Some? && 0 <= remote.scanned.value <= plan.scanCutoff && e.scanned == remote.scanned
  }

  /** Its rows, read to the end, are the expected ones, in any order. */
  predicate Answered(plan: Plan, k: nat, decode: Decoder, e: Entry, starts: seq<nat>, sums: seq<nat>)
    requires k < |plan.statements|
  {
    var s := plan.statements[k];
    && e.results.Some?
    && IsResult(Format(s.kind, s.jsonColumns, decode), e.results.value, starts, sums)
    && (s.expected.Some? ==> multiset(e.results.value.rows) == s.expected.value)
    && (s.expected.None? ==> e.results.value.rows != [])
  }

  /** A proven entry, which is what each of the eighteen is behind a run that succeeded. */
  lemma ProvenMeans(plan: Plan, k: nat, decode: Decoder, e: Entry) returns (starts: seq<nat>, sums: seq<nat>)
    requires k < |plan.statements| && Core(plan, k, e) && Proven(plan, k, decode, e)
    ensures e.state == Verified && e.capture.None? && e.execution.Some?
    ensures Requested(plan, k, e)
    ensures Ran(plan, k, e, e.execution.value)
    ensures Measured(plan, k, e, e.execution.value)
    ensures plan.statements[k].kind != Ddl ==> Answered(plan, k, decode, e, starts, sums)
  {
    hide Complete, IsResult, Judge, SameSql, SqlLexer.ExecutionTokens;
    starts, sums := [], [];
    JudgeMeans(plan, k, e.execution.value);
    if plan.statements[k].kind != Ddl {
      starts, sums := CompleteIsResult(FormatOf(plan, k, decode), e.results.value);
    }
  }

  lemma JudgeMeans(plan: Plan, k: nat, remote: Remote)
    requires k < |plan.statements|
    requires Judge(Some(plan.statements[k].kind), remote.queryId, RequestOf(plan, k).request, remote).Ok?
    ensures var s := plan.statements[k];
      && remote.workgroup == Some(plan.workgroup)
      && remote.context.Some? && remote.context.value.1 == plan.database
      && (remote.context.value.0 == plan.catalog
          || (plan.catalog == "AwsDataCatalog" && remote.context.value.0 == "awsdatacatalog"))
      && remote.sql.Some? && SqlLexer.ExecutionTokens(s.sql).Some? && SqlLexer.ExecutionTokens(remote.sql.value).Some?
      && SameSql(s.kind, plan.database, SqlLexer.ExecutionTokens(s.sql).value,
                 SqlLexer.ExecutionTokens(remote.sql.value).value)
  {
    hide SqlLexer.ExecutionTokens, TokenRule, SameSql;
    var s := plan.statements[k];
    RuleMeans(s.kind, plan.database, SqlLexer.ExecutionTokens(s.sql).value, SqlLexer.ExecutionTokens(remote.sql.value).value);
  }

  lemma RuleMeans(kind: Kind, database: string, wanted: seq<string>, observed: seq<string>)
    requires TokenRule(Some(kind), database, wanted, observed).Some?
    ensures SameSql(kind, database, wanted, observed)
  {
    if Terminated(wanted) && observed == wanted[..|wanted| - 1] {
      assert wanted == observed + [";"];
      assert multiset(wanted)[";"] == multiset(observed)[";"] + 1;
    }
  }
}
