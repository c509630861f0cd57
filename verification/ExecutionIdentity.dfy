/** `_execution` of `athena_run.py`: when an answer of the service is about the request that was
    sent. SQL texts are compared token by token, and the service may leave out one thing. */
module ExecutionIdentity {
  import opened Common
  import opened Journal
  import opened SqlLexer
  import opened SqlTokens

  datatype IdentityFault = Differs | ContextRefused | SqlRefused

  const DEFAULT_CATALOG := "AwsDataCatalog"
  const LOWER_CATALOG := "awsdatacatalog"
  const TERMINATOR := ";"

  predicate IsIdentifier(s: string) {
    s != [] && Letter(s[0]) && WordLength(s) == |s|
  }

  /** The only statement terminator is at the end. */
  predicate Terminated(ts: seq<string>) {
    ts != [] && ts[|ts| - 1] == TERMINATOR && multiset(ts)[TERMINATOR] == 1
  }

  /** DESCRIBE, the database, a dot and a table. */
  predicate Qualified(ts: seq<string>, database: string) {
    |ts| == 4 && ts[0] == "DESCRIBE" && ts[1] == database && ts[2] == "." && IsIdentifier(ts[3])
  }

  /** How the tokens of an answer may differ from those sent. */
  function TokenRule(kind: Option<Kind>, database: string, wanted: seq<string>, observed: seq<string>): Option<Rule> {
    if Terminated(wanted) && observed == wanted[..|wanted| - 1] then Some(TerminatorOmitted)
    else if kind == Some(Describe) && Qualified(wanted, database) && observed == ["DESCRIBE", wanted[3]] then
      Some(QualifierOmitted)
    else if wanted == observed then Some(ExactTokens)
    else None
  }

  predicate CatalogSame(wanted: string, got: string) {
    wanted == got || (wanted == DEFAULT_CATALOG && got == LOWER_CATALOG)
  }

  /** The checks in front of the parameters, in their order. */
  function Judge(kind: Option<Kind>, id: string, request: Request, remote: Remote): Result<Rule, IdentityFault> {
    if id != remote.queryId || remote.workgroup != Some(request.workgroup) then Err(Differs)
    else if remote.context.None? then Err(ContextRefused)
    else
      var (catalog, database) := remote.context.value;
      if request.database != database || !CatalogSame(request.catalog, catalog) then Err(Differs)
      else
        var wanted := ExecutionTokens(request.sql);
        var observed := if remote.sql.Some? then ExecutionTokens(remote.sql.value) else None;
        if wanted.None? || observed.None? then Err(SqlRefused)
        else
          var rule := TokenRule(kind, database, wanted.value, observed.value);
          if rule.None? then Err(Differs) else Ok(rule.value)
  }

  /** Parameters that are not in the answer are no evidence of a change. */
  predicate ParametersSame(request: Request, remote: Remote) {
    remote.parameters == NotReturned || remote.parameters == Returned(request.parameters)
  }

  predicate Identified(kind: Option<Kind>, id: string, request: Request, remote: Remote) {
    Judge(kind, id, request, remote).Ok? && ParametersSame(request, remote)
  }

  // ------------------------------------------------------- which answers are taken

  /** How the tokens that came back are those sent: without the one terminator, which was last; a DESCRIBE
      without its database; or all of them. */
  predicate SameStatement(kind: Option<Kind>, database: string, sent: seq<string>, back: seq<string>, rule: Rule) {
    match rule
    case TerminatorOmitted => sent == back + [";"] && ";" !in back
    case QualifierOmitted =>
      && kind == Some(Describe) && |sent| == 4 && sent == ["DESCRIBE", database, ".", sent[3]]
      && WholeWord(sent[3], |sent[3]|) && back == ["DESCRIBE", sent[3]]
    case ExactTokens => sent == back
  }

  lemma RuleExactly(kind: Option<Kind>, database: string, sent: seq<string>, back: seq<string>, rule: Rule)
    ensures TokenRule(kind, database, sent, back) == Some(rule) <==> SameStatement(kind, database, sent, back, rule)
  {
    hide Terminated, Qualified;
    TerminatorExactly(sent, back);
    QualifierExactly(database, sent, back);
    RulesApart(database, sent, back);
  }

  lemma QualifierExactly(database: string, sent: seq<string>, back: seq<string>)
    ensures |sent| == 4 && Qualified(sent, database) && back == ["DESCRIBE", sent[3]] <==>
      && |sent| == 4 && sent == ["DESCRIBE", database, ".", sent[3]]
      && WholeWord(sent[3], |sent[3]|) && back == ["DESCRIBE", sent[3]]
  {
    hide WholeWord, IsIdentifier;
    if |sent| == 4 {
      IdentifierExactly(sent[3]);
    }
  }

  lemma RulesApart(database: string, sent: seq<string>, back: seq<string>)
    ensures Terminated(sent) && back == sent[..|sent| - 1] ==> |back| == |sent| - 1
    ensures Qualified(sent, database) ==> |sent| == 4
  {
  }

  lemma TerminatorExactly(sent: seq<string>, back: seq<string>)
    ensures Terminated(sent) && back == sent[..|sent| - 1] <==> sent == back + [";"] && ";" !in back
  {
    if sent != [] {
      var front := sent[..|sent| - 1];
      assert sent == front + [sent[|sent| - 1]];
      assert multiset(sent)[";"] == multiset(front)[";"] + (if sent[|sent| - 1] == ";" then 1 else 0);
      assert ";" in front <==> 0 < multiset(front)[";"];
    }
  }

  lemma IdentifierExactly(s: string)
    ensures IsIdentifier(s) <==> WholeWord(s, |s|)
  {
    hide WordLength;
    WordExactly(s, |s|);
  }

  /** Exactly which answers are about a request, said of their fields. */
  predicate Taken(kind: Option<Kind>, id: string, request: Request, remote: Remote, rule: Rule) {
    && remote.queryId == id && remote.workgroup == Some(request.workgroup)
    && remote.context.Some? && remote.context.value.1 == request.database
    && (remote.context.value.0 == request.catalog
        || (request.catalog == "AwsDataCatalog" && remote.context.value.0 == "awsdatacatalog"))
    && remote.sql.Some? && ExecutionTokens(request.sql).Some? && ExecutionTokens(remote.sql.value).Some?
    && SameStatement(kind, request.database, ExecutionTokens(request.sql).value, ExecutionTokens(remote.sql.value).value, rule)
    && (remote.parameters == NotReturned || remote.parameters == Returned(request.parameters))
  }

  lemma TakenExactly(kind: Option<Kind>, id: string, request: Request, remote: Remote, rule: Rule)
    ensures Identified(kind, id, request, remote) && Judge(kind, id, request, remote) == Ok(rule)
       <==> Taken(kind, id, request, remote, rule)
  {
    hide ExecutionTokens, TokenRule, SameStatement;
    if remote.sql.Some? && ExecutionTokens(request.sql).Some? && ExecutionTokens(remote.sql.value).Some? {
      RuleExactly(kind, request.database, ExecutionTokens(request.sql).value, ExecutionTokens(remote.sql.value).value, rule);
    }
  }

  // ------------------------------------------------------------ what it amounts to

  function WithoutTerminator(ts: seq<string>): seq<string> {
    if Terminated(ts) then ts[..|ts| - 1] else ts
  }

  function WithoutQualifier(ts: seq<string>, database: string): seq<string> {
    if Qualified(ts, database) then [ts[0], ts[3]] else ts
  }

  /** What is left of a statement when all that may be left out is. */
  function Essence(ts: seq<string>, database: string): seq<string> {
    WithoutQualifier(WithoutTerminator(ts), database)
  }

  lemma OnceIsEnough(ts: seq<string>)
    requires Terminated(ts)
    ensures !Terminated(ts[..|ts| - 1])
  {
    var rest := ts[..|ts| - 1];
    assert ts == rest + [TERMINATOR];
    assert multiset(ts)[TERMINATOR] == multiset(rest)[TERMINATOR] + 1;
    assert rest != [] ==> rest[|rest| - 1] in multiset(rest);
  }

  lemma NeverATerminator(table: string)
    requires IsIdentifier(table)
    ensures table != TERMINATOR
  {
    assert TERMINATOR[0] == ';' && !Letter(';');
  }

  /** Whatever rule admits the answer, the essence of the two statements is the same, and the
      answer has at most the terminator or the database qualifier less. */
  lemma SameEssence(kind: Option<Kind>, database: string, wanted: seq<string>, observed: seq<string>)
    requires TokenRule(kind, database, wanted, observed).Some?
    ensures Essence(observed, database) == Essence(wanted, database)
    ensures observed == wanted || |observed| < |wanted|
  {
    hide IsIdentifier;
    match TokenRule(kind, database, wanted, observed).value
    case TerminatorOmitted => OnceIsEnough(wanted);
    case QualifierOmitted =>
      NeverATerminator(wanted[3]);
      assert !Terminated(wanted) && !Terminated(observed);
    case ExactTokens =>
  }

  /** One answer is never taken for two statements that differ in more than what may be left out,
      nor for two workgroups, databases or lists of parameters that were returned. */
  lemma OneAnswerOneStatement(id: string, a: Request, kindA: Option<Kind>, b: Request, kindB: Option<Kind>, remote: Remote)
    requires Identified(kindA, id, a, remote) && Identified(kindB, id, b, remote)
    ensures ExecutionTokens(a.sql).Some? && ExecutionTokens(b.sql).Some?
    ensures Essence(ExecutionTokens(a.sql).value, a.database) == Essence(ExecutionTokens(b.sql).value, b.database)
    ensures a.workgroup == b.workgroup && a.database == b.database
    ensures CatalogSame(a.catalog, b.catalog) || CatalogSame(b.catalog, a.catalog)
    ensures remote.parameters != NotReturned ==> a.parameters == b.parameters
  {
    hide ExecutionTokens, TokenRule, Essence;
    var observed := ExecutionTokens(remote.sql.value).value;
    SameEssence(kindA, a.database, ExecutionTokens(a.sql).value, observed);
    SameEssence(kindB, b.database, ExecutionTokens(b.sql).value, observed);
  }

  /** Without an exception the text that came back is the one sent but for ASCII white space
      between its tokens. */
  lemma SameTextButSpace(kind: Option<Kind>, id: string, request: Request, remote: Remote)
    requires Judge(kind, id, request, remote) == Ok(ExactTokens)
    ensures remote.sql.Some? && ExecutionTokens(request.sql).Some?
    ensures var ts, sent, got := ExecutionTokens(request.sql).value, Gaps(request.sql), Gaps(remote.sql.value);
      && |sent| == |ts| + 1 && (forall gap | gap in sent :: AllBlank(gap)) && Weave(sent, ts) == request.sql
      && |got| == |ts| + 1 && (forall gap | gap in got :: AllBlank(gap)) && Weave(got, ts) == remote.sql.value
  {
    hide Tokens, Gaps, Weave, AllBlank;
    Lossless(request.sql);
    Lossless(remote.sql.value);
  }
}
