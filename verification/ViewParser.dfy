/** The recursive descent of `view_structure`: as functions that take what is written apart,
    and as the parser object with its index. */
module ViewParser {
  import opened Common
  import opened ViewGrammar

  predicate Head(ts: Tokens, t: Token) {
    ts != [] && ts[0] == t
  }

  predicate HeadIdentifier(ts: Tokens) {
    ts != [] && ts[0].Identifier?
  }

  /** What was read, and the tokens behind it. */
  type Parsed<T> = Option<(T, Tokens)>

  function ParseName(ts: Tokens): (r: Parsed<Name>)
    ensures r.Some? ==> |r.value.1| < |ts|
  {
    if !HeadIdentifier(ts) then None
    else
      var qualified := Head(ts[1..], Sign(Dot));
      if qualified && !HeadIdentifier(ts[2..]) then None
      else
        var name := if qualified then Name(Some(ts[0].text), ts[2].text) else Name(None, ts[0].text);
        var rest := if qualified then ts[3..] else ts[1..];
        if Head(rest, Sign(Open)) then None else Some((name, rest))
  }

  function ParseAlias(ts: Tokens): (r: Parsed<Alias>)
    ensures r.Some? ==> |r.value.1| <= |ts|
  {
    if Head(ts, Keyword(AS)) then
      if HeadIdentifier(ts[1..]) then Some((Named(true, ts[1].text), ts[2..])) else None
    else if HeadIdentifier(ts) then Some((Named(false, ts[0].text), ts[1..]))
    else Some((NoAlias, ts))
  }

  function ParseRelation(ts: Tokens): (r: Parsed<Relation>)
    ensures r.Some? ==> |r.value.1| < |ts|
  {
    if !HeadIdentifier(ts) || !Head(ts[1..], Sign(Dot)) || !HeadIdentifier(ts[2..]) || Head(ts[3..], Sign(Dot)) then None
    else
      var alias := ParseAlias(ts[3..]);
      if alias.None? then None else Some((Relation(ts[0].text, ts[2].text, alias.value.0), alias.value.1))
  }

  function ParseOperand(ts: Tokens): (r: Parsed<Operand>)
    ensures r.Some? ==> |r.value.1| < |ts|
  {
    if ts != [] && ts[0].Literal? then Some((TextOperand(ts[0].raw), ts[1..]))
    else if Head(ts, Keyword(TRUE)) || Head(ts, Keyword(FALSE)) then Some((BooleanOperand(ts[0].word == TRUE), ts[1..]))
    else
      var name := ParseName(ts);
      if name.None? then None else Some((ColumnOperand(name.value.0), name.value.1))
  }

  function ParseTerm(ts: Tokens): (r: Parsed<Term>)
    ensures r.Some? ==> |r.value.1| < |ts|
    decreases |ts|, 0
  {
    if Head(ts, Sign(Open)) then
      var inner := ParseCondition(ts[1..]);
      if inner.None? || !Head(inner.value.1, Sign(Close)) then None
      else Some((Group(inner.value.0), inner.value.1[1..]))
    else
      var left := ParseName(ts);
      if left.None? || !Head(left.value.1, Sign(Equal)) then None
      else
        var right := ParseOperand(left.value.1[1..]);
        if right.None? then None else Some((Compare(left.value.0, right.value.0), right.value.1))
  }

  function ParseCondition(ts: Tokens): (r: Parsed<Condition>)
    ensures r.Some? ==> |r.value.1| < |ts|
    decreases |ts|, 1
  {
    var term := ParseTerm(ts);
    if term.None? then None
    else if !Head(term.value.1, Keyword(AND)) then Some((One(term.value.0), term.value.1))
    else
      var rest := ParseCondition(term.value.1[1..]);
      if rest.None? then None else Some((Both(term.value.0, rest.value.0), rest.value.1))
  }

  /** A word that would begin another kind of join. */
  predicate HeadOtherJoin(ts: Tokens) {
    ts != [] && ts[0].Keyword? && ts[0].word in {LEFT, RIGHT, FULL, CROSS, NATURAL, OUTER}
  }

  /** From ON to the end of the join. */
  function ParseOn(grouped: bool, ts: Tokens): (r: Parsed<Condition>)
    ensures r.Some? ==> |r.value.1| < |ts|
  {
    if !Head(ts, Keyword(ON)) then None
    else
      var on := ParseCondition(ts[1..]);
      if on.None? || (grouped && !Head(on.value.1, Sign(Close))) then None
      else Some((on.value.0, if grouped then on.value.1[1..] else on.value.1))
  }

  function ParseSource(ts: Tokens): (r: Parsed<Source>)
    ensures r.Some? ==> |r.value.1| < |ts|
  {
    var grouped := Head(ts, Sign(Open));
    var left := ParseRelation(if grouped then ts[1..] else ts);
    if left.None? then None
    else
      var after := left.value.1;
      var inner := Head(after, Keyword(INNER));
      if (if inner then Head(after[1..], Keyword(JOIN)) else Head(after, Keyword(JOIN))) then
        var right := ParseRelation(if inner then after[2..] else after[1..]);
        if right.None? then None
        else
          var on := ParseOn(grouped, right.value.1);
          if on.None? then None else Some((Joined(grouped, inner, left.value.0, right.value.0, on.value.0), on.value.1))
      else if inner || grouped || HeadOtherJoin(after) then None
      else Some((Plain(left.value.0), after))
  }

  function ParseColumns(ts: Tokens): (r: Parsed<seq<Name>>)
    ensures r.Some? ==> r.value.0 != [] && |r.value.1| < |ts|
    decreases |ts|
  {
    var first := ParseName(ts);
    if first.None? then None
    else if !Head(first.value.1, Sign(Comma)) then Some(([first.value.0], first.value.1))
    else
      var rest := ParseColumns(first.value.1[1..]);
      if rest.None? then None else Some(([first.value.0] + rest.value.0, rest.value.1))
  }

  function ParseWhere(ts: Tokens): Option<Option<Condition>> {
    if ts == [] then Some(None)
    else if !Head(ts, Keyword(WHERE)) then None
    else
      var where := ParseCondition(ts[1..]);
      if where.None? || where.value.1 != [] then None else Some(Some(where.value.0))
  }

  /** The whole input. */
  function ParseQuery(ts: Tokens): Option<Query> {
    if !Head(ts, Keyword(SELECT)) then None
    else
      var distinct := Head(ts[1..], Keyword(DISTINCT));
      var columns := ParseColumns(if distinct then ts[2..] else ts[1..]);
      if columns.None? || !Head(columns.value.1, Keyword(FROM)) then None
      else
        var source := ParseSource(columns.value.1[1..]);
        if source.None? then None
        else
          var where := ParseWhere(source.value.1);
          if where.None? then None else Some(Query(distinct, columns.value.0, source.value.0, where.value))
  }

  // -------------------------------------------- what is written is what is read

  lemma Consed(t: Token, rest: Tokens)
    ensures ([t] + rest)[0] == t && ([t] + rest)[1..] == rest
  {
  }

  /** What may come behind a column name. */
  predicate AfterName(rest: Tokens) {
    !Head(rest, Sign(Dot)) && !Head(rest, Sign(Open))
  }

  lemma NameReadBack(n: Name, rest: Tokens)
    requires AfterName(rest)
    ensures ParseName(NameTokens(n) + rest) == Some((n, rest))
  {
    var ts := NameTokens(n) + rest;
    if n.qualifier.Some? {
      assert ts == [Identifier(n.qualifier.value), Sign(Dot), Identifier(n.name)] + rest;
      assert ts[1..][0] == Sign(Dot) && ts[2..][0] == Identifier(n.name) && ts[3..] == rest;
    } else {
      assert ts == [Identifier(n.name)] + rest && ts[1..] == rest;
    }
  }

  lemma OperandReadBack(o: Operand, rest: Tokens)
    requires AfterName(rest)
    ensures ParseOperand(OperandTokens(o) + rest) == Some((o, rest))
  {
    var ts := OperandTokens(o) + rest;
    if o.ColumnOperand? {
      assert ts[0].Identifier?;
      NameReadBack(o.column, rest);
    } else {
      assert ts[1..] == rest;
    }
  }

  predicate AfterCondition(rest: Tokens) {
    AfterName(rest) && !Head(rest, Keyword(AND))
  }

  lemma Regroup3(a: Tokens, b: Tokens, c: Tokens, rest: Tokens)
    ensures a + b + c + rest == a + (b + (c + rest))
  {
  }

  lemma NameFront(n: Name, rest: Tokens)
    ensures HeadIdentifier(NameTokens(n) + rest)
  {
  }

  lemma CompareReadBack(left: Name, right: Operand, rest: Tokens)
    requires AfterName(rest)
    ensures ParseTerm(NameTokens(left) + [Sign(Equal)] + OperandTokens(right) + rest) == Some((Compare(left, right), rest))
  {
    hide NameTokens, OperandTokens, ParseName, ParseOperand;
    var last := OperandTokens(right) + rest;
    var behind := [Sign(Equal)] + last;
    Regroup3(NameTokens(left), [Sign(Equal)], OperandTokens(right), rest);
    NameFront(left, behind);
    NameReadBack(left, behind);
    Consed(Sign(Equal), last);
    OperandReadBack(right, rest);
  }

  lemma GroupReadBack(condition: Condition, rest: Tokens)
    requires ParseCondition(ConditionTokens(condition) + ([Sign(Close)] + rest)) == Some((condition, [Sign(Close)] + rest))
    ensures ParseTerm([Sign(Open)] + ConditionTokens(condition) + [Sign(Close)] + rest) == Some((Group(condition), rest))
  {
    hide ConditionTokens, ParseCondition;
    var behind := [Sign(Close)] + rest;
    var ts := [Sign(Open)] + (ConditionTokens(condition) + behind);
    assert [Sign(Open)] + ConditionTokens(condition) + [Sign(Close)] + rest == ts;
    Consed(Sign(Open), ConditionTokens(condition) + behind);
    Consed(Sign(Close), rest);
  }

  lemma {:induction false} TermReadBack(t: Term, rest: Tokens)
    requires AfterName(rest)
    ensures ParseTerm(TermTokens(t) + rest) == Some((t, rest))
    decreases t, 0
  {
    hide ParseTerm, NameTokens, OperandTokens;
    match t
    case Group(condition) =>
      ConditionReadBack(condition, [Sign(Close)] + rest);
      GroupReadBack(condition, rest);
    case Compare(left, right) => CompareReadBack(left, right, rest);
  }

  lemma {:induction false} ConditionReadBack(c: Condition, rest: Tokens)
    requires AfterCondition(rest)
    ensures ParseCondition(ConditionTokens(c) + rest) == Some((c, rest))
    decreases c, 1
  {
    match c
    case One(term) => TermReadBack(term, rest);
    case Both(term, more) =>
      var behind := [Keyword(AND)] + (ConditionTokens(more) + rest);
      TermReadBack(term, behind);
      assert ConditionTokens(c) + rest == TermTokens(term) + behind;
      Consed(Keyword(AND), ConditionTokens(more) + rest);
      ConditionReadBack(more, rest);
  }

  predicate AfterRelation(rest: Tokens) {
    !Head(rest, Sign(Dot)) && !Head(rest, Keyword(AS)) && !HeadIdentifier(rest)
  }

  lemma AliasReadBack(a: Alias, rest: Tokens)
    requires AfterRelation(rest)
    ensures ParseAlias(AliasTokens(a) + rest) == Some((a, rest))
    ensures !Head(AliasTokens(a) + rest, Sign(Dot))
  {
    var ts := AliasTokens(a) + rest;
    match a
    case NoAlias => assert ts == rest;
    case Named(explicit, name) =>
      if explicit {
        assert ts == [Keyword(AS), Identifier(name)] + rest;
        assert ts[1..][0] == Identifier(name) && ts[2..] == rest;
      } else {
        assert ts == [Identifier(name)] + rest && ts[1..] == rest;
      }
  }

  lemma RelationReadBack(r: Relation, rest: Tokens)
    requires AfterRelation(rest)
    ensures ParseRelation(RelationTokens(r) + rest) == Some((r, rest))
  {
    hide ParseAlias, AliasTokens;
    var ts, behind := RelationTokens(r) + rest, AliasTokens(r.alias) + rest;
    AliasReadBack(r.alias, rest);
    assert ts == [Identifier(r.database), Sign(Dot), Identifier(r.table)] + behind;
    assert ts[1..][0] == Sign(Dot) && ts[2..][0] == Identifier(r.table) && ts[3..] == behind;
  }

  predicate AfterSource(rest: Tokens) {
    AfterRelation(rest) && AfterCondition(rest)
    && !Head(rest, Keyword(INNER)) && !Head(rest, Keyword(JOIN)) && !HeadOtherJoin(rest)
  }

  lemma OnReadBack(grouped: bool, on: Condition, rest: Tokens)
    requires AfterCondition(rest)
    ensures ParseOn(grouped, [Keyword(ON)] + ConditionTokens(on) + (if grouped then [Sign(Close)] else []) + rest)
         == Some((on, rest))
  {
    hide ParseCondition, ConditionTokens;
    var behind := (if grouped then [Sign(Close)] else []) + rest;
    var ts := [Keyword(ON)] + ConditionTokens(on) + (if grouped then [Sign(Close)] else []) + rest;
    assert ts == [Keyword(ON)] + (ConditionTokens(on) + behind);
    Consed(Keyword(ON), ConditionTokens(on) + behind);
    assert grouped ==> behind[1..] == rest;
    assert !grouped ==> behind == rest;
    ConditionReadBack(on, behind);
  }

  /** From the left relation of a join to its end. */
  lemma JoinReadBack(grouped: bool, inner: bool, left: Relation, right: Relation, on: Condition, ending: Tokens, rest: Tokens)
    requires ParseOn(grouped, ending) == Some((on, rest)) && Head(ending, Keyword(ON))
    ensures var front := RelationTokens(left) + (JoinTokens(inner) + (RelationTokens(right) + ending));
            ParseSource(if grouped then [Sign(Open)] + front else front)
              == Some((Joined(grouped, inner, left, right, on), rest))
  {
    hide ParseRelation, RelationTokens, ParseOn, HeadOtherJoin;
    var last := RelationTokens(right) + ending;
    var behind := JoinTokens(inner) + last;
    var front := RelationTokens(left) + behind;
    assert behind[0] == (if inner then Keyword(INNER) else Keyword(JOIN));
    RelationReadBack(left, behind);
    RelationReadBack(right, ending);
    RelationFront(left, behind);
    Consed(Sign(Open), front);
    assert inner ==> behind[1..][0] == Keyword(JOIN) && behind[2..] == last;
    assert !inner ==> behind[1..] == last;
  }

  lemma SourceReadBack(s: Source, rest: Tokens)
    requires AfterSource(rest)
    ensures ParseSource(SourceTokens(s) + rest) == Some((s, rest))
  {
    hide ParseRelation, RelationTokens, ParseOn, ConditionTokens, HeadOtherJoin, AfterCondition, JoinTokens;
    match s
    case Plain(relation) =>
      RelationReadBack(relation, rest);
      RelationFront(relation, rest);
    case Joined(grouped, inner, left, right, on) =>
      hide ParseSource;
      var last := [Keyword(ON)] + ConditionTokens(on) + (if grouped then [Sign(Close)] else []);
      assert (last + rest)[0] == Keyword(ON);
      OnReadBack(grouped, on, rest);
      JoinReadBack(grouped, inner, left, right, on, last + rest, rest);
      Regroup(RelationTokens(left), JoinTokens(inner), RelationTokens(right), last, rest);
  }

  lemma RelationFront(r: Relation, rest: Tokens)
    ensures HeadIdentifier(RelationTokens(r) + rest)
  {
  }

  lemma {:induction false} ColumnsReadBack(columns: seq<Name>, rest: Tokens)
    requires columns != [] && AfterName(rest) && !Head(rest, Sign(Comma))
    ensures ParseColumns(ColumnsTokens(columns) + rest) == Some((columns, rest))
  {
    hide ParseName, NameTokens;
    if |columns| == 1 {
      NameReadBack(columns[0], rest);
      assert [columns[0]] == columns;
    } else {
      var behind := [Sign(Comma)] + (ColumnsTokens(columns[1..]) + rest);
      NameReadBack(columns[0], behind);
      assert ColumnsTokens(columns) + rest == NameTokens(columns[0]) + behind;
      Consed(Sign(Comma), ColumnsTokens(columns[1..]) + rest);
      ColumnsReadBack(columns[1..], rest);
      assert [columns[0]] + columns[1..] == columns;
    }
  }

  lemma WhereReadBack(where: Option<Condition>)
    ensures ParseWhere(if where.Some? then [Keyword(WHERE)] + ConditionTokens(where.value) else []) == Some(where)
  {
    hide ParseCondition, ConditionTokens;
    if where.Some? {
      Consed(Keyword(WHERE), ConditionTokens(where.value));
      ConditionReadBack(where.value, []);
      assert ConditionTokens(where.value) + [] == ConditionTokens(where.value);
    }
  }

  /** Every query, written with any choice of optional words and parentheses, is read back
      as it was written. */
  lemma QueryReadBack(q: Query)
    requires q.columns != []
    ensures ParseQuery(QueryTokens(q)) == Some(q)
  {
    hide ParseColumns, ColumnsTokens, ParseSource, SourceTokens, ParseWhere, ConditionTokens;
    var ending := if q.where.Some? then [Keyword(WHERE)] + ConditionTokens(q.where.value) else [];
    var behind := [Keyword(FROM)] + (SourceTokens(q.source) + ending);
    var front := ColumnsTokens(q.columns) + behind;
    var ts := QueryTokens(q);
    SourceReadBack(q.source, ending);
    ColumnsReadBack(q.columns, behind);
    WhereReadBack(q.where);
    Consed(Keyword(FROM), SourceTokens(q.source) + ending);
    ColumnsFront(q.columns, behind);
    Consed(Keyword(SELECT), if q.distinct then [Keyword(DISTINCT)] + front else front);
    Consed(Keyword(DISTINCT), front);
    assert q.distinct ==> ts[2..] == ts[1..][1..];
  }

  lemma ColumnsFront(columns: seq<Name>, rest: Tokens)
    requires columns != []
    ensures HeadIdentifier(ColumnsTokens(columns) + rest)
  {
    var first := NameTokens(columns[0]);
    assert first[0].Identifier? && ColumnsTokens(columns)[0] == first[0];
  }

  // -------------------------------------------- what is read is what is written

  lemma NameWritten(ts: Tokens)
    requires ParseName(ts).Some?
    ensures NameTokens(ParseName(ts).value.0) + ParseName(ts).value.1 == ts
  {
    var (name, rest) := ParseName(ts).value;
    if name.qualifier.Some? {
      assert ts == [ts[0], ts[1], ts[2]] + ts[3..];
    } else {
      assert ts == [ts[0]] + ts[1..];
    }
  }

  lemma RelationWritten(ts: Tokens)
    requires ParseRelation(ts).Some?
    ensures RelationTokens(ParseRelation(ts).value.0) + ParseRelation(ts).value.1 == ts
  {
    AliasWritten(ts[3..]);
    hide ParseAlias, AliasTokens;
    assert ts == [ts[0], ts[1], ts[2]] + ts[3..];
  }

  lemma AliasWritten(ts: Tokens)
    requires ParseAlias(ts).Some?
    ensures AliasTokens(ParseAlias(ts).value.0) + ParseAlias(ts).value.1 == ts
  {
    if Head(ts, Keyword(AS)) {
      assert ts == [ts[0], ts[1]] + ts[2..];
    } else if HeadIdentifier(ts) {
      assert ts == [ts[0]] + ts[1..];
    }
  }

  lemma OperandWritten(ts: Tokens)
    requires ParseOperand(ts).Some?
    ensures OperandTokens(ParseOperand(ts).value.0) + ParseOperand(ts).value.1 == ts
  {
    var operand := ParseOperand(ts).value.0;
    if operand.ColumnOperand? {
      NameWritten(ts);
    } else {
      assert ts == [ts[0]] + ts[1..];
    }
  }

  lemma {:induction false} TermWritten(ts: Tokens)
    requires ParseTerm(ts).Some?
    ensures TermTokens(ParseTerm(ts).value.0) + ParseTerm(ts).value.1 == ts
    decreases |ts|, 0
  {
    var (term, rest) := ParseTerm(ts).value;
    if Head(ts, Sign(Open)) {
      ConditionWritten(ts[1..]);
      var (inner, behind) := ParseCondition(ts[1..]).value;
      assert ts == [Sign(Open)] + ts[1..] && behind == [Sign(Close)] + rest;
      Regroup3([Sign(Open)], ConditionTokens(inner), [Sign(Close)], rest);
    } else {
      NameWritten(ts);
      var (left, behind) := ParseName(ts).value;
      OperandWritten(behind[1..]);
      assert behind == [Sign(Equal)] + behind[1..];
      Regroup3(NameTokens(left), [Sign(Equal)], OperandTokens(term.right), rest);
    }
  }

  lemma {:induction false} ConditionWritten(ts: Tokens)
    requires ParseCondition(ts).Some?
    ensures ConditionTokens(ParseCondition(ts).value.0) + ParseCondition(ts).value.1 == ts
    decreases |ts|, 1
  {
    hide TermTokens;
    TermWritten(ts);
    var (term, behind) := ParseTerm(ts).value;
    if Head(behind, Keyword(AND)) {
      ConditionWritten(behind[1..]);
      var (more, rest) := ParseCondition(behind[1..]).value;
      assert behind == [Keyword(AND)] + behind[1..];
      Regroup3(TermTokens(term), [Keyword(AND)], ConditionTokens(more), rest);
    }
  }

  lemma OnWritten(grouped: bool, ts: Tokens)
    requires ParseOn(grouped, ts).Some?
    ensures [Keyword(ON)] + ConditionTokens(ParseOn(grouped, ts).value.0) + (if grouped then [Sign(Close)] else [])
            + ParseOn(grouped, ts).value.1 == ts
  {
    hide ConditionTokens, ParseCondition;
    ConditionWritten(ts[1..]);
    var (on, behind) := ParseCondition(ts[1..]).value;
    var (_, rest) := ParseOn(grouped, ts).value;
    var close: Tokens := if grouped then [Sign(Close)] else [];
    assert ts == [Keyword(ON)] + ts[1..] && behind == close + rest;
    Regroup3([Keyword(ON)], ConditionTokens(on), close, rest);
  }

  lemma SourceWritten(ts: Tokens)
    requires ParseSource(ts).Some?
    ensures SourceTokens(ParseSource(ts).value.0) + ParseSource(ts).value.1 == ts
  {
    hide RelationTokens, ParseRelation, ConditionTokens, ParseOn, HeadOtherJoin;
    var (source, rest) := ParseSource(ts).value;
    var grouped := Head(ts, Sign(Open));
    var front := if grouped then ts[1..] else ts;
    RelationWritten(front);
    var (left, after) := ParseRelation(front).value;
    if source.Joined? {
      var inner := source.inner;
      var behind := if inner then after[2..] else after[1..];
      RelationWritten(behind);
      var (right, ending) := ParseRelation(behind).value;
      OnWritten(grouped, ending);
      var last := [Keyword(ON)] + ConditionTokens(source.on) + (if grouped then [Sign(Close)] else []);
      assert after == JoinTokens(inner) + behind by { JoinWritten(inner, after); }
      Regroup(RelationTokens(left), JoinTokens(inner), RelationTokens(right), last, rest);
      assert grouped ==> ts == [Sign(Open)] + front;
    }
  }

  lemma JoinWritten(inner: bool, after: Tokens)
    requires if inner then Head(after, Keyword(INNER)) && Head(after[1..], Keyword(JOIN)) else Head(after, Keyword(JOIN))
    ensures JoinTokens(inner) + (if inner then after[2..] else after[1..]) == after
  {
    if inner {
      assert after == [after[0], after[1]] + after[2..];
    }
  }

  lemma {:induction false} ColumnsWritten(ts: Tokens)
    requires ParseColumns(ts).Some?
    ensures ColumnsTokens(ParseColumns(ts).value.0) + ParseColumns(ts).value.1 == ts
    decreases |ts|
  {
    hide NameTokens, ParseName;
    NameWritten(ts);
    var (first, behind) := ParseName(ts).value;
    if Head(behind, Sign(Comma)) {
      ColumnsWritten(behind[1..]);
      var (more, rest) := ParseColumns(behind[1..]).value;
      var all := [first] + more;
      assert all[1..] == more && behind == [Sign(Comma)] + behind[1..];
      Regroup3(NameTokens(first), [Sign(Comma)], ColumnsTokens(more), rest);
    }
  }

  lemma WhereWritten(ts: Tokens)
    requires ParseWhere(ts).Some?
    ensures var where := ParseWhere(ts).value;
            (if where.Some? then [Keyword(WHERE)] + ConditionTokens(where.value) else []) == ts
  {
    hide ConditionTokens, ParseCondition;
    if ts != [] {
      ConditionWritten(ts[1..]);
      assert ts == [Keyword(WHERE)] + ts[1..];
      var where := ParseCondition(ts[1..]).value.0;
      assert ConditionTokens(where) + [] == ConditionTokens(where);
    }
  }

  /** Nothing else is accepted: the tokens of an accepted query are the query as written. */
  lemma QueryWritten(ts: Tokens)
    requires ParseQuery(ts).Some?
    ensures ParseQuery(ts).value.columns != [] && QueryTokens(ParseQuery(ts).value) == ts
  {
    hide ColumnsTokens, ParseColumns, SourceTokens, ParseSource, ConditionTokens, ParseWhere;
    var q := ParseQuery(ts).value;
    var front := if q.distinct then ts[2..] else ts[1..];
    ColumnsWritten(front);
    var behind := ParseColumns(front).value.1;
    SourceWritten(behind[1..]);
    WhereWritten(ParseSource(behind[1..]).value.1);
    assert behind == [Keyword(FROM)] + behind[1..];
    assert ts == [Keyword(SELECT)] + ts[1..];
    assert q.distinct ==> ts[1..] == [Keyword(DISTINCT)] + front;
  }

  /** The parser and the grammar agree on every token list. */
  lemma ParsesExactly(ts: Tokens, q: Query)
    ensures ParseQuery(ts) == Some(q) <==> q.columns != [] && QueryTokens(q) == ts
  {
    hide QueryTokens, ParseQuery;
    if ParseQuery(ts) == Some(q) {
      QueryWritten(ts);
    }
    if q.columns != [] && QueryTokens(q) == ts {
      QueryReadBack(q);
    }
  }
}
