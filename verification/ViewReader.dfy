/** `view_structure` of `athena_run.py` as it runs: the lexer's loop, the parser object with
    its index, and what the whole promises about texts. */
module ViewReader {
  import opened Common
  import opened SqlLexer
  import opened ViewGrammar
  import opened ViewParser
  import opened ViewLexer

  /** `view_structure`. */
  function ViewStructure(sql: string): Option<Structure> {
    var ts := Lexemes(sql);
    if ts.None? then None
    else
      var q := ParseQuery(ts.value);
      if q.None? || !AliasesOk(Meaning(q.value)) then None else Some(Meaning(q.value))
  }

  // --------------------------------------------------------------- the promises

  /** The text fits the limits, which a caller can see without parsing. */
  predicate FitsLimits(sql: string, q: Query) {
    0 < Utf8Size(sql) <= VIEW_SQL_LIMIT && |QueryTokens(q)| <= VIEW_TOKEN_LIMIT && QueryDepth(q) <= DEPTH
  }

  /** Any layout of any writing of a query, within the limits, gives the structure of the query:
      white space, keyword case, optional words and redundant parentheses change nothing. */
  lemma LayoutMeans(pieces: seq<Piece>, tail: string, q: Query)
    requires Laid(pieces) && Spaces(tail) && TokensOf(pieces) == QueryTokens(q) && q.columns != []
    ensures ViewStructure(Text(pieces, tail))
         == if FitsLimits(Text(pieces, tail), q) && AliasesOk(Meaning(q)) then Some(Meaning(q)) else None
  {
    hide Laid, QueryTokens, QueryDepth, ParseQuery, Raw, Meaning, AliasesOk, Text, TokensOf, DepthAfter, Utf8Size;
    LayoutRead(pieces, tail);
    QueryDepthIs(q);
    QueryReadBack(q);
  }

  /** And nothing else is accepted. */
  lemma StructureIsWritten(sql: string)
    requires ViewStructure(sql).Some?
    ensures exists q, pieces, tail ::
      && Laid(pieces) && Spaces(tail) && Text(pieces, tail) == sql && TokensOf(pieces) == QueryTokens(q)
      && q.columns != [] && FitsLimits(sql, q) && AliasesOk(Meaning(q)) && ViewStructure(sql) == Some(Meaning(q))
  {
    hide Laid, QueryTokens, QueryDepth, ParseQuery, Raw, Meaning, AliasesOk, Text, TokensOf, PiecesOf, DepthAfter, Utf8Size;
    var ts := Lexemes(sql).value;
    var q := ParseQuery(ts).value;
    QueryWritten(ts);
    QueryDepthIs(q);
    TextLaid(sql);
    var (pieces, tail) := PiecesOf(sql);
  }

  /** Two accepted texts have the same structure exactly when their queries differ only in
      optional INNER and AS and in parentheses that return the same node. */
  lemma SameStructureExactly(a: string, b: string)
    requires ViewStructure(a).Some? && ViewStructure(b).Some?
    ensures var p, q := ParseQuery(Lexemes(a).value).value, ParseQuery(Lexemes(b).value).value;
            ViewStructure(a) == ViewStructure(b) <==> Normal(p) == Normal(q)
  {
    hide ParseQuery, Lexemes, Meaning, Normal, AliasesOk;
    SameMeaningExactly(ParseQuery(Lexemes(a).value).value, ParseQuery(Lexemes(b).value).value);
  }

  /** Every well-formed structure, written out and laid out in any way within the limits, is read
      back; `ViewPrinter` has such a layout for each of them. */
  lemma PrintedReadBack(v: Structure, pieces: seq<Piece>, tail: string)
    requires WellFormed(v) && AliasesOk(v) && Laid(pieces) && Spaces(tail)
    requires TokensOf(pieces) == QueryTokens(Printed(v)) && FitsLimits(Text(pieces, tail), Printed(v))
    ensures ViewStructure(Text(pieces, tail)) == Some(v)
  {
    hide Laid, QueryTokens, FitsLimits, ViewStructure, AliasesOk, WellNode;
    PrintedMeans(v);
    LayoutMeans(pieces, tail, Printed(v));
  }

  // ------------------------------------------------------------- the lexer's loop

  /** Lexing `rest` completes what was lexed so far. */
  predicate Resumes(whole: Option<Tokens>, tokens: Tokens, rest: string) {
    whole == if Raw(rest).Some? then Some(tokens + Raw(rest).value) else None
  }

  lemma {:induction false} DepthOfMore(ts: Tokens, more: Tokens, depth: nat)
    ensures DepthAfter(ts + more, depth)
         == if DepthAfter(ts, depth).Some? then DepthAfter(more, DepthAfter(ts, depth).value) else None
  {
    if ts == [] {
      assert ts + more == more;
    } else {
      assert (ts + more)[0] == ts[0] && (ts + more)[1..] == ts[1..] + more;
      if ts[0] == Sign(Open) {
        if depth < DEPTH {
          DepthOfMore(ts[1..], more, depth + 1);
        }
      } else if ts[0] == Sign(Close) {
        if 0 < depth {
          DepthOfMore(ts[1..], more, depth - 1);
        }
      } else {
        DepthOfMore(ts[1..], more, depth);
      }
    }
  }

  lemma OneDeeper(token: Token, depth: nat)
    requires depth <= DEPTH
    ensures DepthAfter([token], depth)
         == if token == Sign(Open) then (if depth < DEPTH then Some(depth + 1) else None)
            else if token == Sign(Close) then (if depth == 0 then None else Some(depth - 1)) else Some(depth)
  {
    assert [token][1..] == [];
  }

  lemma ResumeOne(sql: string, tokens: Tokens, rest: string, depth: nat)
    requires rest != [] && !Space(rest[0]) && Resumes(Raw(sql), tokens, rest)
    requires |tokens| <= VIEW_TOKEN_LIMIT && depth <= DEPTH && DepthAfter(tokens, 0) == Some(depth)
    ensures TokenAt(rest).None? ==> Raw(sql).None?
    ensures TokenAt(rest).Some? ==>
      var (token, n) := TokenAt(rest).value;
      && Resumes(Raw(sql), tokens + [token], rest[n..])
      && DepthAfter(tokens + [token], 0) == DepthAfter([token], depth)
      && (DepthAfter([token], depth).None? || VIEW_TOKEN_LIMIT < |tokens + [token]| ==> Lexemes(sql).None?)
  {
    hide TokenAt, Utf8Size, DepthAfter;
    if TokenAt(rest).Some? {
      var (token, n) := TokenAt(rest).value;
      DepthOfMore(tokens, [token], 0);
      if Raw(rest[n..]).Some? {
        var more := Raw(rest[n..]).value;
        assert tokens + [token] + more == tokens + ([token] + more);
        DepthOfMore(tokens + [token], more, 0);
      }
    }
  }

  /** The literal loop, from behind the opening quote to behind the closing one. */
  method LiteralStop(sql: string, start: nat) returns (stop: Option<nat>)
    requires start <= |sql|
    ensures stop == (if LiteralLength(sql[start..]).Some? then Some(start + LiteralLength(sql[start..]).value) else None)
  {
    var position := start;
    while position < |sql| && (sql[position] != '\'' || (position + 1 < |sql| && sql[position + 1] == '\''))
      invariant start <= position <= |sql|
      invariant LiteralLength(sql[start..]).Some? <==> LiteralLength(sql[position..]).Some?
      invariant LiteralLength(sql[start..]).Some? ==>
        LiteralLength(sql[start..]).value == position - start + LiteralLength(sql[position..]).value
    {
      assert sql[position..][1..] == sql[position + 1..];
      if sql[position] == '\'' {
        assert sql[position..][2..] == sql[position + 2..];
        position := position + 2;
      } else {
        position := position + 1;
      }
    }
    stop := if position < |sql| then Some(position + 1) else None;
  }

  method NextToken(sql: string, position: nat) returns (r: Option<(Token, nat)>)
    requires position < |sql| && !Space(sql[position])
    ensures r == (if TokenAt(sql[position..]).Some?
                  then Some((TokenAt(sql[position..]).value.0, position + TokenAt(sql[position..]).value.1)) else None)
  {
    hide WordToken, WordLength, LiteralLength;
    var s := sql[position..];
    assert s[1..] == sql[position + 1..];
    if Letter(s[0]) {
      var stop := WordStop(sql, position + 1);
      assert sql[position..stop] == s[..stop - position];
      var token := WordToken(sql[position..stop]);
      r := if token.None? then None else Some((token.value, stop));
    } else if s[0] == '\'' {
      var stop := LiteralStop(sql, position + 1);
      if stop.None? {
        return None;
      }
      assert sql[position..stop.value] == s[..stop.value - position];
      r := Some((Literal(sql[position..stop.value]), stop.value));
    } else {
      var sign := SignOf(s[0]);
      r := if sign.None? then None else Some((Sign(sign.value), position + 1));
    }
  }

  /** `_view_lexemes`: depth and count are checked token by token. */
  method Lex(sql: string) returns (r: Option<Tokens>)
    ensures r == Lexemes(sql)
  {
    if !(0 < Utf8Size(sql) <= VIEW_SQL_LIMIT) {
      return None;
    }
    var tokens: Tokens, position: nat, depth: nat := [], 0, 0;
    assert sql[0..] == sql && (Raw(sql).Some? ==> [] + Raw(sql).value == Raw(sql).value);
    hide TokenAt, Utf8Size;
    while position < |sql|
      invariant position <= |sql| && Resumes(Raw(sql), tokens, sql[position..])
      invariant |tokens| <= VIEW_TOKEN_LIMIT && depth <= DEPTH && DepthAfter(tokens, 0) == Some(depth)
      decreases |sql| - position
    {
      if Space(sql[position]) {
        assert sql[position..][1..] == sql[position + 1..];
        position := position + 1;
        continue;
      }
      ResumeOne(sql, tokens, sql[position..], depth);
      var next := NextToken(sql, position);
      if next.None? {
        return None;
      }
      var (token, stop) := next.value;
      OneDeeper(token, depth);
      if (token == Sign(Open) && depth == DEPTH) || (token == Sign(Close) && depth == 0) {
        return None;
      }
      depth := if token == Sign(Open) then depth + 1 else if token == Sign(Close) then depth - 1 else depth;
      assert sql[position..][stop - position..] == sql[stop..];
      tokens := tokens + [token];
      position := stop;
      if VIEW_TOKEN_LIMIT < |tokens| {
        return None;
      }
    }
    assert tokens + [] == tokens;
    r := if depth != 0 then None else Some(tokens);
  }

  // --------------------------------------------------------- the parser object

  /** What a condition parses into: its nodes, and the tokens behind it. */
  function ParseNodes(ts: Tokens): Option<(seq<Node>, Tokens)> {
    var c := ParseCondition(ts);
    if c.None? then None else Some((Nodes(c.value.0), c.value.1))
  }

  /** The loop of terms: what follows the first one. */
  function ParseMore(ts: Tokens): Option<(seq<Node>, Tokens)> {
    if Head(ts, Keyword(AND)) then ParseNodes(ts[1..]) else Some(([], ts))
  }

  function Before<T>(done: seq<T>, more: Option<(seq<T>, Tokens)>): Option<(seq<T>, Tokens)> {
    if more.None? then None else Some((done + more.value.0, more.value.1))
  }

  lemma NodesStep(ts: Tokens)
    ensures ParseNodes(ts) == (var t := ParseTerm(ts);
                               if t.None? then None else Before([TermNode(t.value.0)], ParseMore(t.value.1)))
  {
    var t := ParseTerm(ts);
    hide ParseTerm, TermNode;
    if t.Some? {
      assert [TermNode(t.value.0)] + [] == [TermNode(t.value.0)];
    }
  }

  lemma BeforeBefore<T>(a: seq<T>, b: seq<T>, more: Option<(seq<T>, Tokens)>)
    ensures Before(a, Before(b, more)) == Before(a + b, more)
  {
    if more.Some? {
      assert a + b + more.value.0 == a + (b + more.value.0);
    }
  }

  function ColumnsMore(ts: Tokens): Option<(seq<Name>, Tokens)> {
    if Head(ts, Sign(Comma)) then ParseColumns(ts[1..]) else Some(([], ts))
  }

  lemma ColumnsStep(ts: Tokens)
    ensures ParseColumns(ts) == (var n := ParseName(ts);
                                 if n.None? then None else Before([n.value.0], ColumnsMore(n.value.1)))
  {
    var n := ParseName(ts);
    hide ParseName;
    if n.Some? {
      assert [n.value.0] + [] == [n.value.0];
    }
  }

  class Parser {
    const tokens: Tokens
    var index: nat

    constructor (tokens: Tokens)
      ensures this.tokens == tokens && index == 0
    {
      this.tokens, index := tokens, 0;
    }

    ghost predicate Valid() reads this { index <= |tokens| }

    function Rest(): Tokens
      reads this
      requires Valid()
    {
      tokens[index..]
    }

    function Peek(token: Token): (b: bool)
      reads this
      requires Valid()
      ensures b == Head(Rest(), token)
    {
      index < |tokens| && tokens[index] == token
    }

    function PeekIdentifier(): (b: bool)
      reads this
      requires Valid()
      ensures b == HeadIdentifier(Rest())
    {
      index < |tokens| && tokens[index].Identifier?
    }

    method Advance()
      requires index < |tokens|
      modifies this
      ensures Valid() && index == old(index) + 1 && Rest() == old(Rest())[1..]
    {
      index := index + 1;
    }

    method Accept(token: Token) returns (b: bool)
      requires Valid()
      modifies this
      ensures Valid() && old(index) <= index && b == Head(old(Rest()), token)
      ensures if b then index == old(index) + 1 && Rest() == old(Rest())[1..] else index == old(index)
    {
      b := Peek(token);
      if b {
        Advance();
      }
    }

    method TakeIdentifier() returns (r: Option<string>)
      requires Valid()
      modifies this
      ensures Valid() && old(index) <= index && r.Some? == HeadIdentifier(old(Rest()))
      ensures if r.Some? then index == old(index) + 1 && Rest() == old(Rest())[1..] && r.value == old(Rest())[0].text
              else index == old(index)
    {
      if !PeekIdentifier() {
        return None;
      }
      r := Some(tokens[index].text);
      Advance();
    }

    method Column() returns (r: Option<Name>)
      requires Valid()
      modifies this
      ensures Valid() && old(index) <= index
      ensures var p := ParseName(old(Rest()));
              if r.Some? then p == Some((r.value, Rest())) && old(index) < index else p.None?
    {
      var first := TakeIdentifier();
      if first.None? {
        return None;
      }
      var name := Name(None, first.value);
      var qualified := Accept(Sign(Dot));
      if qualified {
        var second := TakeIdentifier();
        if second.None? {
          return None;
        }
        name := Name(first, second.value);
      }
      r := if Peek(Sign(Open)) then None else Some(name);
    }

    method ReadRelation() returns (r: Option<Table>)
      requires Valid()
      modifies this
      ensures Valid() && old(index) <= index
      ensures var p := ParseRelation(old(Rest()));
              if r.Some? then p.Some? && r.value == TableOf(p.value.0) && Rest() == p.value.1 else p.None?
    {
      var database := TakeIdentifier();
      if database.None? {
        return None;
      }
      var dot := Accept(Sign(Dot));
      if !dot {
        return None;
      }
      var table := TakeIdentifier();
      if table.None? || Peek(Sign(Dot)) {
        return None;
      }
      var explicit := Accept(Keyword(AS));
      var alias := TakeIdentifier();
      r := if explicit && alias.None? then None else Some(Table(database.value, table.value, alias));
    }

    method ReadOperand() returns (r: Option<Operand>)
      requires Valid()
      modifies this
      ensures Valid() && old(index) <= index
      ensures var p := ParseOperand(old(Rest()));
              if r.Some? then p == Some((r.value, Rest())) else p.None?
    {
      if index < |tokens| && tokens[index].Literal? {
        r := Some(TextOperand(tokens[index].raw));
        Advance();
      } else if Peek(Keyword(FALSE)) || Peek(Keyword(TRUE)) {
        r := Some(BooleanOperand(tokens[index].word == TRUE));
        Advance();
      } else {
        var name := Column();
        r := if name.None? then None else Some(ColumnOperand(name.value));
      }
    }

    method ReadTerm() returns (r: Option<Node>)
      requires Valid()
      modifies this
      ensures Valid() && old(index) <= index
      ensures var p := ParseTerm(old(Rest()));
              if r.Some? then p.Some? && r.value == TermNode(p.value.0) && Rest() == p.value.1 && old(index) < index
              else p.None?
      decreases |tokens| - index, 0
    {
      var open := Accept(Sign(Open));
      if open {
        var inner := ReadCondition();
        if inner.None? {
          return None;
        }
        var close := Accept(Sign(Close));
        return if close then inner else None;
      }
      var left := Column();
      if left.None? {
        return None;
      }
      var equals := Accept(Sign(Equal));
      if !equals {
        return None;
      }
      var right := ReadOperand();
      r := if right.None? then None else Some(Equals(left.value, right.value));
    }

    method ReadCondition() returns (r: Option<Node>)
      requires Valid()
      modifies this
      ensures Valid() && old(index) <= index
      ensures var p := ParseCondition(old(Rest()));
              if r.Some? then p.Some? && r.value == ConditionNode(p.value.0) && Rest() == p.value.1 && old(index) < index
              else p.None?
      decreases |tokens| - index, 1
    {
      hide ParseTerm, TermNode, ParseCondition, Nodes;
      ghost var start := Rest();
      NodesStep(start);
      var first := ReadTerm();
      if first.None? {
        return None;
      }
      var terms := [first.value];
      var more := Accept(Keyword(AND));
      while more
        invariant Valid() && old(index) < index && terms != []
        invariant ParseNodes(start) == Before(terms, if more then ParseNodes(Rest()) else Some(([], Rest())))
        decreases |tokens| - index, if more then 1 else 0
      {
        NodesStep(Rest());
        var next := ReadTerm();
        if next.None? {
          return None;
        }
        ghost var behind := ParseMore(Rest());
        BeforeBefore(terms, [next.value], behind);
        terms := terms + [next.value];
        more := Accept(Keyword(AND));
      }
      assert terms + [] == terms;
      r := Some(if |terms| == 1 then terms[0] else AllOf(terms));
    }

    method ReadSource() returns (r: Option<Shape>)
      requires Valid()
      modifies this
      ensures Valid() && old(index) <= index
      ensures var p := ParseSource(old(Rest()));
              if r.Some? then p.Some? && r.value == ShapeOf(p.value.0) && Rest() == p.value.1 else p.None?
    {
      hide ParseRelation, ParseCondition, TableOf, ConditionNode;
      var grouped := Accept(Sign(Open));
      var left := ReadRelation();
      if left.None? {
        return None;
      }
      var inner := Accept(Keyword(INNER));
      var join := Accept(Keyword(JOIN));
      if !join {
        return if inner || grouped || HeadOtherJoin(Rest()) then None else Some(Single(left.value));
      }
      var right := ReadRelation();
      if right.None? {
        return None;
      }
      var on := Accept(Keyword(ON));
      if !on {
        return None;
      }
      var condition := ReadCondition();
      if condition.None? {
        return None;
      }
      if grouped {
        var close := Accept(Sign(Close));
        if !close {
          return None;
        }
      }
      r := Some(InnerJoin(left.value, right.value, condition.value));
    }

    method ReadColumns() returns (r: Option<seq<Name>>)
      requires Valid()
      modifies this
      ensures Valid() && old(index) <= index
      ensures var p := ParseColumns(old(Rest()));
              if r.Some? then p == Some((r.value, Rest())) else p.None?
    {
      hide ParseName, ParseColumns;
      ghost var start := Rest();
      ColumnsStep(start);
      var first := Column();
      if first.None? {
        return None;
      }
      var columns := [first.value];
      var more := Accept(Sign(Comma));
      while more
        invariant Valid() && old(index) <= index
        invariant ParseColumns(start) == Before(columns, if more then ParseColumns(Rest()) else Some(([], Rest())))
        decreases |tokens| - index, if more then 1 else 0
      {
        ColumnsStep(Rest());
        var next := Column();
        if next.None? {
          return None;
        }
        ghost var behind := ColumnsMore(Rest());
        BeforeBefore(columns, [next.value], behind);
        columns := columns + [next.value];
        more := Accept(Sign(Comma));
      }
      assert columns + [] == columns;
      r := Some(columns);
    }

    method ReadQuery() returns (r: Option<Structure>)
      requires index == 0
      modifies this
      ensures r == (if ParseQuery(tokens).None? then None else Some(Meaning(ParseQuery(tokens).value)))
    {
      hide ParseColumns, ParseSource, ParseCondition, ShapeOf, ConditionNode;
      assert Rest() == tokens;
      var select := Accept(Keyword(SELECT));
      if !select {
        return None;
      }
      var distinct := Accept(Keyword(DISTINCT));
      var columns := ReadColumns();
      if columns.None? {
        return None;
      }
      var from := Accept(Keyword(FROM));
      if !from {
        return None;
      }
      var source := ReadSource();
      if source.None? {
        return None;
      }
      var where: Option<Node> := None;
      var filtered := Accept(Keyword(WHERE));
      if filtered {
        where := ReadCondition();
        if where.None? {
          return None;
        }
      }
      r := if index != |tokens| then None else Some(Structure(distinct, columns.value, source.value, where));
    }
  }

  /** `view_structure`, run. */
  method ReadView(sql: string) returns (r: Option<Structure>)
    ensures r == ViewStructure(sql)
  {
    hide ParseQuery, Meaning, AliasesOk, Lexemes;
    var tokens := Lex(sql);
    if tokens.None? {
      return None;
    }
    var parser := new Parser(tokens.value);
    r := parser.ReadQuery();
    if r.Some? && !AliasesOk(r.value) {
      r := None;
    }
  }
}
