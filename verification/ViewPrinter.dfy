/** The printer `view_structure` undoes: from a structure to a text. It prints every structure
    the reader returns. */
module ViewPrinter {
  import opened Common
  import opened SqlLexer
  import opened ViewGrammar
  import opened ViewParser
  import opened ViewLexer
  import opened ViewReader

  // ---------------------------------------------------------------- spelling tokens

  function WordText(word: Word): string {
    match word
    case SELECT => "SELECT"
    case DISTINCT => "DISTINCT"
    case FROM => "FROM"
    case WHERE => "WHERE"
    case INNER => "INNER"
    case JOIN => "JOIN"
    case ON => "ON"
    case AS => "AS"
    case AND => "AND"
    case TRUE => "TRUE"
    case FALSE => "FALSE"
    case LEFT => "LEFT"
    case RIGHT => "RIGHT"
    case FULL => "FULL"
    case CROSS => "CROSS"
    case NATURAL => "NATURAL"
    case OUTER => "OUTER"
    case Reserved(text) => text
  }

  function Spelling(token: Token): string {
    match token
    case Keyword(word) => WordText(word)
    case Identifier(text) => text
    case Literal(raw) => raw
    case Sign(symbol) => [SignText(symbol)]
  }

  /** The lexer reads the spelling of the token as that token. */
  predicate Lexes(token: Token) {
    Spells(Spelling(token), token)
  }

  predicate Capitals(s: string) {
    forall c | c in s :: 'A' <= c <= 'Z'
  }

  lemma UpperSame(s: string)
    requires Capitals(s)
    ensures Upper(s) == s
  {
    forall i | 0 <= i < |s|
      ensures Upper(s)[i] == s[i]
    {
      assert s[i] in s;
    }
  }

  lemma {:induction false} CapitalsAreOneWord(s: string)
    requires Capitals(s)
    ensures WordLength(s) == |s|
  {
    if s != [] {
      assert s[0] in s && forall c | c in s[1..] :: c in s;
      CapitalsAreOneWord(s[1..]);
    }
  }

  /** The words the grammar writes. */
  predicate Written(word: Word) {
    word in {SELECT, DISTINCT, FROM, WHERE, INNER, JOIN, ON, AS, AND, TRUE, FALSE}
  }

  lemma WordCapitals(word: Word)
    requires Written(word)
    ensures Capitals(WordText(word)) && WordText(word) != []
  {
  }

  lemma WordBack(word: Word)
    requires Written(word)
    ensures WordOf(WordText(word)) == Some(word)
  {
  }

  lemma WordSpelled(word: Word)
    requires Written(word)
    ensures Lexes(Keyword(word))
  {
    hide WordText, WordOf, Written, Upper, WordLength, Capitals, LiteralLength;
    var text := WordText(word);
    WordCapitals(word);
    CapitalsFront(text);
    WordBack(word);
    UpperSame(text);
    CapitalsAreOneWord(text);
  }

  lemma CapitalsFront(s: string)
    requires Capitals(s) && s != []
    ensures Letter(s[0])
  {
    assert s[0] in s;
  }

  predicate AllLex(ts: Tokens) {
    forall token | token in ts :: Lexes(token)
  }

  /** One space in front of every token. */
  function Spaced(ts: Tokens): seq<Piece> {
    if ts == [] then [] else [Piece(" ", Spelling(ts[0]), ts[0])] + Spaced(ts[1..])
  }

  lemma {:induction false} SpacedLaid(ts: Tokens)
    requires AllLex(ts)
    ensures Laid(Spaced(ts)) && TokensOf(Spaced(ts)) == ts
  {
    hide Spelling, Spells, Glues;
    if ts != [] {
      assert ts[0] in ts && Lexes(ts[0]) && Spells(Spelling(ts[0]), ts[0]);
      SpacedLaid(ts[1..]);
      assert Spaced(ts)[1..] == Spaced(ts[1..]);
      assert 1 < |ts| ==> Spaced(ts[1..])[0].gap == " ";
    }
  }

  // ------------------------------------------------------- what a structure is made of

  predicate NameLexes(n: Name) {
    (n.qualifier.Some? ==> Lexes(Identifier(n.qualifier.value))) && Lexes(Identifier(n.name))
  }

  predicate OperandLexes(o: Operand) {
    match o
    case ColumnOperand(column) => NameLexes(column)
    case TextOperand(raw) => Lexes(Literal(raw))
    case BooleanOperand(_) => true
  }

  predicate NodeLexes(node: Node) {
    match node
    case Equals(left, right) => NameLexes(left) && OperandLexes(right)
    case AllOf(nodes) => forall n | n in nodes :: NodeLexes(n)
  }

  predicate NodesLex(nodes: seq<Node>) {
    forall n | n in nodes :: NodeLexes(n)
  }

  predicate TableLexes(t: Table) {
    && Lexes(Identifier(t.database)) && Lexes(Identifier(t.table))
    && (t.alias.Some? ==> Lexes(Identifier(t.alias.value)))
  }

  predicate ShapeLexes(s: Shape) {
    match s
    case Single(table) => TableLexes(table)
    case InnerJoin(left, right, on) => TableLexes(left) && TableLexes(right) && NodeLexes(on)
  }

  /** Every name and literal of the structure is one the lexer reads as itself. */
  predicate StructureLexes(v: Structure) {
    && (forall c | c in v.columns :: NameLexes(c))
    && ShapeLexes(v.source)
    && (v.where.Some? ==> NodeLexes(v.where.value))
  }

  lemma AllLexJoin(a: Tokens, b: Tokens)
    ensures AllLex(a + b) <==> AllLex(a) && AllLex(b)
  {
    hide Lexes;
    assert forall t | t in a :: t in a + b;
    assert forall t | t in b :: t in a + b;
  }

  lemma NameTokensLex(n: Name)
    ensures AllLex(NameTokens(n)) <==> NameLexes(n)
  {
    hide Lexes, AllLex;
    SignsLex();
    LexOne(Identifier(n.name));
    if n.qualifier.Some? {
      AllLexJoin([Identifier(n.qualifier.value), Sign(Dot)], [Identifier(n.name)]);
      LexOne(Identifier(n.qualifier.value));
      AllLexJoin([Identifier(n.qualifier.value)], [Sign(Dot)]);
      assert [Identifier(n.qualifier.value)] + [Sign(Dot)] == [Identifier(n.qualifier.value), Sign(Dot)];
    } else {
      assert [] + [Identifier(n.name)] == [Identifier(n.name)];
    }
  }

  lemma LexOne(token: Token)
    ensures AllLex([token]) <==> Lexes(token)
  {
    hide Lexes;
    assert token in [token];
  }

  lemma OperandTokensLex(o: Operand)
    ensures AllLex(OperandTokens(o)) <==> OperandLexes(o)
  {
    hide Lexes, AllLex, Written;
    WordsLex();
    match o
    case ColumnOperand(column) => NameTokensLex(column);
    case TextOperand(raw) => LexOne(Literal(raw));
    case BooleanOperand(_) =>
  }

  lemma SignsLex()
    ensures AllLex([Sign(Open)]) && AllLex([Sign(Close)]) && AllLex([Sign(Equal)]) && AllLex([Sign(Comma)])
    ensures AllLex([Sign(Dot)]) && AllLex([])
  {
  }

  lemma WordLexes(word: Word)
    requires Written(word)
    ensures AllLex([Keyword(word)])
  {
    hide Lexes;
    WordSpelled(word);
  }

  lemma WordsLex()
    ensures AllLex([Keyword(AND)]) && AllLex([Keyword(ON)]) && AllLex([Keyword(FROM)]) && AllLex([Keyword(WHERE)])
    ensures AllLex([Keyword(SELECT)]) && AllLex([Keyword(DISTINCT)]) && AllLex([Keyword(AS)])
    ensures AllLex([Keyword(INNER)]) && AllLex([Keyword(JOIN)])
    ensures AllLex([Keyword(TRUE)]) && AllLex([Keyword(FALSE)])
  {
    hide AllLex;
    WordLexes(AND);
    WordLexes(ON);
    WordLexes(FROM);
    WordLexes(WHERE);
    WordLexes(SELECT);
    WordLexes(DISTINCT);
    WordLexes(AS);
    WordLexes(INNER);
    WordLexes(JOIN);
    WordLexes(TRUE);
    WordLexes(FALSE);
  }

  lemma TogetherLexes(nodes: seq<Node>)
    requires nodes != []
    ensures NodeLexes(Together(nodes)) <==> NodesLex(nodes)
  {
    if |nodes| == 1 {
      assert nodes[0] in nodes;
    }
  }

  lemma {:induction false} TermTokensLex(t: Term)
    ensures AllLex(TermTokens(t)) <==> NodeLexes(TermNode(t))
    decreases t, 0
  {
    hide Lexes, NodesLex, NodeLexes, AllLex;
    SignsLex();
    WordsLex();
    match t
    case Compare(left, right) =>
      NameTokensLex(left);
      OperandTokensLex(right);
      AllLexJoin(NameTokens(left), [Sign(Equal)]);
      AllLexJoin(NameTokens(left) + [Sign(Equal)], OperandTokens(right));
      EqualsLexes(left, right);
    case Group(condition) =>
      ConditionTokensLex(condition);
      AllLexJoin([Sign(Open)], ConditionTokens(condition));
      AllLexJoin([Sign(Open)] + ConditionTokens(condition), [Sign(Close)]);
      TogetherLexes(Nodes(condition));
  }

  lemma EqualsLexes(left: Name, right: Operand)
    ensures NodeLexes(Equals(left, right)) <==> NameLexes(left) && OperandLexes(right)
  {
  }

  lemma {:induction false} ConditionTokensLex(c: Condition)
    ensures AllLex(ConditionTokens(c)) <==> NodesLex(Nodes(c))
    decreases c, 1
  {
    hide Lexes, NodeLexes, AllLex;
    SignsLex();
    WordsLex();
    TermTokensLex(c.term);
    match c
    case One(term) => assert TermNode(term) in Nodes(c);
    case Both(term, rest) =>
      ConditionTokensLex(rest);
      AllLexJoin(TermTokens(term), [Keyword(AND)]);
      AllLexJoin(TermTokens(term) + [Keyword(AND)], ConditionTokens(rest));
      assert Nodes(c) == [TermNode(term)] + Nodes(rest) && TermNode(term) in Nodes(c);
      assert forall n | n in Nodes(rest) :: n in Nodes(c);
  }

  lemma ConditionLexes(c: Condition)
    ensures AllLex(ConditionTokens(c)) <==> NodeLexes(ConditionNode(c))
  {
    hide AllLex, NodesLex, NodeLexes;
    ConditionTokensLex(c);
    TogetherLexes(Nodes(c));
  }

  lemma RelationLexes(r: Relation)
    ensures AllLex(RelationTokens(r)) <==> TableLexes(TableOf(r))
  {
    hide Lexes, AllLex;
    SignsLex();
    WordsLex();
    var front := [Identifier(r.database), Sign(Dot), Identifier(r.table)];
    LexOne(Identifier(r.database));
    LexOne(Identifier(r.table));
    AllLexJoin([Identifier(r.database)], [Sign(Dot)]);
    AllLexJoin([Identifier(r.database)] + [Sign(Dot)], [Identifier(r.table)]);
    assert [Identifier(r.database)] + [Sign(Dot)] + [Identifier(r.table)] == front;
    AllLexJoin(front, AliasTokens(r.alias));
    if r.alias.Named? {
      LexOne(Identifier(r.alias.name));
      AllLexJoin(if r.alias.explicit then [Keyword(AS)] else [], [Identifier(r.alias.name)]);
    }
  }

  lemma SourceLexes(s: Source)
    ensures AllLex(SourceTokens(s)) <==> ShapeLexes(ShapeOf(s))
  {
    hide AllLex, Lexes, NodeLexes, TableLexes, ConditionTokens, RelationTokens;
    SignsLex();
    WordsLex();
    match s
    case Plain(relation) => RelationLexes(relation);
    case Joined(grouped, inner, left, right, on) =>
      RelationLexes(left);
      RelationLexes(right);
      ConditionLexes(on);
      var end := if grouped then [Sign(Close)] else [];
      var on' := [Keyword(ON)] + ConditionTokens(on) + end;
      AllLexJoin([Keyword(ON)], ConditionTokens(on));
      AllLexJoin([Keyword(ON)] + ConditionTokens(on), end);
      AllLexJoin(RelationTokens(right), on');
      AllLexJoin(if inner then [Keyword(INNER)] else [], [Keyword(JOIN)]);
      AllLexJoin(JoinTokens(inner), RelationTokens(right) + on');
      var join := RelationTokens(left) + (JoinTokens(inner) + (RelationTokens(right) + on'));
      AllLexJoin(RelationTokens(left), JoinTokens(inner) + (RelationTokens(right) + on'));
      AllLexJoin([Sign(Open)], join);
  }

  lemma {:induction false} ColumnsLex(columns: seq<Name>)
    ensures AllLex(ColumnsTokens(columns)) <==> forall c | c in columns :: NameLexes(c)
  {
    hide AllLex, NameLexes, NameTokens;
    SignsLex();
    WordsLex();
    if columns != [] {
      NameTokensLex(columns[0]);
      assert columns == [columns[0]] + columns[1..];
      if 1 < |columns| {
        ColumnsLex(columns[1..]);
        AllLexJoin(NameTokens(columns[0]), [Sign(Comma)]);
        AllLexJoin(NameTokens(columns[0]) + [Sign(Comma)], ColumnsTokens(columns[1..]));
      }
    }
  }

  /** The tokens of a query are ones the lexer reads exactly when the names and literals of its
      structure are. */
  lemma QueryLexes(q: Query)
    ensures AllLex(QueryTokens(q)) <==> StructureLexes(Meaning(q))
  {
    hide AllLex, NameLexes, NodeLexes, ShapeLexes, ColumnsTokens, SourceTokens, ConditionTokens;
    SignsLex();
    WordsLex();
    ColumnsLex(q.columns);
    SourceLexes(q.source);
    var where := if q.where.Some? then [Keyword(WHERE)] + ConditionTokens(q.where.value) else [];
    if q.where.Some? {
      ConditionLexes(q.where.value);
      AllLexJoin([Keyword(WHERE)], ConditionTokens(q.where.value));
    }
    var from := [Keyword(FROM)] + (SourceTokens(q.source) + where);
    AllLexJoin(SourceTokens(q.source), where);
    AllLexJoin([Keyword(FROM)], SourceTokens(q.source) + where);
    AllLexJoin(ColumnsTokens(q.columns), from);
    AllLexJoin([Keyword(DISTINCT)], ColumnsTokens(q.columns) + from);
    AllLexJoin([Keyword(SELECT)], if q.distinct then [Keyword(DISTINCT)] + (ColumnsTokens(q.columns) + from)
                                  else ColumnsTokens(q.columns) + from);
  }

  // ----------------------------------------------------------------- the printer

  /** What can be printed: well formed, with names and literals the lexer reads as themselves. */
  predicate Printable(v: Structure) {
    WellFormed(v) && StructureLexes(v)
  }

  /** The text of a structure: every optional word, no redundant parentheses, single spaces. */
  function Print(v: Structure): string
    requires Printable(v)
  {
    Text(Spaced(QueryTokens(Printed(v))), [])
  }

  /** `view_structure` is a left inverse of the printer: the printed text gives the structure back
      when it is within the limits and its aliases are sound, and is refused otherwise. */
  lemma PrintReadBack(v: Structure)
    requires Printable(v)
    ensures ViewStructure(Print(v)) == if FitsLimits(Print(v), Printed(v)) && AliasesOk(v) then Some(v) else None
  {
    hide QueryTokens, FitsLimits, ViewStructure, AliasesOk, WellNode, Laid, Text, Spaced, AllLex, StructureLexes, Printed;
    PrintedMeans(v);
    PrintedColumns(v);
    QueryLexes(Printed(v));
    SpacedLaid(QueryTokens(Printed(v)));
    LayoutMeans(Spaced(QueryTokens(Printed(v))), [], Printed(v));
  }

  lemma PrintedColumns(v: Structure)
    requires WellFormed(v)
    ensures Printed(v).columns != []
  {
  }

  // ------------------------------------------------ and it prints all that is read

  lemma {:induction false} UpperKeeps(s: string)
    ensures WordLength(Upper(s)) == WordLength(s)
  {
    if s != [] {
      assert Upper(s)[1..] == Upper(s[1..]);
      UpperKeeps(s[1..]);
    }
  }

  lemma UpperTwice(s: string)
    ensures Upper(Upper(s)) == Upper(s)
  {
  }

  lemma WordOfText(upper: string)
    requires WordOf(upper).Some?
    ensures WordText(WordOf(upper).value) == upper
  {
  }

  lemma SpelledLexes(text: string, token: Token)
    requires Spells(text, token)
    ensures Lexes(token)
  {
    hide WordLength, LiteralLength, WordOf, WordText;
    if token.Keyword? {
      UpperKeeps(text);
      UpperTwice(text);
      WordOfText(Upper(text));
    }
  }

  lemma {:induction false} LaidLexes(pieces: seq<Piece>)
    requires Laid(pieces)
    ensures AllLex(TokensOf(pieces))
  {
    hide Spells, Lexes, Glues;
    if pieces != [] {
      assert TokensOf(pieces) == [pieces[0].token] + TokensOf(pieces[1..]);
      SpelledLexes(pieces[0].text, pieces[0].token);
      LaidLexes(pieces[1..]);
    }
  }

  lemma {:induction false} TermWell(t: Term)
    ensures WellNode(TermNode(t))
    decreases t, 0
  {
    if t.Group? {
      ConditionWell(t.condition);
    }
  }

  lemma {:induction false} ConditionWell(c: Condition)
    ensures forall n | n in Nodes(c) :: WellNode(n)
    ensures WellNode(ConditionNode(c))
    decreases c, 1
  {
    TermWell(c.term);
    if c.Both? {
      ConditionWell(c.rest);
    }
  }

  lemma MeaningWell(q: Query)
    requires q.columns != []
    ensures WellFormed(Meaning(q))
  {
    hide WellNode, ConditionNode;
    if q.source.Joined? {
      ConditionWell(q.source.on);
    }
    if q.where.Some? {
      ConditionWell(q.where.value);
    }
  }

  /** Every structure the reader returns can be printed, so printing and reading back is a normal
      form of the text: it has the same structure unless the optional words pass a limit. */
  lemma AcceptedIsPrintable(sql: string)
    requires ViewStructure(sql).Some?
    ensures var v := ViewStructure(sql).value;
            && Printable(v) && AliasesOk(v)
            && ViewStructure(Print(v)) == if FitsLimits(Print(v), Printed(v)) then Some(v) else None
  {
    hide *;
    StructureIsWritten(sql);
    var q, pieces, tail :| && Laid(pieces) && Spaces(tail) && Text(pieces, tail) == sql
      && TokensOf(pieces) == QueryTokens(q) && q.columns != [] && FitsLimits(sql, q)
      && AliasesOk(Meaning(q)) && ViewStructure(sql) == Some(Meaning(q));
    LaidLexes(pieces);
    QueryLexes(q);
    MeaningWell(q);
    PrintableIs(Meaning(q));
    PrintReadBack(Meaning(q));
  }

  lemma PrintableIs(v: Structure)
    requires WellFormed(v) && StructureLexes(v)
    ensures Printable(v)
  {
  }
}
