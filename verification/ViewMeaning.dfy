/** What the tokens of a view are on its characters, and what its parentheses and names must be on
    its tokens. */
module ViewMeaning {
  import opened Common
  import opened SqlLexer
  import opened SqlTokens
  import opened ViewGrammar
  import opened ViewLexer
  import opened ViewPrinter

  // -------------------------------------------------------------------- spellings

  /** The words the grammar has a name for. */
  const OF_GRAMMAR: set<string> := {
    "SELECT", "DISTINCT", "FROM", "WHERE", "INNER", "JOIN", "ON", "AS", "AND", "TRUE", "FALSE", "LEFT", "RIGHT", "FULL",
    "CROSS", "NATURAL", "OUTER" }

  /** No identifier may be one of these, in any case. */
  predicate IsReserved(upper: string) {
    upper in OF_GRAMMAR || upper in OTHER_RESERVED
  }

  /** A word is the reserved text it is named by. */
  predicate IsWord(upper: string, word: Word) {
    IsReserved(upper) && WordText(word) == upper && (word.Reserved? ==> upper !in OF_GRAMMAR)
  }

  lemma WordExactly(upper: string, word: Word)
    ensures WordOf(upper) == Some(word) <==> IsWord(upper, word)
    ensures WordOf(upper).Some? <==> IsReserved(upper)
  {
    hide WordOf, WordText;
    GrammarIsWord(upper);
    OtherIsWord(upper);
    if WordOf(upper).Some? {
      WordIs(upper);
      if IsWord(upper, word) {
        OneWord(upper, word, WordOf(upper).value);
      }
    }
  }

  lemma GrammarIsWord(upper: string)
    ensures upper in OF_GRAMMAR ==> WordOf(upper).Some?
  {
  }

  lemma OtherIsWord(upper: string)
    ensures upper in OTHER_RESERVED ==> WordOf(upper).Some?
  {
    hide OTHER_RESERVED;
  }

  lemma WordIs(upper: string)
    requires WordOf(upper).Some?
    ensures WordText(WordOf(upper).value) == upper && IsReserved(upper)
    ensures WordOf(upper).value.Reserved? ==> upper !in OF_GRAMMAR
  {
    hide OTHER_RESERVED;
  }

  lemma OneWord(upper: string, v: Word, w: Word)
    requires WordText(v) == WordText(w) == upper
    requires (v.Reserved? ==> upper !in OF_GRAMMAR) && (w.Reserved? ==> upper !in OF_GRAMMAR)
    ensures v == w
  {
    if v.Reserved? || w.Reserved? {
      assert !v.Reserved? ==> WordText(v) in OF_GRAMMAR;
      assert !w.Reserved? ==> WordText(w) in OF_GRAMMAR;
    } else {
      WordTextOnce(v, w);
    }
  }

  lemma WordTextOnce(v: Word, w: Word)
    requires !v.Reserved? && !w.Reserved? && WordText(v) == WordText(w)
    ensures v == w
  {
    var a, b := WordText(v), WordText(w);
    assert |a| == |b| && a[0] == b[0] && a[1] == b[1];
  }

  /** The text in capitals: every letter is the capital or its small letter. */
  predicate Capitalizes(text: string, upper: string) {
    |text| == |upper| && forall i :: 0 <= i < |text| ==>
      if 'a' <= text[i] <= 'z' then upper[i] as int == text[i] as int - 32 else upper[i] == text[i]
  }

  lemma UpperExactly(text: string, upper: string)
    ensures Upper(text) == upper <==> Capitalizes(text, upper)
  {
    if Capitalizes(text, upper) {
      forall i | 0 <= i < |text|
        ensures Upper(text)[i] == upper[i]
      {
      }
    }
  }

  predicate LowerName(text: string) {
    && text != [] && !('0' <= text[0] <= '9')
    && forall i :: 0 <= i < |text| ==> 'a' <= text[i] <= 'z' || '0' <= text[i] <= '9' || text[i] == '_'
  }

  /** How a token is written: a keyword as a word in any case; an identifier in small letters that is no keyword; a
      literal as a text in quotes, its own quotes doubled; a sign. */
  ghost predicate IsWritten(text: string, token: Token) {
    match token
    case Keyword(word) => WholeWord(text, |text|) && exists upper :: Capitalizes(text, upper) && IsWord(upper, word)
    case Identifier(name) => text == name && LowerName(name) && forall upper :: Capitalizes(text, upper) ==> !IsReserved(upper)
    case Literal(raw) => text == raw && exists content :: IsLiteral(raw, content)
    case Sign(symbol) =>
      text == match symbol case Dot => "." case Comma => "," case Equal => "=" case Open => "(" case Close => ")"
  }

  predicate IsLiteral(raw: string, content: string) {
    2 <= |raw| && raw[0] == '\'' && raw[1..|raw| - 1] == Doubled(content, '\'') && raw[|raw| - 1] == '\''
  }

  /** Behind an opening quote: a doubled text and a quote that is not one of a pair. */
  predicate Ends(s: string, n: nat, content: string) {
    0 < n <= |s| && s[..n - 1] == Doubled(content, '\'') && s[n - 1] == '\'' && (n < |s| ==> s[n] != '\'')
  }

  lemma {:induction false} LiteralText(s: string) returns (content: string)
    requires LiteralLength(s).Some?
    ensures Ends(s, LiteralLength(s).value, content)
  {
    var n := LiteralLength(s).value;
    if s[0] == '\'' {
      if 2 <= |s| && s[1] == '\'' {
        var rest := LiteralText(s[2..]);
        content := ['\''] + rest;
        assert content[1..] == rest && s[..n - 1] == ['\'', '\''] + s[2..][..n - 3];
      } else {
        content := [];
        assert s[..0] == [];
      }
    } else {
      var rest := LiteralText(s[1..]);
      content := [s[0]] + rest;
      assert content[1..] == rest && s[..n - 1] == [s[0]] + s[1..][..n - 2];
    }
  }

  lemma {:induction false} TextLiteral(s: string, n: nat, content: string)
    requires Ends(s, n, content)
    ensures LiteralLength(s) == Some(n)
    decreases |content|
  {
    if content == [] {
      assert s[..n - 1] == [] && n == 1;
    } else {
      var more := Doubled(content[1..], '\'');
      var w := if content[0] == '\'' then ['\'', '\''] else [content[0]];
      assert Doubled(content, '\'') == w + more && s[..n - 1] == w + more;
      assert forall k :: 0 <= k < |w| ==> s[k] == s[..n - 1][k] == w[k];
      var rest := s[|w|..];
      assert rest[..n - 1 - |w|] == s[..n - 1][|w|..] == more;
      TextLiteral(rest, n - |w|, content[1..]);
    }
  }

  lemma LiteralExactly(raw: string)
    ensures Spells(raw, Literal(raw)) <==> exists content :: IsLiteral(raw, content)
  {
    hide Spells, IsLiteral;
    if Spells(raw, Literal(raw)) {
      var content := SpelledLiteral(raw);
    }
    forall content | IsLiteral(raw, content)
      ensures Spells(raw, Literal(raw))
    {
      LiteralSpelled(raw, content);
    }
  }

  lemma SpelledLiteral(raw: string) returns (content: string)
    requires Spells(raw, Literal(raw))
    ensures IsLiteral(raw, content)
  {
    hide LiteralLength, Doubled;
    content := LiteralText(raw[1..]);
    assert raw[1..][..|raw| - 2] == raw[1..|raw| - 1];
  }

  lemma LiteralSpelled(raw: string, content: string)
    requires IsLiteral(raw, content)
    ensures Spells(raw, Literal(raw))
  {
    hide LiteralLength, Doubled;
    assert raw[1..][..|raw| - 2] == raw[1..|raw| - 1];
    TextLiteral(raw[1..], |raw| - 1, content);
  }

  lemma WholeWordExactly(text: string)
    ensures text != [] && Letter(text[0]) && WordLength(text) == |text| <==> WholeWord(text, |text|)
  {
    hide WordLength;
    SqlTokens.WordExactly(text, |text|);
  }

  lemma LowerNameExactly(name: string)
    ensures WholeWord(name, |name|) && LowerWord(name) <==> LowerName(name)
  {
    if LowerName(name) {
      assert forall i :: 0 <= i < |name| ==> InWord(name[i]);
    }
    if LowerWord(name) {
      assert forall i :: 0 <= i < |name| ==> name[i] in name;
    }
  }

  /** The spellings of the lexer are exactly these. */
  lemma SpellsExactly(text: string, token: Token)
    ensures Spells(text, token) <==> IsWritten(text, token)
  {
    hide WordLength, LiteralLength, WordOf, Upper, Capitalizes, WholeWord, LowerName, LowerWord, IsLiteral, IsWord, Letter;
    WholeWordExactly(text);
    UpperExactly(text, Upper(text));
    forall upper | Capitalizes(text, upper)
      ensures Upper(text) == upper
    {
      UpperExactly(text, upper);
    }
    match token
    case Keyword(word) =>
      WordExactly(Upper(text), word);
    case Identifier(name) =>
      WordExactly(Upper(text), SELECT);
      LowerNameExactly(text);
    case Literal(raw) => LiteralExactly(raw);
    case Sign(symbol) =>
  }

  // ------------------------------------------------------------------ parentheses

  /** How many parentheses are open behind the first `i` tokens. */
  function OpenAt(ts: Tokens, i: nat): int
    requires i <= |ts|
  {
    multiset(ts[..i])[Sign(Open)] as int - multiset(ts[..i])[Sign(Close)] as int
  }

  function Step(t: Token): int {
    if t == Sign(Open) then 1 else if t == Sign(Close) then -1 else 0
  }

  lemma OpenStep(ts: Tokens, i: nat)
    requires ts != [] && i <= |ts| - 1
    ensures OpenAt(ts, i + 1) == Step(ts[0]) + OpenAt(ts[1..], i)
    ensures OpenAt(ts, 0) == 0
  {
    assert ts[..i + 1] == [ts[0]] + ts[1..][..i];
  }

  /** Between none and four are open everywhere, counting from `depth`. */
  predicate Balanced(ts: Tokens, depth: int) {
    forall i :: 0 <= i <= |ts| ==> 0 <= depth + OpenAt(ts, i) <= 4
  }

  lemma BalancedStep(ts: Tokens, depth: nat)
    requires ts != [] && depth <= 4
    ensures Balanced(ts, depth) <==> Balanced(ts[1..], depth + Step(ts[0]))
    ensures OpenAt(ts, |ts|) == Step(ts[0]) + OpenAt(ts[1..], |ts| - 1)
  {
    hide OpenAt, Step;
    forall i | 0 <= i <= |ts| - 1
      ensures OpenAt(ts, i + 1) == Step(ts[0]) + OpenAt(ts[1..], i)
    {
      OpenStep(ts, i);
    }
    OpenStep(ts, 0);
    if Balanced(ts[1..], depth + Step(ts[0])) {
      forall i | 0 <= i <= |ts|
        ensures 0 <= depth + OpenAt(ts, i) <= 4
      {
        assert 0 < i ==> OpenAt(ts, i - 1 + 1) == Step(ts[0]) + OpenAt(ts[1..], i - 1);
      }
    }
    if Balanced(ts, depth) {
      forall i | 0 <= i <= |ts[1..]|
        ensures 0 <= depth + Step(ts[0]) + OpenAt(ts[1..], i) <= 4
      {
        assert 0 <= depth + OpenAt(ts, i + 1) <= 4;
      }
    }
  }

  lemma NoneOpen(ts: Tokens)
    ensures OpenAt(ts, 0) == 0
  {
  }

  lemma {:induction false} DepthRuns(ts: Tokens, depth: nat, end: nat)
    requires depth <= 4
    ensures DepthAfter(ts, depth) == Some(end) <==> depth + OpenAt(ts, |ts|) == end && Balanced(ts, depth)
  {
    hide OpenAt;
    NoneOpen(ts);
    if ts != [] {
      hide Balanced;
      BalancedStep(ts, depth);
      NoneOpen(ts[1..]);
      var next := depth + Step(ts[0]);
      if 0 <= next <= 4 {
        DepthRuns(ts[1..], next, end);
      } else {
        NotBalanced(ts[1..], next);
      }
    }
  }

  lemma NotBalanced(ts: Tokens, depth: int)
    requires !(0 <= depth <= 4)
    ensures !Balanced(ts, depth)
  {
    assert OpenAt(ts, 0) == 0;
  }

  /** Exactly which tokens are accepted: never more closed than opened, never more than four open, and
      none left open. */
  lemma DepthExactly(ts: Tokens)
    ensures DepthAfter(ts, 0) == Some(0) <==>
      OpenAt(ts, |ts|) == 0 && forall i :: 0 <= i <= |ts| ==> 0 <= OpenAt(ts, i) <= 4
  {
    DepthRuns(ts, 0, 0);
  }

  // ------------------------------------------------------------------------ aliases

  predicate IsDot(ts: Tokens, i: int) {
    0 <= i < |ts| && ts[i] == Sign(Dot)
  }

  /** A name begins at `i`, and what it is qualified by is among the aliases. */
  predicate BoundAt(ts: Tokens, aliases: seq<Option<string>>, i: int)
    requires 0 <= i < |ts|
  {
    ts[i].Identifier? && !IsDot(ts, i - 1) ==> (if IsDot(ts, i + 1) then Some(ts[i].text) else None) in aliases
  }

  predicate Bound(ts: Tokens, aliases: seq<Option<string>>) {
    forall i :: 0 <= i < |ts| ==> BoundAt(ts, aliases, i)
  }

  lemma BoundConcat(a: Tokens, b: Tokens, aliases: seq<Option<string>>)
    requires a != [] ==> a[|a| - 1] != Sign(Dot)
    requires b != [] ==> b[0] != Sign(Dot)
    ensures Bound(a + b, aliases) <==> Bound(a, aliases) && Bound(b, aliases)
  {
    var all := a + b;
    forall i | 0 <= i < |a|
      ensures BoundAt(all, aliases, i) <==> BoundAt(a, aliases, i)
    {
    }
    forall i | 0 <= i < |b|
      ensures BoundAt(all, aliases, |a| + i) <==> BoundAt(b, aliases, i)
    {
    }
    if Bound(a, aliases) && Bound(b, aliases) {
      forall i | 0 <= i < |all|
        ensures BoundAt(all, aliases, i)
      {
        assert |a| <= i ==> BoundAt(b, aliases, i - |a|);
      }
    }
    if Bound(all, aliases) {
      forall i | 0 <= i < |b|
        ensures BoundAt(b, aliases, i)
      {
        assert BoundAt(all, aliases, |a| + i);
      }
    }
  }

  /** Tokens that can stand next to others without making or breaking a qualified name. */
  predicate Loose(ts: Tokens) {
    ts != [] && ts[0] != Sign(Dot) && ts[|ts| - 1] != Sign(Dot)
  }

  predicate Qualifies(aliases: seq<Option<string>>, names: seq<Name>) {
    forall n | n in names :: n.qualifier in aliases
  }

  lemma NameBound(n: Name, aliases: seq<Option<string>>)
    ensures Loose(NameTokens(n)) && (Bound(NameTokens(n), aliases) <==> n.qualifier in aliases)
  {
    var ts := NameTokens(n);
    if n.qualifier.Some? {
      assert ts == [Identifier(n.qualifier.value), Sign(Dot), Identifier(n.name)];
      assert BoundAt(ts, aliases, 0) <==> n.qualifier in aliases;
      assert BoundAt(ts, aliases, 1) && BoundAt(ts, aliases, 2);
    } else {
      assert ts == [Identifier(n.name)];
      assert BoundAt(ts, aliases, 0) <==> n.qualifier in aliases;
    }
  }

  lemma OneBound(t: Token, aliases: seq<Option<string>>)
    requires !t.Identifier?
    ensures Bound([t], aliases)
  {
  }

  lemma OperandBound(o: Operand, aliases: seq<Option<string>>)
    ensures Loose(OperandTokens(o)) && (Bound(OperandTokens(o), aliases) <==> Qualifies(aliases, OperandNames(o)))
  {
    match o
    case ColumnOperand(column) => NameBound(column, aliases);
    case TextOperand(raw) => OneBound(Literal(raw), aliases);
    case BooleanOperand(value) => OneBound(Keyword(if value then TRUE else FALSE), aliases);
  }

  lemma QualifiesBoth(aliases: seq<Option<string>>, a: seq<Name>, b: seq<Name>)
    ensures Qualifies(aliases, a + b) <==> Qualifies(aliases, a) && Qualifies(aliases, b)
  {
    if Qualifies(aliases, a + b) {
      assert forall n | n in a :: n in a + b;
      assert forall n | n in b :: n in a + b;
    }
  }

  lemma {:induction false} TermBound(t: Term, aliases: seq<Option<string>>)
    ensures Loose(TermTokens(t)) && (Bound(TermTokens(t), aliases) <==> Qualifies(aliases, References(TermNode(t))))
    decreases t, 0
  {
    match t
    case Group(condition) =>
      ConditionBound(condition, aliases);
      var inner := ConditionTokens(condition);
      OneBound(Sign(Open), aliases);
      OneBound(Sign(Close), aliases);
      BoundConcat([Sign(Open)], inner, aliases);
      BoundConcat([Sign(Open)] + inner, [Sign(Close)], aliases);
      ReferencesOf(Nodes(condition));
    case Compare(left, right) =>
      NameBound(left, aliases);
      OperandBound(right, aliases);
      OneBound(Sign(Equal), aliases);
      BoundConcat(NameTokens(left), [Sign(Equal)], aliases);
      BoundConcat(NameTokens(left) + [Sign(Equal)], OperandTokens(right), aliases);
      QualifiesBoth(aliases, [left], OperandNames(right));
  }

  /** Grouping changes nothing about the names. */
  lemma ReferencesOf(nodes: seq<Node>)
    requires nodes != []
    ensures References(Together(nodes)) == AllReferences(nodes)
  {
    if |nodes| == 1 {
      assert nodes[1..] == [] && References(nodes[0]) + [] == References(nodes[0]);
    }
  }

  lemma {:induction false} ConditionBound(c: Condition, aliases: seq<Option<string>>)
    ensures Loose(ConditionTokens(c)) && (Bound(ConditionTokens(c), aliases) <==> Qualifies(aliases, AllReferences(Nodes(c))))
    decreases c, 1
  {
    match c
    case One(term) =>
      TermBound(term, aliases);
      assert AllReferences([TermNode(term)]) == References(TermNode(term)) + [] == References(TermNode(term));
    case Both(term, rest) =>
      TermBound(term, aliases);
      ConditionBound(rest, aliases);
      OneBound(Keyword(AND), aliases);
      BoundConcat(TermTokens(term), [Keyword(AND)], aliases);
      BoundConcat(TermTokens(term) + [Keyword(AND)], ConditionTokens(rest), aliases);
      assert Nodes(c)[1..] == Nodes(rest) && Nodes(c)[0] == TermNode(term);
      QualifiesBoth(aliases, References(TermNode(term)), AllReferences(Nodes(rest)));
  }

  lemma {:induction false} ColumnsBound(columns: seq<Name>, aliases: seq<Option<string>>)
    requires columns != []
    ensures Loose(ColumnsTokens(columns)) && (Bound(ColumnsTokens(columns), aliases) <==> Qualifies(aliases, columns))
  {
    NameBound(columns[0], aliases);
    if |columns| == 1 {
      assert columns == [columns[0]];
    } else {
      ColumnsBound(columns[1..], aliases);
      OneBound(Sign(Comma), aliases);
      BoundConcat(NameTokens(columns[0]), [Sign(Comma)], aliases);
      BoundConcat(NameTokens(columns[0]) + [Sign(Comma)], ColumnsTokens(columns[1..]), aliases);
      assert columns == [columns[0]] + columns[1..];
      QualifiesBoth(aliases, [columns[0]], columns[1..]);
    }
  }

  function AliasOf(r: Relation): Option<string> {
    match r.alias
    case NoAlias => None
    case Named(_, name) => Some(name)
  }

  /** The aliases as they are written; in a join both are there, and different. */
  predicate Declares(s: Source, aliases: seq<Option<string>>) {
    match s
    case Plain(relation) => aliases == [AliasOf(relation)]
    case Joined(_, _, left, right, _) =>
      aliases == [AliasOf(left), AliasOf(right)] && aliases[0].Some? && aliases[1].Some? && aliases[0] != aliases[1]
  }

  /** Exactly which queries have sound aliases, said of what is written: the relations declare them, and
      every name in the columns, behind ON and behind WHERE is qualified by one of them. */
  lemma AliasesExactly(q: Query)
    requires q.columns != []
    ensures AliasesOk(Meaning(q)) <==>
      exists aliases :: Declares(q.source, aliases) && AllBound(q, aliases)
  {
    hide ColumnsTokens, ConditionTokens, Bound, References, Nodes;
    var aliases := Aliases(Meaning(q).source);
    BoundExactly(q, aliases);
    assert (exists a :: Declares(q.source, a)) ==> Declares(q.source, aliases);
    assert AliasesOk(Meaning(q)) <==> Declares(q.source, aliases) && AllBound(q, aliases);
  }

  predicate AllBound(q: Query, aliases: seq<Option<string>>) {
    && Bound(ColumnsTokens(q.columns), aliases)
    && (q.source.Joined? ==> Bound(ConditionTokens(q.source.on), aliases))
    && (q.where.Some? ==> Bound(ConditionTokens(q.where.value), aliases))
  }

  lemma BoundExactly(q: Query, aliases: seq<Option<string>>)
    requires q.columns != []
    ensures AllBound(q, aliases) <==>
      && Qualifies(aliases, q.columns)
      && (q.source.Joined? ==> Qualifies(aliases, References(ConditionNode(q.source.on))))
      && Qualifies(aliases, MaybeReferences(Meaning(q).where))
  {
    hide ColumnsTokens, ConditionTokens, Bound, References, Nodes, Qualifies;
    ColumnsBound(q.columns, aliases);
    if q.source.Joined? {
      ConditionBound(q.source.on, aliases);
      ReferencesOf(Nodes(q.source.on));
    }
    if q.where.Some? {
      ConditionBound(q.where.value, aliases);
      ReferencesOf(Nodes(q.where.value));
    }
    NothingQualified(aliases);
  }

  lemma NothingQualified(aliases: seq<Option<string>>)
    ensures Qualifies(aliases, [])
  {
  }
}
