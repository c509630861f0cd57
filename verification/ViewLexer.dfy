/** `_view_lexemes` of `athena_run.py`: keywords in any case, lower-case identifiers, string
    literals as they are, five signs; and what a text laid out from given tokens lexes into. */
module ViewLexer {
  import opened Common
  import opened SqlLexer
  import opened ViewGrammar

  const VIEW_SQL_LIMIT: nat := 65536
  const VIEW_TOKEN_LIMIT: nat := 4096

  predicate Space(c: char) {
    c == ' ' || c == '\t' || c == '\r' || c == '\n'
  }

  function UpperChar(c: char): char {
    if 'a' <= c <= 'z' then c - 'a' + 'A' else c
  }

  function Upper(s: string): string {
    seq(|s|, i requires 0 <= i < |s| => UpperChar(s[i]))
  }

  /** Reserved words no rule of the grammar mentions. */
  const OTHER_RESERVED: set<string> := {
    "ALTER", "BETWEEN", "BY", "CASE", "CAST", "CONSTRAINT", "CREATE", "CUBE", "CURRENT_CATALOG", "CURRENT_DATE",
    "CURRENT_PATH", "CURRENT_ROLE", "CURRENT_SCHEMA", "CURRENT_TIME", "CURRENT_TIMESTAMP", "CURRENT_USER", "DEALLOCATE",
    "DELETE", "DESCRIBE", "DROP", "ELSE", "END", "ESCAPE", "EXCEPT", "EXECUTE", "EXISTS", "EXTRACT", "FOR", "GROUP",
    "GROUPING", "HAVING", "IN", "INSERT", "INTERSECT", "INTO", "IS", "JSON_ARRAY", "JSON_EXISTS", "JSON_OBJECT",
    "JSON_QUERY", "JSON_TABLE", "JSON_VALUE", "LIKE", "LISTAGG", "LOCALTIME", "LOCALTIMESTAMP", "NORMALIZE", "NOT",
    "NULL", "OR", "ORDER", "PREPARE", "RECURSIVE", "ROLLUP", "SKIP", "TABLE", "THEN", "TRIM", "UESCAPE", "UNION",
    "UNNEST", "USING", "VALUES", "WHEN", "WITH", "ALL", "FETCH", "LATERAL", "LIMIT", "OFFSET", "OVER", "TABLESAMPLE",
    "WINDOW" }

  function WordOf(upper: string): Option<Word> {
    if upper == "SELECT" then Some(SELECT) else if upper == "DISTINCT" then Some(DISTINCT)
    else if upper == "FROM" then Some(FROM) else if upper == "WHERE" then Some(WHERE)
    else if upper == "INNER" then Some(INNER) else if upper == "JOIN" then Some(JOIN)
    else if upper == "ON" then Some(ON) else if upper == "AS" then Some(AS) else if upper == "AND" then Some(AND)
    else if upper == "TRUE" then Some(TRUE) else if upper == "FALSE" then Some(FALSE)
    else if upper == "LEFT" then Some(LEFT) else if upper == "RIGHT" then Some(RIGHT)
    else if upper == "FULL" then Some(FULL) else if upper == "CROSS" then Some(CROSS)
    else if upper == "NATURAL" then Some(NATURAL) else if upper == "OUTER" then Some(OUTER)
    else if upper in OTHER_RESERVED then Some(Reserved(upper))
    else None
  }

  predicate LowerWord(s: string) {
    forall c | c in s :: 'a' <= c <= 'z' || Digit(c) || c == '_'
  }

  /** A keyword in any case, or an identifier that must be in lower case. */
  function WordToken(text: string): Option<Token> {
    var word := WordOf(Upper(text));
    if word.Some? then Some(Keyword(word.value)) else if LowerWord(text) then Some(Identifier(text)) else None
  }

  /** Behind the opening quote, up to and with the closing one. */
  function LiteralLength(s: string): (r: Option<nat>)
    ensures r.Some? ==> 0 < r.value <= |s|
  {
    if s == [] then None
    else if s[0] == '\'' then
      if 2 <= |s| && s[1] == '\'' then
        var rest := LiteralLength(s[2..]);
        if rest.None? then None else Some(2 + rest.value)
      else Some(1)
    else
      var rest := LiteralLength(s[1..]);
      if rest.None? then None else Some(1 + rest.value)
  }

  function SignOf(c: char): Option<Symbol> {
    if c == '.' then Some(Dot) else if c == ',' then Some(Comma) else if c == '=' then Some(Equal)
    else if c == '(' then Some(Open) else if c == ')' then Some(Close) else None
  }

  function SignText(s: Symbol): char {
    match s
    case Dot => '.'
    case Comma => ','
    case Equal => '='
    case Open => '('
    case Close => ')'
  }

  /** The token at the front and its length. */
  function TokenAt(s: string): (r: Option<(Token, nat)>)
    requires s != [] && !Space(s[0])
    ensures r.Some? ==> 0 < r.value.1 <= |s|
  {
    if Letter(s[0]) then
      var n := 1 + WordLength(s[1..]);
      var token := WordToken(s[..n]);
      if token.None? then None else Some((token.value, n))
    else if s[0] == '\'' then
      var n := LiteralLength(s[1..]);
      if n.None? then None else Some((Literal(s[..1 + n.value]), 1 + n.value))
    else
      var sign := SignOf(s[0]);
      if sign.None? then None else Some((Sign(sign.value), 1))
  }

  function Raw(s: string): Option<Tokens> {
    if s == [] then Some([])
    else if Space(s[0]) then Raw(s[1..])
    else
      var token := TokenAt(s);
      if token.None? then None
      else
        var rest := Raw(s[token.value.1..]);
        if rest.None? then None else Some([token.value.0] + rest.value)
  }

  /** `_view_lexemes`: within the limits, with balanced parentheses no deeper than four. */
  function Lexemes(sql: string): Option<Tokens> {
    if !(0 < Utf8Size(sql) <= VIEW_SQL_LIMIT) then None
    else
      var ts := Raw(sql);
      if ts.None? || VIEW_TOKEN_LIMIT < |ts.value| || DepthAfter(ts.value, 0) != Some(0) then None else ts
  }

  // -------------------------------------------------------------------- layouts

  /** White space, then the spelling of a token. */
  datatype Piece = Piece(gap: string, text: string, token: Token)

  predicate Spells(text: string, token: Token) {
    match token
    case Literal(raw) => text == raw && 2 <= |raw| && raw[0] == '\'' && LiteralLength(raw[1..]) == Some(|raw| - 1)
    case Sign(symbol) => text == [SignText(symbol)]
    case _ => text != [] && Letter(text[0]) && WordLength(text) == |text| && WordToken(text) == Some(token)
  }

  /** Without white space between them these two would be read as one. */
  predicate Glues(token: Token, next: char) {
    match token
    case Literal(_) => next == '\''
    case Sign(_) => false
    case _ => Letter(next) || Digit(next)
  }

  predicate Spaces(s: string) {
    forall c | c in s :: c in {' ', '\t', '\r', '\n'}
  }

  /** The next piece, if any, begins with white space or does not run into the token. */
  predicate Separate(token: Token, pieces: seq<Piece>) {
    pieces != [] && pieces[0].gap == [] ==> pieces[0].text != [] && !Glues(token, pieces[0].text[0])
  }

  predicate Laid(pieces: seq<Piece>) {
    pieces == []
    || (Spaces(pieces[0].gap) && Spells(pieces[0].text, pieces[0].token)
        && Separate(pieces[0].token, pieces[1..]) && Laid(pieces[1..]))
  }

  function Text(pieces: seq<Piece>, tail: string): string {
    if pieces == [] then tail else pieces[0].gap + (pieces[0].text + Text(pieces[1..], tail))
  }

  function TokensOf(pieces: seq<Piece>): (r: Tokens)
    ensures |r| == |pieces|
  {
    if pieces == [] then [] else [pieces[0].token] + TokensOf(pieces[1..])
  }

  /** What comes behind a token does not run into it. */
  predicate Apart(token: Token, rest: string) {
    rest == [] || !Glues(token, rest[0])
  }

  lemma {:induction false} SkipSpaces(gap: string, rest: string)
    requires Spaces(gap)
    ensures Raw(gap + rest) == Raw(rest)
  {
    if gap == [] {
      assert gap + rest == rest;
    } else {
      assert gap[0] in gap && (gap + rest)[0] == gap[0] && (gap + rest)[1..] == gap[1..] + rest;
      assert forall c | c in gap[1..] :: c in gap;
      SkipSpaces(gap[1..], rest);
    }
  }

  lemma {:induction false} WordThen(text: string, rest: string)
    requires WordLength(text) == |text|
    requires rest == [] || !(Letter(rest[0]) || Digit(rest[0]))
    ensures WordLength(text + rest) == |text|
  {
    if text == [] {
      assert text + rest == rest;
    } else {
      assert (text + rest)[1..] == text[1..] + rest;
      WordThen(text[1..], rest);
    }
  }

  lemma {:induction false} LiteralThen(raw: string, rest: string)
    requires LiteralLength(raw) == Some(|raw|)
    requires rest == [] || rest[0] != '\''
    ensures LiteralLength(raw + rest) == Some(|raw|)
  {
    var all := raw + rest;
    assert all[0] == raw[0] && all[1..] == raw[1..] + rest;
    if raw[0] != '\'' {
      LiteralThen(raw[1..], rest);
    } else if 2 <= |raw| && raw[1] == '\'' {
      assert all[2..] == raw[2..] + rest;
      LiteralThen(raw[2..], rest);
    }
  }

  /** A spelling is read as its token, whatever is set apart behind it. */
  lemma TokenRead(text: string, token: Token, rest: string)
    requires Spells(text, token) && Apart(token, rest)
    ensures text != [] && !Space(text[0]) && TokenAt(text + rest) == Some((token, |text|))
  {
    hide WordToken, WordLength, LiteralLength;
    var all := text + rest;
    assert text != [] && all[0] == text[0] && all[1..] == text[1..] + rest && all[..|text|] == text;
    match token
    case Literal(raw) =>
      LiteralThen(raw[1..], rest);
    case Sign(symbol) =>
    case _ =>
      WordTail(text);
      WordThen(text[1..], rest);
  }

  lemma WordTail(text: string)
    requires text != [] && WordLength(text) == |text|
    ensures WordLength(text[1..]) == |text| - 1
  {
  }

  /** Every layout of given tokens - any white space, any case of its keywords - is lexed
      into those tokens. */
  lemma {:induction false} LayoutRead(pieces: seq<Piece>, tail: string)
    requires Laid(pieces) && Spaces(tail)
    ensures Raw(Text(pieces, tail)) == Some(TokensOf(pieces))
  {
    hide Spells, TokenAt, Glues;
    if pieces == [] {
      SkipSpaces(tail, []);
      assert tail + [] == tail;
    } else {
      var p, more := pieces[0], pieces[1..];
      LayoutRead(more, tail);
      var rest := Text(more, tail);
      RestApart(pieces, tail);
      TokenRead(p.text, p.token, rest);
      SkipSpaces(p.gap, p.text + rest);
      assert (p.text + rest)[|p.text|..] == rest;
    }
  }

  lemma RestApart(pieces: seq<Piece>, tail: string)
    requires Laid(pieces) && Spaces(tail) && pieces != []
    ensures Apart(pieces[0].token, Text(pieces[1..], tail))
  {
    hide Spells;
    var rest := Text(pieces[1..], tail);
    if 1 < |pieces| {
      var q := pieces[1];
      assert pieces[1..][0] == q;
      if q.gap != [] {
        assert q.gap[0] in q.gap && rest[0] == q.gap[0];
      } else {
        assert rest[0] == q.text[0];
      }
    } else if tail != [] {
      assert tail[0] in tail;
    }
  }

  /** The layout a text is. */
  function PiecesOf(s: string): (seq<Piece>, string) {
    if s == [] then ([], [])
    else if Space(s[0]) then
      var (pieces, tail) := PiecesOf(s[1..]);
      if pieces == [] then ([], [s[0]] + tail)
      else ([pieces[0].(gap := [s[0]] + pieces[0].gap)] + pieces[1..], tail)
    else
      var token := TokenAt(s);
      if token.None? then ([], [])
      else
        var (pieces, tail) := PiecesOf(s[token.value.1..]);
        ([Piece([], s[..token.value.1], token.value.0)] + pieces, tail)
  }

  lemma {:induction false} WordWhole(s: string)
    ensures WordLength(s[..WordLength(s)]) == WordLength(s)
    ensures WordLength(s) < |s| ==> !(Letter(s[WordLength(s)]) || Digit(s[WordLength(s)]))
  {
    var n := WordLength(s);
    if 0 < n {
      WordWhole(s[1..]);
      assert s[..n][1..] == s[1..][..n - 1];
    }
  }

  lemma {:induction false} LiteralWhole(s: string)
    requires LiteralLength(s).Some?
    ensures var n := LiteralLength(s).value;
            LiteralLength(s[..n]) == Some(n) && (n < |s| ==> s[n] != '\'')
  {
    var n := LiteralLength(s).value;
    if s[0] != '\'' {
      LiteralWhole(s[1..]);
      assert s[..n][1..] == s[1..][..n - 1];
    } else if 2 <= |s| && s[1] == '\'' {
      LiteralWhole(s[2..]);
      assert s[..n][2..] == s[2..][..n - 2];
    }
  }

  lemma TokenSpelled(s: string)
    requires s != [] && !Space(s[0]) && TokenAt(s).Some?
    ensures var (token, n) := TokenAt(s).value; Spells(s[..n], token) && Apart(token, s[n..])
  {
    hide WordToken, WordLength, LiteralLength;
    var (token, n) := TokenAt(s).value;
    if Letter(s[0]) {
      WordWhole(s[1..]);
      assert s[..n][1..] == s[1..][..n - 1];
      WordWith(s[..n]);
      KeywordOrIdentifier(s[..n]);
    } else if s[0] == '\'' {
      LiteralWhole(s[1..]);
      assert s[..n][1..] == s[1..][..n - 1];
    }
  }

  lemma KeywordOrIdentifier(text: string)
    ensures WordToken(text).Some? ==> WordToken(text).value.Keyword? || WordToken(text).value.Identifier?
  {
    hide WordOf;
  }

  lemma WordWith(text: string)
    requires text != [] && Letter(text[0]) && WordLength(text[1..]) == |text| - 1
    ensures WordLength(text) == |text|
  {
  }

  /** Every accepted text is such a layout of its tokens. */
  lemma {:induction false} TextLaid(s: string)
    requires Raw(s).Some?
    ensures var (pieces, tail) := PiecesOf(s);
            && Laid(pieces) && Spaces(tail)
            && Text(pieces, tail) == s && TokensOf(pieces) == Raw(s).value
  {
    hide Spells, TokenAt, Glues, Laid, Text, TokensOf;
    if s == [] {
      NothingLaid();
    } else {
      if Space(s[0]) {
        TextLaid(s[1..]);
        SpaceLaid(s[0], PiecesOf(s[1..]).0, PiecesOf(s[1..]).1);
        assert s == [s[0]] + s[1..];
      } else {
        var (token, n) := TokenAt(s).value;
        TextLaid(s[n..]);
        TokenSpelled(s);
        TokenLaid(Piece([], s[..n], token), PiecesOf(s[n..]).0, PiecesOf(s[n..]).1);
        assert s == s[..n] + s[n..];
      }
    }
  }

  lemma NothingLaid()
    ensures Laid([]) && Text([], []) == [] && TokensOf([]) == []
  {
  }

  lemma SpaceLaid(c: char, pieces: seq<Piece>, tail: string)
    requires Space(c) && Laid(pieces) && Spaces(tail)
    ensures Spaces([c] + tail)
    ensures pieces == [] ==> Text(pieces, [c] + tail) == [c] + Text(pieces, tail)
    ensures pieces != [] ==>
      var all := [pieces[0].(gap := [c] + pieces[0].gap)] + pieces[1..];
      Laid(all) && Text(all, tail) == [c] + Text(pieces, tail) && TokensOf(all) == TokensOf(pieces)
  {
    hide Spells, Glues;
    if pieces != [] {
      var first := pieces[0];
      var p := first.(gap := [c] + first.gap);
      var all := [p] + pieces[1..];
      assert all[1..] == pieces[1..];
      var rest := first.text + Text(pieces[1..], tail);
      assert [c] + first.gap + rest == [c] + (first.gap + rest);
    }
  }

  lemma TokenLaid(p: Piece, pieces: seq<Piece>, tail: string)
    requires p.gap == [] && Spells(p.text, p.token) && Laid(pieces) && Apart(p.token, Text(pieces, tail))
    ensures var all := [p] + pieces;
            Laid(all) && Text(all, tail) == p.text + Text(pieces, tail) && TokensOf(all) == [p.token] + TokensOf(pieces)
  {
    var all := [p] + pieces;
    assert all[1..] == pieces;
    if pieces != [] && pieces[0].gap == [] {
      SpellsSome(pieces[0].text, pieces[0].token);
      assert Text(pieces, tail)[0] == pieces[0].text[0];
    }
    assert p.gap + (p.text + Text(pieces, tail)) == p.text + Text(pieces, tail);
  }

  lemma SpellsSome(text: string, token: Token)
    requires Spells(text, token)
    ensures text != []
  {
  }
}
