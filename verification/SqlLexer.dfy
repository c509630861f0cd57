/** `execution_tokens` of `athena_run.py`: a lexer that loses nothing but ASCII white space
    between tokens, and whose tokens joined by single spaces are lexed into themselves. */
module SqlLexer {
  import opened Common

  const SQL_LIMIT: nat := 262144

  /** Length of the UTF-8 form. */
  function Utf8(c: char): nat {
    if c < 0x80 as char then 1 else if c < 0x800 as char then 2 else if c < 0x10000 as char then 3 else 4
  }

  function Utf8Size(s: string): nat {
    if s == [] then 0 else Utf8Size(s[..|s| - 1]) + Utf8(s[|s| - 1])
  }

  predicate Blank(c: char) {
    c == ' ' || c == '\t' || c == '\r' || c == '\n' || c == 0x0C as char
  }

  predicate Letter(c: char) {
    'A' <= c <= 'Z' || 'a' <= c <= 'z' || c == '_'
  }

  predicate Digit(c: char) {
    '0' <= c <= '9'
  }

  predicate Quote(c: char) {
    c == '\'' || c == '"' || c == '`'
  }

  predicate Pair(a: char, b: char) {
    || (a == '<' && (b == '>' || b == '='))
    || (a == '>' && b == '=') || (a == '!' && b == '=') || (a == '-' && b == '>') || (a == '|' && b == '|')
  }

  predicate Punctuation(c: char) {
    || c == '.' || c == ',' || c == '(' || c == ')' || c == '[' || c == ']' || c == '<' || c == '>' || c == '='
    || c == '+' || c == '-' || c == '*' || c == '/' || c == '%' || c == '?' || c == ':' || c == ';'
  }

  predicate StartsWith(s: string, a: char, b: char) {
    2 <= |s| && s[0] == a && s[1] == b
  }

  // ----------------------------------------------------------- token lengths

  /** A line comment keeps its newline. */
  function LineLength(s: string): (n: nat)
    ensures n <= |s| && (s != [] ==> 0 < n)
  {
    if s == [] then 0 else if s[0] == '\n' then 1 else 1 + LineLength(s[1..])
  }

  /** Where the first star-slash is. */
  function BlockEnd(s: string): (r: Option<nat>)
    ensures r.Some? ==> r.value + 2 <= |s|
  {
    if |s| < 2 then None
    else if StartsWith(s, '*', '/') then Some(0)
    else
      var rest := BlockEnd(s[1..]);
      if rest.None? then None else Some(1 + rest.value)
  }

  predicate Opens(s: string) {
    exists i :: 0 <= i < |s| - 1 && s[i] == '/' && s[i + 1] == '*'
  }

  /** Behind the opening quote, up to and with the closing one; a doubled quote is content. */
  function QuoteLength(s: string, q: char): (r: Option<nat>)
    ensures r.Some? ==> 0 < r.value <= |s|
  {
    if s == [] || s[0] == '\\' then None
    else if s[0] == q then
      if 2 <= |s| && s[1] == q then
        var rest := QuoteLength(s[2..], q);
        if rest.None? then None else Some(2 + rest.value)
      else Some(1)
    else
      var rest := QuoteLength(s[1..], q);
      if rest.None? then None else Some(1 + rest.value)
  }

  function WordLength(s: string): (n: nat)
    ensures n <= |s|
  {
    if s != [] && (Letter(s[0]) || Digit(s[0])) then 1 + WordLength(s[1..]) else 0
  }

  function DigitLength(s: string): (n: nat)
    ensures n <= |s|
  {
    if s != [] && Digit(s[0]) then 1 + DigitLength(s[1..]) else 0
  }

  function NumberLength(s: string): (n: nat)
    ensures n <= |s|
  {
    var d := DigitLength(s);
    if d + 1 < |s| && s[d] == '.' && Digit(s[d + 1]) then d + 1 + DigitLength(s[d + 1..]) else d
  }

  /** The length of the token at the front, or None when the text is not supported. */
  function TokenLength(s: string): (r: Option<nat>)
    requires s != [] && !Blank(s[0])
    ensures r.Some? ==> 0 < r.value <= |s|
  {
    if StartsWith(s, '-', '-') then Some(LineLength(s))
    else if StartsWith(s, '/', '*') then
      var end := BlockEnd(s[2..]);
      if end.None? || Opens(s[2..2 + end.value]) then None else Some(2 + end.value + 2)
    else if Quote(s[0]) then
      var end := QuoteLength(s[1..], s[0]);
      if end.None? then None else Some(1 + end.value)
    else if Letter(s[0]) then Some(1 + WordLength(s[1..]))
    else if Digit(s[0]) then
      var n := NumberLength(s);
      assert 0 < DigitLength(s);
      if n < |s| && Letter(s[n]) then None else Some(n)
    else if 2 <= |s| && Pair(s[0], s[1]) then Some(2)
    else if Punctuation(s[0]) then Some(1)
    else None
  }

  function Tokens(s: string): Option<seq<string>> {
    if s == [] then Some([])
    else if Blank(s[0]) then Tokens(s[1..])
    else
      var n := TokenLength(s);
      if n.None? then None
      else
        var rest := Tokens(s[n.value..]);
        if rest.None? then None else Some([s[..n.value]] + rest.value)
  }

  /** `execution_tokens`. */
  function ExecutionTokens(sql: string): Option<seq<string>> {
    if 0 < Utf8Size(sql) <= SQL_LIMIT then Tokens(sql) else None
  }

  // ------------------------------------------------------------------ lossless

  predicate AllBlank(s: string) {
    forall c | c in s :: Blank(c)
  }

  /** The white space in front of each token, and behind the last. */
  function Gaps(s: string): (r: seq<string>)
    ensures r != []
  {
    if s == [] then [[]]
    else if Blank(s[0]) then
      var rest := Gaps(s[1..]);
      [[s[0]] + rest[0]] + rest[1..]
    else
      var n := TokenLength(s);
      if n.None? then [[]] else [[]] + Gaps(s[n.value..])
  }

  function Weave(gaps: seq<string>, tokens: seq<string>): string
    requires |gaps| == |tokens| + 1
  {
    if tokens == [] then gaps[0] else gaps[0] + tokens[0] + Weave(gaps[1..], tokens[1..])
  }

  /** The input is its tokens with white space between them, and nothing else. */
  lemma {:induction false} Lossless(s: string)
    requires Tokens(s).Some?
    ensures |Gaps(s)| == |Tokens(s).value| + 1
    ensures Weave(Gaps(s), Tokens(s).value) == s
    ensures forall gap | gap in Gaps(s) :: AllBlank(gap)
    ensures forall token | token in Tokens(s).value :: token != [] && !Blank(token[0])
  {
    hide TokenLength, Weave;
    if s == [] {
      assert Weave([[]], []) == [] by { WeaveNothing(); }
    } else if Blank(s[0]) {
      Lossless(s[1..]);
      var rest := Gaps(s[1..]);
      assert s == [s[0]] + s[1..];
      WeaveFirst([s[0]], rest, Tokens(s[1..]).value);
      assert AllBlank([s[0]] + rest[0]) by { assert rest[0] in rest; }
      assert forall gap | gap in rest[1..] :: gap in rest;
    } else {
      var n := TokenLength(s).value;
      Lossless(s[n..]);
      assert s == s[..n] + s[n..];
      WeaveToken(s[..n], Gaps(s[n..]), Tokens(s[n..]).value);
    }
  }

  lemma WeaveNothing()
    ensures Weave([[]], []) == []
  {
  }

  lemma {:induction false} WeaveToken(token: string, gaps: seq<string>, tokens: seq<string>)
    requires |gaps| == |tokens| + 1
    ensures Weave([[]] + gaps, [token] + tokens) == token + Weave(gaps, tokens)
  {
    var g, t := [[]] + gaps, [token] + tokens;
    assert g[1..] == gaps && t[1..] == tokens && g[0] == [] && t[0] == token;
    assert g[0] + t[0] == token;
  }

  lemma WeaveFirst(front: string, gaps: seq<string>, tokens: seq<string>)
    requires |gaps| == |tokens| + 1
    ensures Weave([front + gaps[0]] + gaps[1..], tokens) == front + Weave(gaps, tokens)
  {
    var all := [front + gaps[0]] + gaps[1..];
    assert all[1..] == gaps[1..];
    if tokens != [] {
      assert (front + gaps[0]) + tokens[0] + Weave(gaps[1..], tokens[1..])
          == front + (gaps[0] + tokens[0] + Weave(gaps[1..], tokens[1..]));
    }
  }

  // -------------------------------------------------------------------- relexing

  function Join(tokens: seq<string>): string {
    if tokens == [] then [] else if |tokens| == 1 then tokens[0] else tokens[0] + [' '] + Join(tokens[1..])
  }

  /** What may follow a token in the joined text. */
  predicate Follows(tail: string) {
    tail == [] || tail[0] == ' '
  }

  /** The front of a token, kept with something behind it. */
  lemma FrontKept(s: string, n: nat, tail: string)
    requires 0 < n <= |s| && Follows(tail)
    ensures var t := s[..n] + tail;
            && t[0] == s[0] && t[1..] == s[1..][..n - 1] + tail
            && (2 <= n ==> t[1] == s[1] && t[2..] == s[2..][..n - 2] + tail)
            && (n == 1 && tail != [] ==> t[1] == ' ')
  {
  }

  lemma {:induction false} LineStays(s: string, tail: string)
    requires LineLength(s) < |s| || tail == []
    ensures LineLength(s[..LineLength(s)] + tail) == LineLength(s)
  {
    var n := LineLength(s);
    var t := s[..n] + tail;
    if s != [] && s[0] != '\n' {
      LineStays(s[1..], tail);
      assert t[1..] == s[1..][..n - 1] + tail;
    }
  }

  lemma {:induction false} BlockStays(s: string, tail: string)
    requires BlockEnd(s).Some?
    ensures BlockEnd(s[..BlockEnd(s).value + 2] + tail) == BlockEnd(s)
  {
    var n := BlockEnd(s).value;
    var t := s[..n + 2] + tail;
    if 0 < n {
      BlockStays(s[1..], tail);
      assert t[1..] == s[1..][..n + 1] + tail;
      assert t[0] == s[0] && t[1] == s[1];
    }
  }

  lemma {:induction false} QuoteStays(s: string, q: char, tail: string)
    requires Quote(q) && QuoteLength(s, q).Some? && Follows(tail)
    ensures QuoteLength(s[..QuoteLength(s, q).value] + tail, q) == QuoteLength(s, q)
  {
    var n := QuoteLength(s, q).value;
    var t := s[..n] + tail;
    FrontKept(s, n, tail);
    if s[0] != q {
      QuoteStays(s[1..], q, tail);
      assert QuoteLength(s[1..], q) == Some(n - 1) == QuoteLength(t[1..], q);
    } else if 2 <= |s| && s[1] == q {
      QuoteStays(s[2..], q, tail);
      assert QuoteLength(s[2..], q) == Some(n - 2) == QuoteLength(t[2..], q);
    } else {
      assert n == 1;
    }
  }

  lemma {:induction false} WordStays(s: string, tail: string)
    requires Follows(tail)
    ensures WordLength(s[..WordLength(s)] + tail) == WordLength(s)
  {
    var n := WordLength(s);
    if 0 < n {
      WordStays(s[1..], tail);
      assert (s[..n] + tail)[1..] == s[1..][..n - 1] + tail;
    }
  }

  lemma {:induction false} DigitsStay(s: string, n: nat, tail: string)
    requires n <= |s| && n == DigitLength(s)
    requires tail == [] || !Digit(tail[0])
    ensures DigitLength(s[..n] + tail) == n
  {
    if 0 < n {
      DigitsStay(s[1..], n - 1, tail);
      assert (s[..n] + tail)[1..] == s[1..][..n - 1] + tail;
    }
  }

  lemma {:induction false} DigitsBefore(s: string, k: nat)
    ensures k < DigitLength(s) ==> Digit(s[k])
    ensures s != [] && Digit(s[0]) ==> 0 < DigitLength(s)
  {
    if 0 < k < DigitLength(s) {
      DigitsBefore(s[1..], k - 1);
    }
  }

  lemma NumberStays(s: string, tail: string)
    requires Follows(tail)
    ensures NumberLength(s[..NumberLength(s)] + tail) == NumberLength(s)
  {
    hide DigitLength;
    var d, n := DigitLength(s), NumberLength(s);
    var t := s[..n] + tail;
    if d < n {
      var whole, fraction := s[..d], s[d + 1..];
      assert n - d - 1 == DigitLength(fraction);
      var back := fraction[..n - d - 1] + tail;
      assert t == whole + (['.'] + back) && t[d + 1..] == back && t[d] == '.';
      DigitsStay(s, d, ['.'] + back);
      DigitsStay(fraction, n - d - 1, tail);
      DigitsBefore(fraction, 0);
      assert DigitLength(t) == d && DigitLength(back) == n - d - 1;
    } else {
      DigitsStay(s, d, tail);
    }
  }

  lemma LineTokenStays(s: string, tail: string)
    requires StartsWith(s, '-', '-') && (LineLength(s) < |s| || tail == []) && Follows(tail)
    ensures TokenLength(s[..LineLength(s)] + tail) == Some(LineLength(s))
  {
    hide LineLength;
    LineTwo(s);
    FrontKept(s, LineLength(s), tail);
    LineStays(s, tail);
  }

  lemma BlockTokenStays(s: string, n: nat, tail: string)
    requires !StartsWith(s, '-', '-') && StartsWith(s, '/', '*') && TokenLength(s) == Some(n) && Follows(tail)
    ensures TokenLength(s[..n] + tail) == Some(n)
  {
    hide BlockEnd, Opens;
    var t := s[..n] + tail;
    FrontKept(s, n, tail);
    BlockStays(s[2..], tail);
    assert s[2..][..n - 4 + 2] == s[2..][..n - 2];
    assert t[2..n - 2] == s[2..n - 2];
  }

  lemma QuotedTokenStays(s: string, n: nat, tail: string)
    requires s != [] && Quote(s[0]) && TokenLength(s) == Some(n) && Follows(tail)
    ensures TokenLength(s[..n] + tail) == Some(n)
  {
    hide QuoteLength;
    FrontKept(s, n, tail);
    QuoteStays(s[1..], s[0], tail);
  }

  lemma WordTokenStays(s: string, n: nat, tail: string)
    requires s != [] && Letter(s[0]) && TokenLength(s) == Some(n) && Follows(tail)
    ensures TokenLength(s[..n] + tail) == Some(n)
  {
    hide WordLength;
    FrontKept(s, n, tail);
    WordStays(s[1..], tail);
  }

  lemma NumberTokenStays(s: string, n: nat, tail: string)
    requires s != [] && Digit(s[0]) && TokenLength(s) == Some(n) && Follows(tail)
    ensures TokenLength(s[..n] + tail) == Some(n)
  {
    hide NumberLength, DigitLength;
    FrontKept(s, n, tail);
    NumberStays(s, tail);
    var t := s[..n] + tail;
    assert n < |t| ==> t[n] == ' ';
  }

  lemma SymbolTokenStays(s: string, n: nat, tail: string)
    requires s != [] && !Blank(s[0]) && !StartsWith(s, '-', '-') && !StartsWith(s, '/', '*')
    requires !Quote(s[0]) && !Letter(s[0]) && !Digit(s[0]) && TokenLength(s) == Some(n) && Follows(tail)
    ensures TokenLength(s[..n] + tail) == Some(n)
  {
    FrontKept(s, n, tail);
  }

  /** A token keeps its length when a space, or nothing, is put behind it. Only a line
      comment at the end of the input, which has no newline, needs to stay last. */
  lemma TokenStays(s: string, tail: string)
    requires s != [] && !Blank(s[0]) && TokenLength(s).Some?
    requires Follows(tail) && (TokenLength(s).value < |s| || tail == [])
    ensures var t := s[..TokenLength(s).value] + tail;
            t != [] && t[0] == s[0] && TokenLength(t) == TokenLength(s)
  {
    var n := TokenLength(s).value;
    FrontKept(s, n, tail);
    if StartsWith(s, '-', '-') {
      assert TokenLength(s) == Some(LineLength(s));
      hide TokenLength;
      LineTokenStays(s, tail);
    } else {
      hide TokenLength;
      if StartsWith(s, '/', '*') {
        BlockTokenStays(s, n, tail);
      } else if Quote(s[0]) {
        QuotedTokenStays(s, n, tail);
      } else if Letter(s[0]) {
        WordTokenStays(s, n, tail);
      } else if Digit(s[0]) {
        NumberTokenStays(s, n, tail);
      } else {
        SymbolTokenStays(s, n, tail);
      }
    }
  }

  lemma LineTwo(s: string)
    requires StartsWith(s, '-', '-')
    ensures 2 <= LineLength(s)
  {
    assert s[1..][0] == '-';
  }

  /** The first token of `t + " " + rest` is `t` and lexing goes on behind the space. */
  lemma TokensOfJoined(s: string, rest: string)
    requires s != [] && !Blank(s[0]) && TokenLength(s).Some? && TokenLength(s).value < |s|
    requires Tokens(rest).Some?
    ensures var token := s[..TokenLength(s).value];
            Tokens(token + [' '] + rest) == Some([token] + Tokens(rest).value)
  {
    var n := TokenLength(s).value;
    var token, tail := s[..n], [' '] + rest;
    TokenStays(s, tail);
    var t := token + tail;
    assert token + [' '] + rest == t && t[..n] == token && t[n..] == tail;
    assert tail[1..] == rest;
  }

  /** Lexing the tokens joined by single spaces gives the same tokens. */
  lemma {:induction false} Relex(s: string)
    requires Tokens(s).Some?
    ensures Tokens(Join(Tokens(s).value)) == Tokens(s)
  {
    if s != [] {
      if Blank(s[0]) {
        Relex(s[1..]);
      } else {
        var n := TokenLength(s).value;
        var token, rest := s[..n], Tokens(s[n..]).value;
        Relex(s[n..]);
        if rest == [] {
          TokenStays(s, []);
          assert token + [] == token && token[..n] == token && token[n..] == [];
          assert Join([token]) == token;
        } else {
          assert n < |s|;
          TokensOfJoined(s, Join(rest));
          assert ([token] + rest)[1..] == rest;
        }
      }
    }
  }

  /** The promise of `execution_tokens`, exactly: the joined tokens are accepted and give the
      same tokens when their text is not empty and within the size limit, and only then. */
  lemma JoinedTokensAccepted(sql: string)
    requires ExecutionTokens(sql).Some?
    ensures var tokens := ExecutionTokens(sql).value;
            ExecutionTokens(Join(tokens)) == if 0 < Utf8Size(Join(tokens)) <= SQL_LIMIT then Some(tokens) else None
  {
    Relex(sql);
  }

  // -------------------------------------------------------------- the loop itself

  /** The quote loop from behind the opening quote to behind the closing one. */
  method QuoteStop(sql: string, start: nat, q: char) returns (stop: Option<nat>)
    requires start <= |sql|
    ensures stop == (if QuoteLength(sql[start..], q).Some? then Some(start + QuoteLength(sql[start..], q).value) else None)
  {
    var position := start;
    while position < |sql|
      invariant start <= position <= |sql|
      invariant QuoteLength(sql[start..], q).Some? <==> QuoteLength(sql[position..], q).Some?
      invariant QuoteLength(sql[start..], q).Some? ==>
        QuoteLength(sql[start..], q).value == position - start + QuoteLength(sql[position..], q).value
    {
      if sql[position] == '\\' {
        return None;
      }
      assert sql[position..][1..] == sql[position + 1..];
      if sql[position] == q {
        if position + 1 < |sql| && sql[position + 1] == q {
          assert sql[position..][2..] == sql[position + 2..];
          position := position + 2;
          continue;
        }
        return Some(position + 1);
      }
      position := position + 1;
    }
    stop := None;
  }

  method WordStop(sql: string, start: nat) returns (stop: nat)
    requires start <= |sql|
    ensures stop == start + WordLength(sql[start..])
  {
    stop := start;
    while stop < |sql| && (Letter(sql[stop]) || Digit(sql[stop]))
      invariant start <= stop <= |sql|
      invariant WordLength(sql[start..]) == stop - start + WordLength(sql[stop..])
    {
      assert sql[stop..][1..] == sql[stop + 1..];
      stop := stop + 1;
    }
  }

  /** One turn of the outer loop: where the token at `position` ends. */
  method TokenStop(sql: string, position: nat) returns (stop: Option<nat>)
    requires position < |sql| && !Blank(sql[position])
    ensures stop == (if TokenLength(sql[position..]).Some? then Some(position + TokenLength(sql[position..]).value) else None)
  {
    var s := sql[position..];
    if StartsWith(s, '-', '-') {
      stop := Some(position + LineLength(s));
    } else if StartsWith(s, '/', '*') {
      var end := BlockEnd(s[2..]);
      stop := if end.None? || Opens(s[2..2 + end.value]) then None else Some(position + 2 + end.value + 2);
    } else if Quote(s[0]) {
      assert s[1..] == sql[position + 1..];
      stop := QuoteStop(sql, position + 1, s[0]);
    } else if Letter(s[0]) {
      assert s[1..] == sql[position + 1..];
      var end := WordStop(sql, position + 1);
      stop := Some(end);
    } else if Digit(s[0]) {
      var n := NumberLength(s);
      stop := if n < |s| && Letter(s[n]) then None else Some(position + n);
    } else if 2 <= |s| && Pair(s[0], s[1]) {
      stop := Some(position + 2);
    } else {
      stop := if Punctuation(s[0]) then Some(position + 1) else None;
    }
  }

  /** Lexing `rest` completes what was lexed so far. */
  predicate Resumes(whole: Option<seq<string>>, tokens: seq<string>, rest: string) {
    whole == if Tokens(rest).Some? then Some(tokens + Tokens(rest).value) else None
  }

  lemma ResumeStart(sql: string)
    ensures Resumes(Tokens(sql), [], sql)
  {
    assert Tokens(sql).Some? ==> [] + Tokens(sql).value == Tokens(sql).value;
  }

  lemma ResumeBlank(whole: Option<seq<string>>, tokens: seq<string>, rest: string)
    requires rest != [] && Blank(rest[0]) && Resumes(whole, tokens, rest)
    ensures Resumes(whole, tokens, rest[1..])
  {
  }

  lemma ResumeToken(whole: Option<seq<string>>, tokens: seq<string>, rest: string)
    requires rest != [] && !Blank(rest[0]) && Resumes(whole, tokens, rest)
    ensures TokenLength(rest).None? ==> whole.None?
    ensures var n := TokenLength(rest);
            n.Some? ==> Resumes(whole, tokens + [rest[..n.value]], rest[n.value..])
  {
    hide TokenLength;
    var n := TokenLength(rest);
    if n.Some? {
      var token, more := rest[..n.value], Tokens(rest[n.value..]);
      assert Tokens(rest) == if more.Some? then Some([token] + more.value) else None;
      assert more.Some? ==> tokens + [token] + more.value == tokens + ([token] + more.value);
    }
  }

  /** The outer loop of `execution_tokens`. */
  method Lex(sql: string) returns (r: Option<seq<string>>)
    ensures r == ExecutionTokens(sql)
  {
    if !(0 < Utf8Size(sql) <= SQL_LIMIT) {
      return None;
    }
    hide TokenLength, Resumes;
    var tokens: seq<string>, position: nat := [], 0;
    assert sql[0..] == sql;
    ResumeStart(sql);
    while position < |sql|
      invariant position <= |sql| && Resumes(Tokens(sql), tokens, sql[position..])
      decreases |sql| - position
    {
      if Blank(sql[position]) {
        ResumeBlank(Tokens(sql), tokens, sql[position..]);
        assert sql[position..][1..] == sql[position + 1..];
        position := position + 1;
        continue;
      }
      ResumeToken(Tokens(sql), tokens, sql[position..]);
      var stop := TokenStop(sql, position);
      if stop.None? {
        return None;
      }
      var n := stop.value - position;
      assert sql[position..][n..] == sql[stop.value..] && sql[position..][..n] == sql[position..stop.value];
      tokens := tokens + [sql[position..stop.value]];
      position := stop.value;
    }
    ResumeEnd(Tokens(sql), tokens, sql[position..]);
    r := Some(tokens);
  }

  lemma ResumeEnd(whole: Option<seq<string>>, tokens: seq<string>, rest: string)
    requires rest == [] && Resumes(whole, tokens, rest)
    ensures whole == Some(tokens)
  {
    assert tokens + [] == tokens;
  }
}
