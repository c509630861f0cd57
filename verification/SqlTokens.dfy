/** What the tokens of `execution_tokens` are, place by place in the text: which pieces of a text
    are tokens, and that a text is accepted exactly when it is such pieces with white space between. */
module SqlTokens {
  import opened Common
  import opened SqlLexer

  // ----------------------------------------------------------------- the tokens

  predicate InWord(c: char) {
    'A' <= c <= 'Z' || 'a' <= c <= 'z' || '0' <= c <= '9' || c == '_'
  }

  predicate Decimal(c: char) {
    '0' <= c <= '9'
  }

  /** Two dashes, up to and with the first newline, or to the end of the text. */
  predicate LineComment(s: string, n: nat) {
    && 2 <= n <= |s| && s[0] == '-' && s[1] == '-'
    && (forall k :: 0 <= k < n - 1 ==> s[k] != '\n')
    && (s[n - 1] == '\n' || n == |s|)
  }

  /** Slash and star, up to and with the first star and slash, without another slash and star inside. */
  predicate BlockComment(s: string, n: nat) {
    && 4 <= n <= |s| && s[0] == '/' && s[1] == '*' && s[n - 2] == '*' && s[n - 1] == '/'
    && (forall k :: 2 <= k < n - 2 ==> !(s[k] == '*' && s[k + 1] == '/'))
    && (forall k :: 2 <= k < n - 3 ==> !(s[k] == '/' && s[k + 1] == '*'))
  }

  /** A text with every quote in it doubled. */
  function Doubled(text: string, q: char): string {
    if text == [] then [] else (if text[0] == q then [q, q] else [text[0]]) + Doubled(text[1..], q)
  }

  /** A quote, a text without backslash whose quotes are doubled, and the quote again, which is not
      one of a pair. */
  predicate Quotation(s: string, n: nat, text: string) {
    && 2 <= n <= |s| && s[0] in {'\'', '"', '`'}
    && '\\' !in text && s[1..n - 1] == Doubled(text, s[0]) && s[n - 1] == s[0]
    && (n < |s| ==> s[n] != s[0])
  }

  /** A letter or underscore and all the letters, digits and underscores behind it. */
  predicate WholeWord(s: string, n: nat) {
    && 1 <= n <= |s| && InWord(s[0]) && !Decimal(s[0])
    && (forall k :: 0 <= k < n ==> InWord(s[k]))
    && (n < |s| ==> !InWord(s[n]))
  }

  /** `d` digits, all there are, with the point and the digits behind it where there are any; no
      letter follows. */
  predicate WholeNumber(s: string, n: nat, d: nat) {
    && 1 <= d <= n <= |s| && (forall k :: 0 <= k < d ==> Decimal(s[k]))
    && (n != d ==> d + 2 <= n && s[d] == '.' && forall k :: d < k < n ==> Decimal(s[k]))
    && (n == d && d + 1 < |s| && s[d] == '.' ==> !Decimal(s[d + 1]))
    && (n < |s| ==> !InWord(s[n]))
  }

  /** One of six signs of two characters, or one of seventeen of one; not the beginning of a comment. */
  predicate SignAt(s: string, n: nat) {
    && 1 <= n <= |s|
    && (2 <= |s| ==> s[..2] != "--" && s[..2] != "/*")
    && if 2 <= |s| && s[..2] in {"<>", "<=", ">=", "!=", "->", "||"} then n == 2
       else n == 1 && s[0] in ".,()[]<>=+-*/%?:;"
  }

  /** The first `n` characters are a token. */
  ghost predicate IsToken(s: string, n: nat) {
    || LineComment(s, n) || BlockComment(s, n) || (exists text :: Quotation(s, n, text)) || WholeWord(s, n)
    || (exists d :: WholeNumber(s, n, d)) || SignAt(s, n)
  }

  // -------------------------------------------------------------- what each comes to

  lemma {:induction false} LineExactly(s: string, n: nat)
    requires s != []
    ensures LineLength(s) == n <==>
      && 1 <= n <= |s| && (forall k :: 0 <= k < n - 1 ==> s[k] != '\n') && (s[n - 1] == '\n' || n == |s|)
  {
    if s[0] != '\n' && 1 < |s| && 1 <= n {
      LineExactly(s[1..], n - 1);
      assert forall k :: 0 <= k < |s| - 1 ==> s[1..][k] == s[k + 1];
      if n <= |s| && forall k :: 0 <= k < n - 2 ==> s[1..][k] != '\n' {
        forall k | 0 <= k < n - 1
          ensures s[k] != '\n'
        {
          assert 0 < k ==> s[k] == s[1..][k - 1];
        }
      }
    }
  }

  lemma {:induction false} BlockExactly(s: string, e: nat)
    ensures BlockEnd(s) == Some(e) <==>
      && e + 2 <= |s| && s[e] == '*' && s[e + 1] == '/'
      && forall k :: 0 <= k < e ==> !(s[k] == '*' && s[k + 1] == '/')
  {
    if 2 <= |s| && !StartsWith(s, '*', '/') && 0 < e {
      var rest := s[1..];
      BlockExactly(rest, e - 1);
      assert forall k :: 0 <= k < |rest| ==> rest[k] == s[k + 1];
      if e + 2 <= |s| && forall k :: 0 <= k < e - 1 ==> !(rest[k] == '*' && rest[k + 1] == '/') {
        forall k | 0 <= k < e
          ensures !(s[k] == '*' && s[k + 1] == '/')
        {
          assert 0 < k ==> s[k] == rest[k - 1] && s[k + 1] == rest[k];
        }
      }
    }
  }

  lemma {:induction false} WordExactly(s: string, n: nat)
    ensures WordLength(s) == n <==>
      n <= |s| && (forall k :: 0 <= k < n ==> InWord(s[k])) && (n < |s| ==> !InWord(s[n]))
  {
    if s != [] && InWord(s[0]) && 0 < n {
      var rest := s[1..];
      WordExactly(rest, n - 1);
      assert forall k :: 0 <= k < |rest| ==> rest[k] == s[k + 1];
      if n <= |s| && forall k :: 0 <= k < n - 1 ==> InWord(rest[k]) {
        forall k | 0 <= k < n
          ensures InWord(s[k])
        {
          assert 0 < k ==> s[k] == rest[k - 1];
        }
      }
    }
  }

  lemma {:induction false} DigitsExactly(s: string, n: nat)
    ensures DigitLength(s) == n <==>
      n <= |s| && (forall k :: 0 <= k < n ==> Decimal(s[k])) && (n < |s| ==> !Decimal(s[n]))
  {
    if s != [] && Decimal(s[0]) && 0 < n {
      var rest := s[1..];
      DigitsExactly(rest, n - 1);
      assert forall k :: 0 <= k < |rest| ==> rest[k] == s[k + 1];
      if n <= |s| && forall k :: 0 <= k < n - 1 ==> Decimal(rest[k]) {
        forall k | 0 <= k < n
          ensures Decimal(s[k])
        {
          assert 0 < k ==> s[k] == rest[k - 1];
        }
      }
    }
  }

  /** Behind an opening quote: a doubled text and a single quote. */
  predicate Closes(s: string, q: char, n: nat, text: string) {
    && 0 < n <= |s| && '\\' !in text && s[..n - 1] == Doubled(text, q) && s[n - 1] == q && (n < |s| ==> s[n] != q)
  }

  lemma {:induction false} QuoteText(s: string, q: char) returns (text: string)
    requires q != '\\' && QuoteLength(s, q).Some?
    ensures Closes(s, q, QuoteLength(s, q).value, text)
  {
    var n := QuoteLength(s, q).value;
    if s[0] == q {
      if 2 <= |s| && s[1] == q {
        var rest := QuoteText(s[2..], q);
        text := [q] + rest;
        assert text[1..] == rest && s[..n - 1] == [q, q] + s[2..][..n - 3];
      } else {
        text := [];
        assert s[..0] == [];
      }
    } else {
      var rest := QuoteText(s[1..], q);
      text := [s[0]] + rest;
      assert text[1..] == rest && s[..n - 1] == [s[0]] + s[1..][..n - 2];
    }
  }

  lemma {:induction false} TextQuoted(s: string, q: char, n: nat, text: string)
    requires q != '\\' && Closes(s, q, n, text)
    ensures QuoteLength(s, q) == Some(n)
    decreases |text|
  {
    if text == [] {
      assert s[..n - 1] == [] && n == 1;
    } else {
      var more := Doubled(text[1..], q);
      var w := if text[0] == q then [q, q] else [text[0]];
      assert Doubled(text, q) == w + more && s[..n - 1] == w + more;
      assert forall k :: 0 <= k < |w| ==> s[k] == s[..n - 1][k] == w[k];
      var rest := s[|w|..];
      assert rest[..n - 1 - |w|] == s[..n - 1][|w|..] == more;
      assert text[0] in text && forall c | c in text[1..] :: c in text;
      TextQuoted(rest, q, n - |w|, text[1..]);
    }
  }

  lemma QuotationExactly(s: string, n: nat)
    requires s != [] && Quote(s[0])
    ensures TokenLength(s) == Some(n) <==> exists text :: Quotation(s, n, text)
  {
    hide QuoteLength;
    if TokenLength(s) == Some(n) {
      var text := QuoteText(s[1..], s[0]);
      assert s[1..][..n - 2] == s[1..n - 1];
      assert Quotation(s, n, text);
    }
    forall text | Quotation(s, n, text)
      ensures TokenLength(s) == Some(n)
    {
      assert s[1..][..n - 2] == s[1..n - 1];
      TextQuoted(s[1..], s[0], n - 1, text);
    }
  }

  lemma CommentExactly(s: string, n: nat)
    requires StartsWith(s, '-', '-') || StartsWith(s, '/', '*')
    ensures TokenLength(s) == Some(n) <==> LineComment(s, n) || BlockComment(s, n)
  {
    hide LineLength, BlockEnd;
    if s[0] == '-' {
      LineTwo(s);
      LineExactly(s, n);
    } else {
      if 4 <= n {
        BlockExactly(s[2..], n - 4);
        if n <= |s| {
          InsideExactly(s, n);
        }
      }
    }
  }

  /** The inside of a block comment, from the third character on. */
  lemma InsideExactly(s: string, n: nat)
    requires 4 <= n <= |s|
    ensures Opens(s[2..n - 2]) <==> exists k :: 2 <= k < n - 3 && s[k] == '/' && s[k + 1] == '*'
    ensures (forall k :: 0 <= k < n - 4 ==> !(s[2..][k] == '*' && s[2..][k + 1] == '/'))
      <==> forall k :: 2 <= k < n - 2 ==> !(s[k] == '*' && s[k + 1] == '/')
  {
    var inside := s[2..n - 2];
    if Opens(inside) {
      var i :| 0 <= i < |inside| - 1 && inside[i] == '/' && inside[i + 1] == '*';
      assert s[i + 2] == '/' && s[i + 2 + 1] == '*';
    }
    if k :| 2 <= k < n - 3 && s[k] == '/' && s[k + 1] == '*' {
      assert inside[k - 2] == '/' && inside[k - 2 + 1] == '*';
    }
    if forall k :: 0 <= k < n - 4 ==> !(s[2..][k] == '*' && s[2..][k + 1] == '/') {
      forall k | 2 <= k < n - 2
        ensures !(s[k] == '*' && s[k + 1] == '/')
      {
        assert s[k] == s[2..][k - 2] && s[k + 1] == s[2..][k - 2 + 1];
      }
    }
  }

  lemma NumberExactly(s: string, n: nat)
    requires s != [] && Digit(s[0])
    ensures TokenLength(s) == Some(n) <==> exists d :: WholeNumber(s, n, d)
  {
    hide DigitLength;
    var d := DigitLength(s);
    DigitsExactly(s, d);
    if TokenLength(s) == Some(n) {
      if d < n {
        FractionExactly(s, d, n);
      }
      assert WholeNumber(s, n, d);
    }
    forall e | WholeNumber(s, n, e)
      ensures TokenLength(s) == Some(n)
    {
      DigitsExactly(s, e);
      assert d == e;
      if d < n {
        FractionExactly(s, d, n);
      }
    }
  }

  lemma FractionExactly(s: string, d: nat, n: nat)
    requires d + 1 < |s| && d < n && n <= |s|
    ensures d + 1 + DigitLength(s[d + 1..]) == n <==>
      (forall k :: d < k < n ==> Decimal(s[k])) && (n < |s| ==> !Decimal(s[n]))
  {
    var rest := s[d + 1..];
    DigitsExactly(rest, n - d - 1);
    assert forall k :: 0 <= k < |rest| ==> rest[k] == s[d + 1 + k];
    if forall k :: 0 <= k < n - d - 1 ==> Decimal(rest[k]) {
      forall k | d < k < n
        ensures Decimal(s[k])
      {
        assert s[k] == rest[k - d - 1];
      }
    }
  }

  lemma WordTokenExactly(s: string, n: nat)
    requires s != [] && Letter(s[0])
    ensures TokenLength(s) == Some(n) <==> WholeWord(s, n)
  {
    hide WordLength;
    if 0 < n {
      WordExactly(s[1..], n - 1);
      assert forall k :: 0 <= k < |s| - 1 ==> s[1..][k] == s[k + 1];
      if n <= |s| && forall k :: 0 <= k < n - 1 ==> InWord(s[1..][k]) {
        forall k | 0 <= k < n
          ensures InWord(s[k])
        {
          assert 0 < k ==> s[k] == s[1..][k - 1];
        }
      }
    }
  }

  lemma SignExactly(s: string, n: nat)
    requires s != [] && !Blank(s[0]) && !StartsWith(s, '-', '-') && !StartsWith(s, '/', '*')
    requires !Quote(s[0]) && !Letter(s[0]) && !Digit(s[0])
    ensures TokenLength(s) == Some(n) <==> SignAt(s, n)
  {
    PairExactly(s);
    SingleExactly(s[0]);
    assert 2 <= |s| ==> s[..2] == [s[0], s[1]];
  }

  lemma PairExactly(s: string)
    ensures 2 <= |s| ==> (Pair(s[0], s[1]) <==> s[..2] in {"<>", "<=", ">=", "!=", "->", "||"})
  {
    if 2 <= |s| {
      assert s[..2] == [s[0], s[1]];
    }
  }

  lemma SingleExactly(c: char)
    ensures Punctuation(c) <==> c in ".,()[]<>=+-*/%?:;"
  {
  }

  /** A token is in one family only. */
  lemma TokenFamily(s: string, n: nat)
    requires s != []
    ensures LineComment(s, n) ==> StartsWith(s, '-', '-')
    ensures BlockComment(s, n) ==> StartsWith(s, '/', '*')
    ensures (exists text :: Quotation(s, n, text)) ==> Quote(s[0])
    ensures WholeWord(s, n) ==> Letter(s[0])
    ensures (exists d :: WholeNumber(s, n, d)) ==> Digit(s[0])
    ensures SignAt(s, n) ==> !StartsWith(s, '-', '-') && !StartsWith(s, '/', '*') && !Quote(s[0]) && !Letter(s[0]) && !Digit(s[0])
  {
    SingleExactly(s[0]);
    PairExactly(s);
    assert 2 <= |s| ==> s[..2] == [s[0], s[1]];
  }

  /** The token at the front, exactly. */
  lemma TokenExactly(s: string, n: nat)
    requires s != [] && !Blank(s[0])
    ensures TokenLength(s) == Some(n) <==> IsToken(s, n)
  {
    hide TokenLength, LineComment, BlockComment, Quotation, WholeWord, WholeNumber, SignAt;
    TokenFamily(s, n);
    if StartsWith(s, '-', '-') || StartsWith(s, '/', '*') {
      CommentExactly(s, n);
    } else if Quote(s[0]) {
      QuotationExactly(s, n);
    } else if Letter(s[0]) {
      WordTokenExactly(s, n);
    } else if Digit(s[0]) {
      NumberExactly(s, n);
    } else {
      SignExactly(s, n);
    }
  }

  // ------------------------------------------------------------------ whole texts

  predicate White(c: char) {
    c in {' ', '\t', '\r', '\n', 0x0C as char}
  }

  /** Token `i` stands at `at[i]`. */
  ghost predicate TokenAt(sql: string, ts: seq<string>, at: seq<nat>, i: nat)
    requires i < |ts| && i < |at|
  {
    && ts[i] != [] && at[i] + |ts[i]| <= |sql| && sql[at[i]..at[i] + |ts[i]|] == ts[i]
    && !White(sql[at[i]]) && IsToken(sql[at[i]..], |ts[i]|)
  }

  /** From `p` on the tokens stand in the text one behind the other, with only white space around them. */
  ghost predicate Lexed(sql: string, p: nat, ts: seq<string>, at: seq<nat>) {
    && |at| == |ts|
    && (forall i :: 0 <= i < |ts| ==> TokenAt(sql, ts, at, i))
    && (ts != [] ==> p <= at[0]) && (forall i :: 0 < i < |ts| ==> at[i - 1] + |ts[i - 1]| <= at[i])
    && forall k :: p <= k < |sql| ==> White(sql[k]) || Inside(ts, at, k)
  }

  predicate Inside(ts: seq<string>, at: seq<nat>, k: nat)
    requires |at| == |ts|
  {
    exists i :: 0 <= i < |ts| && at[i] <= k < at[i] + |ts[i]|
  }

  lemma WhiteExactly(c: char)
    ensures White(c) <==> Blank(c)
  {
  }

  /** The tokens behind the first are no other place than before. */
  lemma InsideMore(token: string, start: nat, ts: seq<string>, at: seq<nat>, k: nat)
    requires |at| == |ts|
    ensures Inside([token] + ts, [start] + at, k) <==> start <= k < start + |token| || Inside(ts, at, k)
  {
    var all, places := [token] + ts, [start] + at;
    if start <= k < start + |token| {
      assert places[0] <= k < places[0] + |all[0]|;
    }
    if Inside(ts, at, k) {
      var i :| 0 <= i < |ts| && at[i] <= k < at[i] + |ts[i]|;
      assert places[i + 1] <= k < places[i + 1] + |all[i + 1]|;
    }
    if Inside(all, places, k) {
      var i :| 0 <= i < |all| && places[i] <= k < places[i] + |all[i]|;
      assert 0 < i ==> at[i - 1] == places[i] && ts[i - 1] == all[i];
    }
  }

  lemma LexedMore(sql: string, p: nat, token: string, ts: seq<string>, at: seq<nat>)
    requires TokenAt(sql, [token], [p], 0)
    ensures Lexed(sql, p + |token|, ts, at) <==> |at| == |ts| && Lexed(sql, p, [token] + ts, [p] + at)
  {
    hide IsToken, Inside, White;
    var all, places := [token] + ts, [p] + at;
    if |at| == |ts| {
      forall k: nat
        ensures Inside(all, places, k) <==> p <= k < p + |token| || Inside(ts, at, k)
      {
        InsideMore(token, p, ts, at, k);
      }
      if Lexed(sql, p + |token|, ts, at) {
        forall i | 0 <= i < |all|
          ensures TokenAt(sql, all, places, i) && (0 < i ==> places[i - 1] + |all[i - 1]| <= places[i])
        {
          assert 0 < i ==> TokenAt(sql, ts, at, i - 1);
          assert 1 < i ==> at[i - 2] + |ts[i - 2]| <= at[i - 1];
        }
      }
      if Lexed(sql, p, all, places) {
        forall i | 0 <= i < |ts|
          ensures TokenAt(sql, ts, at, i) && (0 < i ==> at[i - 1] + |ts[i - 1]| <= at[i])
        {
          assert TokenAt(sql, all, places, i + 1);
          assert places[i] + |all[i]| <= places[i + 1];
        }
        assert ts != [] ==> places[0] + |all[0]| <= places[1];
      }
    }
  }

  lemma Nothing(sql: string, p: nat)
    requires p == |sql|
    ensures Lexed(sql, p, [], [])
  {
  }

  lemma LexedBlank(sql: string, p: nat, ts: seq<string>, at: seq<nat>)
    requires p < |sql| && White(sql[p])
    ensures Lexed(sql, p, ts, at) <==> Lexed(sql, p + 1, ts, at)
  {
    hide IsToken, Inside, White;
    if |at| == |ts| && ts != [] && TokenAt(sql, ts, at, 0) {
      assert at[0] != p;
    }
  }

  lemma {:induction false} TokensPlaced(sql: string, p: nat) returns (at: seq<nat>)
    requires p <= |sql| && Tokens(sql[p..]).Some?
    ensures Lexed(sql, p, Tokens(sql[p..]).value, at)
    decreases |sql| - p
  {
    hide TokenLength, IsToken, Lexed;
    var s := sql[p..];
    if s == [] {
      at := [];
      Nothing(sql, p);
    } else {
      WhiteExactly(s[0]);
      if Blank(s[0]) {
        assert s[1..] == sql[p + 1..];
        at := TokensPlaced(sql, p + 1);
        LexedBlank(sql, p, Tokens(s).value, at);
      } else {
        var n := TokenLength(s).value;
        TokenExactly(s, n);
        assert s[n..] == sql[p + n..] && s[..n] == sql[p..p + n];
        var rest := TokensPlaced(sql, p + n);
        LexedMore(sql, p, s[..n], Tokens(s[n..]).value, rest);
        at := [p] + rest;
      }
    }
  }

  lemma {:induction false} Ascend(sql: string, p: nat, ts: seq<string>, at: seq<nat>, i: nat)
    requires Lexed(sql, p, ts, at) && i < |ts|
    ensures p <= at[0] <= at[i]
  {
    hide TokenAt, Inside;
    if 0 < i {
      Ascend(sql, p, ts, at, i - 1);
    }
  }

  lemma NextBegins(sql: string, p: nat, ts: seq<string>, at: seq<nat>)
    requires Lexed(sql, p, ts, at) && p < |sql| && !White(sql[p])
    ensures ts != [] && at[0] == p && TokenAt(sql, [ts[0]], [p], 0)
  {
    hide IsToken, White;
    assert Inside(ts, at, p);
    var i :| 0 <= i < |ts| && at[i] <= p < at[i] + |ts[i]|;
    Ascend(sql, p, ts, at, i);
    assert TokenAt(sql, ts, at, 0);
  }

  lemma {:induction false} PlacedTokens(sql: string, p: nat, ts: seq<string>, at: seq<nat>)
    requires p <= |sql| && Lexed(sql, p, ts, at)
    ensures Tokens(sql[p..]) == Some(ts)
    decreases |sql| - p
  {
    hide TokenLength, IsToken, Lexed, Inside;
    var s := sql[p..];
    if s == [] {
      NothingLeft(sql, p, ts, at);
    } else {
      WhiteExactly(s[0]);
      if Blank(s[0]) {
        assert s[1..] == sql[p + 1..];
        LexedBlank(sql, p, ts, at);
        PlacedTokens(sql, p + 1, ts, at);
      } else {
        NextBegins(sql, p, ts, at);
        LengthsMatch(sql, p, ts, at);
        var n := |ts[0]|;
        TokenExactly(s, n);
        assert s[n..] == sql[p + n..] && s[..n] == ts[0];
        assert ts == [ts[0]] + ts[1..] && at == [p] + at[1..];
        LexedMore(sql, p, ts[0], ts[1..], at[1..]);
        PlacedTokens(sql, p + n, ts[1..], at[1..]);
      }
    }
  }

  lemma LengthsMatch(sql: string, p: nat, ts: seq<string>, at: seq<nat>)
    requires Lexed(sql, p, ts, at)
    ensures |at| == |ts|
  {
  }

  lemma NothingLeft(sql: string, p: nat, ts: seq<string>, at: seq<nat>)
    requires p == |sql| && Lexed(sql, p, ts, at)
    ensures ts == []
  {
    hide IsToken, Inside;
    assert ts != [] ==> TokenAt(sql, ts, at, 0);
  }

  /** The bytes of a character in UTF-8. */
  function Width(code: int): nat {
    if code < 128 then 1 else if code < 2048 then 2 else if code < 65536 then 3 else 4
  }

  /** Sums of the UTF-8 lengths of the characters in front. */
  predicate Widths(sql: string, sums: seq<nat>) {
    && |sums| == |sql| + 1 && sums[0] == 0
    && forall i :: 0 <= i < |sql| ==>
         sums[i + 1] == sums[i] + Width(sql[i] as int)
  }

  lemma {:induction false} SizeIsSum(sql: string) returns (sums: seq<nat>)
    ensures Widths(sql, sums) && sums[|sql|] == Utf8Size(sql)
  {
    if sql == [] {
      sums := [0];
    } else {
      var n := |sql| - 1;
      var front := SizeIsSum(sql[..n]);
      sums := front + [front[n] + Utf8(sql[n])];
    }
  }

  /** Exactly which texts are accepted, and with which tokens. */
  lemma AcceptedExactly(sql: string, ts: seq<string>) returns (sums: seq<nat>)
    ensures Widths(sql, sums)
    ensures ExecutionTokens(sql) == Some(ts) <==> 0 < sums[|sql|] <= 262144 && exists at :: Lexed(sql, 0, ts, at)
  {
    hide Lexed, Tokens, Utf8Size;
    sums := SizeIsSum(sql);
    assert sql[0..] == sql;
    if Tokens(sql) == Some(ts) {
      var at := TokensPlaced(sql, 0);
    }
    forall at | Lexed(sql, 0, ts, at)
      ensures Tokens(sql) == Some(ts)
    {
      PlacedTokens(sql, 0, ts, at);
    }
  }
}
