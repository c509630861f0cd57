/** `logical_lines` and `check_dockerfile` of the audited consumer: where every stage of a
    Dockerfile comes from, through any chain of aliases. */
module Dockerfile {
  import opened Common

  datatype Directive = Escape(backslash: bool) | Syntax(pinned: bool) | OtherDirective

  /** An image reference: one whole variable, or text that may still expand something. */
  datatype Image = Variable(arg: string) | Named(name: string, expands: bool)

  datatype Instruction =
    | Arg(tokens: seq<(string, bool)>)                       // name, has a default
    | From(image: Image, alias: Option<string>)
    | UnreadableFrom
    | Uses(images: seq<string>, remoteWithoutChecksum: bool) // COPY, ADD, RUN
    | Other

  /** The regular expressions, as functions of one line; and case folding and digits of a name. */
  datatype Reader = Reader(
    directive: string -> Option<Directive>, read: string -> Instruction, strip: string -> string,
    lower: string -> string, digits: string -> bool)

  datatype Code =
    | UnsupportedEscape | UnpinnedFrontend | Unsupported | UnverifiedFrom | UndeclaredArg | ArgDefault
    | ExternalImage | RemoteAdd | FinalStageNotRuntime

  // --------------------------------------------------------------- logical lines

  /** Lines already stripped. A comment or an empty line between continued lines is skipped. */
  function Logical(reader: Reader, lines: seq<string>, current: string): seq<string> {
    if lines == [] then (if reader.strip(current) == [] then [] else [reader.strip(current)])
    else
      var line := lines[0];
      if line == [] || line[0] == '#' then Logical(reader, lines[1..], current)
      else if line[|line| - 1] == '\\' then Logical(reader, lines[1..], current + line[..|line| - 1] + [' '])
      else [current + line] + Logical(reader, lines[1..], [])
  }

  /** The leading parser directives: how many lines they take, or why one is refused. */
  function Directives(reader: Reader, lines: seq<string>): (r: Result<nat, Code>)
    ensures r.Ok? ==> r.value <= |lines|
  {
    if lines == [] then Ok(0)
    else match reader.directive(lines[0])
      case None => Ok(0)
      case Some(Escape(backslash)) =>
        if !backslash then Err(UnsupportedEscape)
        else (match Directives(reader, lines[1..]) case Ok(n) => Ok(1 + n) case Err(e) => Err(e))
      case Some(Syntax(pinned)) =>
        if !pinned then Err(UnpinnedFrontend)
        else (match Directives(reader, lines[1..]) case Ok(n) => Ok(1 + n) case Err(e) => Err(e))
      case Some(OtherDirective) =>
        (match Directives(reader, lines[1..]) case Ok(n) => Ok(1 + n) case Err(e) => Err(e))
  }

  function LogicalLines(reader: Reader, lines: seq<string>): Result<seq<string>, Code> {
    match Directives(reader, lines)
    case Err(code) => Err(code)
    case Ok(n) => Ok(Logical(reader, lines[n..], []))
  }

  lemma LogicalStep(done: seq<string>, more: seq<string>, line: string, rest: seq<string>)
    requires more == [line] + rest
    ensures done + more == done + [line] + rest
  {
  }

  /** `logical_lines`. */
  method JoinLines(reader: Reader, lines: seq<string>) returns (r: Result<seq<string>, Code>)
    ensures r == LogicalLines(reader, lines)
  {
    var joined: seq<string>, current: string, directives := [], [], true;
    var start := Directives(reader, lines);
    assert lines[0..] == lines;
    for i := 0 to |lines|
      invariant if directives
        then joined == [] && current == [] && Directives(reader, lines) == Shifted(i, Directives(reader, lines[i..]))
        else start.Ok? && start.value <= i && Logical(reader, lines[start.value..], []) == joined + Logical(reader, lines[i..], current)
    {
      var line := lines[i];
      assert lines[i..][1..] == lines[i + 1..];
      if directives {
        var directive := reader.directive(line);
        if directive.Some? {
          if directive.value.Escape? && !directive.value.backslash {
            return Err(UnsupportedEscape);
          }
          if directive.value.Syntax? && !directive.value.pinned {
            return Err(UnpinnedFrontend);
          }
          continue;
        }
        assert start == Ok(i) && [] + Logical(reader, lines[i..], []) == Logical(reader, lines[i..], []);
        directives := false;
      }
      if line == [] || line[0] == '#' {
        continue;
      }
      if line[|line| - 1] == '\\' {
        current := current + line[..|line| - 1] + [' '];
        continue;
      }
      LogicalStep(joined, [current + line] + Logical(reader, lines[i + 1..], []), current + line, Logical(reader, lines[i + 1..], []));
      joined, current := joined + [current + line], [];
    }
    assert lines[|lines|..] == [];
    ghost var ending := Logical(reader, [], current);
    if directives {
      assert start == Ok(|lines|) && joined + ending == ending;
    } else {
      assert Logical(reader, lines[start.value..], []) == joined + ending;
    }
    if reader.strip(current) != [] {
      joined := joined + [reader.strip(current)];
    } else {
      assert joined + [] == joined;
    }
    r := Ok(joined);
  }

  function Shifted(n: nat, r: Result<nat, Code>): Result<nat, Code> {
    match r
    case Ok(m) => Ok(n + m)
    case Err(code) => Err(code)
  }

  /** Writing an instruction over several lines, with comments between, reads as one line. */
  lemma ContinuationJoins(reader: Reader, a: string, comments: seq<string>, b: string, rest: seq<string>)
    requires a != [] && a[0] != '#' && b != [] && b[0] != '#' && b[|b| - 1] != '\\'
    requires forall c | c in comments :: c == [] || c[0] == '#'
    ensures Logical(reader, [a + ['\\']] + comments + [b] + rest, []) == [a + [' '] + b] + Logical(reader, rest, [])
  {
    var first := a + ['\\'];
    var tail := comments + ([b] + rest);
    assert [first] + comments + [b] + rest == [first] + tail && ([first] + tail)[1..] == tail;
    assert first[..|first| - 1] == a && [] + a + [' '] == a + [' '];
    CommentsSkipped(reader, comments, [b] + rest, a + [' ']);
    assert ([b] + rest)[1..] == rest;
  }

  lemma {:induction false} CommentsSkipped(reader: Reader, comments: seq<string>, rest: seq<string>, current: string)
    requires forall c | c in comments :: c == [] || c[0] == '#'
    ensures Logical(reader, comments + rest, current) == Logical(reader, rest, current)
  {
    if comments == [] {
      assert comments + rest == rest;
    } else {
      assert comments[0] in comments && (comments + rest)[1..] == comments[1..] + rest;
      assert forall c | c in comments[1..] :: c in comments;
      CommentsSkipped(reader, comments[1..], rest, current);
    }
  }

  // ------------------------------------------------------------------ provenance

  datatype Root = ArgRoot(arg: string) | Scratch | External(image: string)

  predicate IsStage(i: Instruction) {
    i.From? || i.UnreadableFrom?
  }

  predicate HasStage(steps: seq<Instruction>) {
    exists i :: 0 <= i < |steps| && IsStage(steps[i])
  }

  /** The last declaration of an argument in front of the first FROM: whether it has a default. */
  function Declared(steps: seq<Instruction>, arg: string): Option<bool> {
    if steps == [] then None
    else
      var before := steps[..|steps| - 1];
      var last := steps[|steps| - 1];
      if last.Arg? && !HasStage(before) && Token(last.tokens, arg).Some? then Token(last.tokens, arg)
      else Declared(before, arg)
  }

  function Token(tokens: seq<(string, bool)>, arg: string): Option<bool> {
    if tokens == [] then None
    else if tokens[|tokens| - 1].0 == arg then Some(tokens[|tokens| - 1].1)
    else Token(tokens[..|tokens| - 1], arg)
  }

  /** The latest stage of that alias, in any case. */
  function Latest(lower: string -> string, steps: seq<Instruction>, name: string): (r: Option<nat>)
    ensures r.Some? ==> r.value < |steps| && steps[r.value].From? && steps[r.value].alias.Some?
    ensures r.Some? ==> lower(steps[r.value].alias.value) == lower(name)
  {
    if steps == [] then None
    else
      var last := steps[|steps| - 1];
      if last.From? && last.alias.Some? && lower(last.alias.value) == lower(name) then Some(|steps| - 1)
      else Latest(lower, steps[..|steps| - 1], name)
  }

  /** What stage `i` is built from, following aliases to the end. */
  function RootOf(lower: string -> string, steps: seq<Instruction>, i: nat): Root
    requires i < |steps| && steps[i].From?
    decreases i
  {
    match steps[i].image
    case Variable(arg) => ArgRoot(arg)
    case Named(name, _) =>
      var j := Latest(lower, steps[..i], name);
      if j.Some? then RootOf(lower, steps, j.value)
      else if name == "scratch" then Scratch else External(name)
  }

  /** The checks made of one instruction where it stands. */
  predicate InstructionOk(reader: Reader, steps: seq<Instruction>, i: nat, args: set<string>)
    requires i < |steps|
  {
    match steps[i]
    case From(Variable(arg), _) => arg in args && Declared(steps[..i], arg) == Some(false)
    case From(Named(name, expands), _) =>
      !expands && (Latest(reader.lower, steps[..i], name).Some? || name == "scratch")
    case UnreadableFrom => false
    case Uses(images, remote) =>
      !remote && forall image | image in images :: Latest(reader.lower, steps[..i], image).Some? || reader.digits(image)
    case _ => true
  }

  /** The last stage, if there is one. */
  function LastStage(steps: seq<Instruction>): (r: Option<nat>)
    ensures r.Some? ==> r.value < |steps| && IsStage(steps[r.value])
    ensures r.Some? <==> HasStage(steps)
  {
    if steps == [] then None
    else if IsStage(steps[|steps| - 1]) then Some(|steps| - 1)
    else
      var before := steps[..|steps| - 1];
      assert forall i :: 0 <= i < |before| ==> before[i] == steps[i];
      LastStage(before)
  }

  ghost predicate AllOk(reader: Reader, steps: seq<Instruction>, args: set<string>) {
    forall i :: 0 <= i < |steps| ==> InstructionOk(reader, steps, i, args)
  }

  /** No finding: every instruction passes and the last stage comes from the runtime argument. */
  ghost predicate Clean(reader: Reader, steps: seq<Instruction>, args: set<string>, runtime: string) {
    && AllOk(reader, steps, args)
    && LastStage(steps).Some?
    && var last := LastStage(steps).value;
    steps[last].From? && RootOf(reader.lower, steps, last) == ArgRoot(runtime)
  }

  /** An argument the verified lock provides, whose last declaration in front of the first FROM has
      no default; or scratch. */
  predicate Trusted(root: Root, steps: seq<Instruction>, args: set<string>) {
    match root
    case ArgRoot(arg) => arg in args && Declared(steps, arg) == Some(false)
    case Scratch => true
    case External(_) => false
  }

  /** Stage `j` has that alias, in any case. */
  predicate Aliased(lower: string -> string, steps: seq<Instruction>, j: nat, name: string) {
    j < |steps| && steps[j].From? && steps[j].alias.Some? && lower(steps[j].alias.value) == lower(name)
  }

  lemma {:induction false} LatestExactly(lower: string -> string, steps: seq<Instruction>, name: string)
    ensures match Latest(lower, steps, name)
            case Some(j) => Aliased(lower, steps, j, name) && forall i :: j < i < |steps| ==> !Aliased(lower, steps, i, name)
            case None => forall i :: 0 <= i < |steps| ==> !Aliased(lower, steps, i, name)
  {
    if steps != [] {
      var before := steps[..|steps| - 1];
      LatestExactly(lower, before, name);
      forall i | 0 <= i < |before|
        ensures Aliased(lower, before, i, name) <==> Aliased(lower, steps, i, name)
      {
      }
    }
  }

  /** The token of one ARG that counts is the last one of that name. */
  predicate LastToken(tokens: seq<(string, bool)>, arg: string, m: nat) {
    m < |tokens| && tokens[m].0 == arg && forall l :: m < l < |tokens| ==> tokens[l].0 != arg
  }

  lemma {:induction false} TokenExactly(tokens: seq<(string, bool)>, arg: string)
    ensures match Token(tokens, arg)
            case Some(default) => exists m: nat :: LastToken(tokens, arg, m) && tokens[m].1 == default
            case None => forall m :: 0 <= m < |tokens| ==> tokens[m].0 != arg
  {
    if tokens != [] {
      var n := |tokens| - 1;
      if tokens[n].0 == arg {
        assert LastToken(tokens, arg, n);
      } else {
        TokenExactly(tokens[..n], arg);
        if Token(tokens, arg).Some? {
          var m: nat :| LastToken(tokens[..n], arg, m) && tokens[..n][m].1 == Token(tokens, arg).value;
          assert LastToken(tokens, arg, m);
        }
      }
    }
  }

  /** Instruction `k` declares the argument. */
  predicate Names(i: Instruction, arg: string) {
    i.Arg? && exists m :: 0 <= m < |i.tokens| && i.tokens[m].0 == arg
  }

  lemma NamesExactly(i: Instruction, arg: string)
    ensures Names(i, arg) <==> i.Arg? && Token(i.tokens, arg).Some?
  {
    if i.Arg? {
      TokenExactly(i.tokens, arg);
    }
  }

  predicate IsFirstStage(steps: seq<Instruction>, first: nat) {
    first <= |steps| && (first < |steps| ==> IsStage(steps[first])) && forall i :: 0 <= i < first ==> !IsStage(steps[i])
  }

  /** The declaration that counts: the last one in front of the first FROM, at the last of its tokens of
      that name. */
  predicate DeclaredAt(steps: seq<Instruction>, first: nat, arg: string, k: nat, m: nat)
    requires first <= |steps|
  {
    k < first && steps[k].Arg? && LastToken(steps[k].tokens, arg, m)
    && forall l :: k < l < first ==> !Names(steps[l], arg)
  }

  lemma {:induction false} DeclaredExactly(steps: seq<Instruction>, arg: string, first: nat)
    requires IsFirstStage(steps, first)
    ensures match Declared(steps, arg)
            case Some(default) => exists k: nat, m: nat :: DeclaredAt(steps, first, arg, k, m) && steps[k].tokens[m].1 == default
            case None => forall l :: 0 <= l < first ==> !Names(steps[l], arg)
  {
    if steps != [] {
      var n := |steps| - 1;
      var before, last := steps[..n], steps[n];
      StagesInFront(steps, first);
      NamesExactly(last, arg);
      if first == n + 1 && Names(last, arg) {
        TokenExactly(last.tokens, arg);
        var m: nat :| LastToken(last.tokens, arg, m) && last.tokens[m].1 == Token(last.tokens, arg).value;
        assert DeclaredAt(steps, first, arg, n, m);
      } else {
        var first' := if first <= n then first else n;
        DeclaredExactly(before, arg, first');
        if Declared(before, arg).Some? {
          var k: nat, m: nat :| DeclaredAt(before, first', arg, k, m) && before[k].tokens[m].1 == Declared(before, arg).value;
          assert DeclaredAt(steps, first, arg, k, m);
        }
      }
    }
  }

  /** Whether a stage is in front of the last instruction. */
  lemma StagesInFront(steps: seq<Instruction>, first: nat)
    requires steps != [] && IsFirstStage(steps, first)
    ensures var n := |steps| - 1;
      && (HasStage(steps[..n]) <==> first < n)
      && IsFirstStage(steps[..n], if first <= n then first else n)
  {
    var n := |steps| - 1;
    if first < n {
      assert IsStage(steps[..n][first]);
    }
  }

  /** From the first stage on nothing more is declared. */
  lemma {:induction false} DeclaredSettled(steps: seq<Instruction>, i: nat, arg: string)
    requires i < |steps| && IsStage(steps[i])
    ensures Declared(steps, arg) == Declared(steps[..i], arg)
  {
    var before := steps[..|steps| - 1];
    if i < |before| {
      assert before[i] == steps[i] && before[..i] == steps[..i];
      assert HasStage(before);
      DeclaredSettled(before, i, arg);
    }
  }

  /** With no finding, every stage was read, expands nothing, and - however long its chain of aliases -
      is built from a trusted argument or from scratch, and the last one from the runtime argument. */
  lemma {:induction false} EveryRootTrusted(reader: Reader, steps: seq<Instruction>, args: set<string>, runtime: string,
                                            i: nat)
    requires Clean(reader, steps, args, runtime) && i < |steps| && IsStage(steps[i])
    ensures steps[i].From? && (steps[i].image.Named? ==> !steps[i].image.expands)
    ensures Trusted(RootOf(reader.lower, steps, i), steps, args)
    ensures Some(i) == LastStage(steps) ==> RootOf(reader.lower, steps, i) == ArgRoot(runtime)
    decreases i
  {
    hide Latest, LastStage;
    assert InstructionOk(reader, steps, i, args);
    match steps[i].image
    case Variable(arg) => DeclaredSettled(steps, i, arg);
    case Named(name, _) =>
      var j := Latest(reader.lower, steps[..i], name);
      if j.Some? {
        EveryRootTrusted(reader, steps, args, runtime, j.value);
      }
  }

  /** And nothing is taken from outside: an image used is the alias of a stage in front, or a stage number,
      and no remote file comes without its checksum. */
  lemma NothingFromOutside(reader: Reader, steps: seq<Instruction>, args: set<string>, runtime: string, i: nat)
    requires Clean(reader, steps, args, runtime) && i < |steps| && steps[i].Uses?
    ensures !steps[i].remoteWithoutChecksum
    ensures forall image | image in steps[i].images ::
      reader.digits(image) || exists j :: 0 <= j < i && Aliased(reader.lower, steps, j, image)
  {
    hide Latest, LastStage;
    assert InstructionOk(reader, steps, i, args);
    forall image | image in steps[i].images && !reader.digits(image)
      ensures exists j :: 0 <= j < i && Aliased(reader.lower, steps, j, image)
    {
      LatestExactly(reader.lower, steps[..i], image);
      var j := Latest(reader.lower, steps[..i], image).value;
      assert Aliased(reader.lower, steps[..i], j, image) && Aliased(reader.lower, steps, j, image);
    }
  }

  /** Declarations behind the first stage do not count, so one that counts comes before it. */
  lemma {:induction false} DeclaredEarly(steps: seq<Instruction>, arg: string)
    requires Declared(steps, arg).Some?
    ensures exists k :: 0 <= k < |steps| && steps[k].Arg? && !HasStage(steps[..k]) && Token(steps[k].tokens, arg) == Declared(steps, arg)
  {
    var before, last := steps[..|steps| - 1], steps[|steps| - 1];
    if last.Arg? && !HasStage(before) && Token(last.tokens, arg).Some? {
      assert steps[..|steps| - 1] == before;
    } else {
      DeclaredEarly(before, arg);
      var k :| 0 <= k < |before| && before[k].Arg? && !HasStage(before[..k]) && Token(before[k].tokens, arg) == Declared(before, arg);
      assert steps[k] == before[k] && steps[..k] == before[..k];
    }
  }

  // ------------------------------------------------------------------- the check

  lemma {:induction false} StageOneMore(steps: seq<Instruction>, next: Instruction)
    ensures HasStage(steps + [next]) <==> HasStage(steps) || IsStage(next)
    ensures LastStage(steps + [next]) == if IsStage(next) then Some(|steps|) else LastStage(steps)
  {
    var all := steps + [next];
    assert all[..|steps|] == steps && all[|steps|] == next;
    if HasStage(steps) {
      var i :| 0 <= i < |steps| && IsStage(steps[i]);
      assert IsStage(all[i]);
    }
  }

  /** An instruction passes or fails by what comes before it alone, and so does a root. */
  lemma EarlierSame(reader: Reader, steps: seq<Instruction>, next: Instruction, i: nat, args: set<string>)
    requires i < |steps|
    ensures InstructionOk(reader, steps + [next], i, args) <==> InstructionOk(reader, steps, i, args)
    ensures steps[i].From? ==> RootOf(reader.lower, steps + [next], i) == RootOf(reader.lower, steps, i)
  {
    assert (steps + [next])[..i] == steps[..i];
    if steps[i].From? {
      RootSame(reader.lower, steps, next, i);
    }
  }

  lemma {:induction false} RootSame(lower: string -> string, steps: seq<Instruction>, next: Instruction, i: nat)
    requires i < |steps| && steps[i].From?
    ensures RootOf(lower, steps + [next], i) == RootOf(lower, steps, i)
    decreases i
  {
    assert (steps + [next])[..i] == steps[..i];
    if steps[i].image.Named? {
      var j := Latest(lower, steps[..i], steps[i].image.name);
      if j.Some? {
        RootSame(lower, steps, next, j.value);
      }
    }
  }

  /** `global_args`: what is declared before the first FROM. */
  ghost predicate ArgsKept(steps: seq<Instruction>, globals: map<string, bool>) {
    forall arg :: Declared(steps, arg) == if arg in globals then Some(globals[arg]) else None
  }

  ghost predicate NameKept(reader: Reader, steps: seq<Instruction>, names: map<string, Root>, name: string) {
    var j := Latest(reader.lower, steps, name);
    && (reader.lower(name) in names <==> j.Some?)
    && (j.Some? ==> names[reader.lower(name)] == RootOf(reader.lower, steps, j.value))
  }

  /** `names`: the root of the latest stage of each alias. */
  ghost predicate NamesKept(reader: Reader, steps: seq<Instruction>, names: map<string, Root>) {
    forall name :: NameKept(reader, steps, names, name)
  }

  lemma DeclaredOneMore(steps: seq<Instruction>, next: Instruction, arg: string)
    ensures Declared(steps + [next], arg)
         == if next.Arg? && !HasStage(steps) && Token(next.tokens, arg).Some? then Token(next.tokens, arg)
            else Declared(steps, arg)
  {
    assert (steps + [next])[..|steps|] == steps;
  }

  lemma LatestOneMore(lower: string -> string, steps: seq<Instruction>, next: Instruction, name: string)
    ensures Latest(lower, steps + [next], name)
         == if next.From? && next.alias.Some? && lower(next.alias.value) == lower(name) then Some(|steps|)
            else Latest(lower, steps, name)
  {
    assert (steps + [next])[..|steps|] == steps;
  }

  /** `names` after one more instruction: a FROM with an alias replaces that alias. */
  function NamesAfter(reader: Reader, steps: seq<Instruction>, next: Instruction, names: map<string, Root>): map<string, Root> {
    if next.From? && next.alias.Some?
    then names[reader.lower(next.alias.value) := RootOf(reader.lower, steps + [next], |steps|)]
    else names
  }

  lemma NameOneMore(reader: Reader, steps: seq<Instruction>, next: Instruction, names: map<string, Root>, name: string)
    requires NameKept(reader, steps, names, name)
    ensures NameKept(reader, steps + [next], NamesAfter(reader, steps, next, names), name)
  {
    hide RootOf, Latest;
    LatestOneMore(reader.lower, steps, next, name);
    var j := Latest(reader.lower, steps, name);
    if j.Some? {
      RootSame(reader.lower, steps, next, j.value);
    }
  }

  lemma NamesOneMore(reader: Reader, steps: seq<Instruction>, next: Instruction, names: map<string, Root>)
    requires NamesKept(reader, steps, names)
    ensures NamesKept(reader, steps + [next], NamesAfter(reader, steps, next, names))
  {
    hide NameKept, NamesAfter;
    forall name
      ensures NameKept(reader, steps + [next], NamesAfter(reader, steps, next, names), name)
    {
      assert NameKept(reader, steps, names, name);
      NameOneMore(reader, steps, next, names, name);
    }
  }

  /** The tokens of one ARG added: a later declaration replaces an earlier one. */
  ghost predicate Added(tokens: seq<(string, bool)>, globals: map<string, bool>, more: map<string, bool>) {
    && (forall arg :: arg in more <==> arg in globals || Token(tokens, arg).Some?)
    && (forall arg | arg in more ::
          more[arg] == if Token(tokens, arg).Some? then Token(tokens, arg).value else globals[arg])
  }

  /** The loop over the tokens of one ARG. */
  method AddArgs(tokens: seq<(string, bool)>, globals: map<string, bool>) returns (r: map<string, bool>)
    ensures Added(tokens, globals, r)
  {
    r := globals;
    for i := 0 to |tokens|
      invariant Added(tokens[..i], globals, r)
    {
      assert tokens[..i + 1][..i] == tokens[..i];
      r := r[tokens[i].0 := tokens[i].1];
    }
    assert tokens[..|tokens|] == tokens;
  }

  /** The findings of one FROM that was read, and its root. */
  method CheckFrom(reader: Reader, image: Image, args: set<string>, globals: map<string, bool>, names: map<string, Root>)
    returns (root: Root, findings: seq<Code>)
    ensures image.Variable? ==>
      root == ArgRoot(image.arg)
    ensures image.Variable? ==>
      (findings == [] <==> image.arg in args && image.arg in globals && !globals[image.arg])
    ensures image.Named? ==>
      root == (if reader.lower(image.name) in names then names[reader.lower(image.name)]
               else if image.name == "scratch" then Scratch else External(image.name))
    ensures image.Named? ==>
      (findings == [] <==> !image.expands && (reader.lower(image.name) in names || image.name == "scratch"))
  {
    findings := [];
    match image
    case Variable(arg) =>
      root := ArgRoot(arg);
      if arg !in args {
        findings := [UnverifiedFrom];
      } else if arg !in globals {
        findings := [UndeclaredArg];
      } else if globals[arg] {
        findings := [ArgDefault];
      }
    case Named(name, expands) =>
      if reader.lower(name) in names {
        root := names[reader.lower(name)];
      } else if name == "scratch" {
        root := Scratch;
      } else {
        root := External(name);
        findings := [UnverifiedFrom];
      }
      if expands {
        findings := findings + [ArgDefault];
      }
  }

  predicate UsesFine(reader: Reader, images: seq<string>, remote: bool, names: map<string, Root>) {
    !remote && forall image | image in images :: reader.lower(image) in names || reader.digits(image)
  }

  /** The findings of one COPY, ADD or RUN. */
  method CheckUses(reader: Reader, images: seq<string>, remote: bool, names: map<string, Root>) returns (findings: seq<Code>)
    ensures findings == [] <==> UsesFine(reader, images, remote, names)
  {
    findings := [];
    for i := 0 to |images|
      invariant findings == [] <==> forall image | image in images[..i] :: reader.lower(image) in names || reader.digits(image)
    {
      assert images[..i + 1] == images[..i] + [images[i]];
      if reader.lower(images[i]) !in names && !reader.digits(images[i]) {
        findings := findings + [ExternalImage];
      }
    }
    assert images[..|images|] == images;
    if remote {
      findings := findings + [RemoteAdd];
    }
  }

  function ReadAll(reader: Reader, lines: seq<string>): (r: seq<Instruction>)
    ensures |r| == |lines| && forall i :: 0 <= i < |lines| ==> r[i] == reader.read(lines[i])
  {
    seq(|lines|, i requires 0 <= i < |lines| => reader.read(lines[i]))
  }

  /** `stages`: the root of the last stage is its last element. */
  ghost predicate LastKept(reader: Reader, steps: seq<Instruction>, stages: seq<Option<Root>>) {
    var last := LastStage(steps);
    && (stages == [] <==> last.None?)
    && (last.Some? ==> stages[|stages| - 1] == StageRoot(reader, steps, last.value))
  }

  /** What `stages` holds for a FROM: its root, or nothing when it could not be read. */
  function StageRoot(reader: Reader, steps: seq<Instruction>, i: nat): Option<Root>
    requires i < |steps|
  {
    if steps[i].From? then Some(RootOf(reader.lower, steps, i)) else None
  }

  /** What the loop's three collections hold after those instructions. */
  ghost predicate Kept(reader: Reader, steps: seq<Instruction>, globals: map<string, bool>, names: map<string, Root>,
                       stages: seq<Option<Root>>) {
    ArgsKept(steps, globals) && NamesKept(reader, steps, names) && LastKept(reader, steps, stages)
  }

  lemma NothingRead(reader: Reader)
    ensures Kept(reader, [], map[], map[], [])
  {
  }

  lemma LastOneMore(reader: Reader, steps: seq<Instruction>, next: Instruction, stages: seq<Option<Root>>)
    requires LastKept(reader, steps, stages)
    ensures LastKept(reader, steps + [next],
                     if IsStage(next) then stages + [StageRoot(reader, steps + [next], |steps|)] else stages)
  {
    hide RootOf, LastStage;
    StageOneMore(steps, next);
    if !IsStage(next) && LastStage(steps).Some? {
      var last := LastStage(steps).value;
      if steps[last].From? {
        RootSame(reader.lower, steps, next, last);
      }
    }
  }

  lemma ArgsOneMore(steps: seq<Instruction>, next: Instruction, globals: map<string, bool>, more: map<string, bool>)
    requires ArgsKept(steps, globals)
    requires if next.Arg? && !HasStage(steps) then Added(next.tokens, globals, more) else more == globals
    ensures ArgsKept(steps + [next], more)
  {
    hide Declared, HasStage, Token;
    forall arg
      ensures Declared(steps + [next], arg) == if arg in more then Some(more[arg]) else None
    {
      DeclaredOneMore(steps, next, arg);
    }
  }

  lemma FindingsOneMore(reader: Reader, steps: seq<Instruction>, next: Instruction, args: set<string>)
    ensures AllOk(reader, steps + [next], args)
       <==> AllOk(reader, steps, args) && InstructionOk(reader, steps + [next], |steps|, args)
  {
    hide InstructionOk, RootOf;
    forall k: nat | k < |steps|
      ensures InstructionOk(reader, steps + [next], k, args) <==> InstructionOk(reader, steps, k, args)
    {
      EarlierSame(reader, steps, next, k, args);
    }
  }

  /** The FROM just read, against the names and arguments kept so far. */
  lemma FromDecided(reader: Reader, steps: seq<Instruction>, next: Instruction, args: set<string>,
                    globals: map<string, bool>, names: map<string, Root>)
    requires next.From? && ArgsKept(steps, globals) && NamesKept(reader, steps, names)
    ensures InstructionOk(reader, steps + [next], |steps|, args) <==>
      match next.image
      case Variable(arg) => arg in args && arg in globals && !globals[arg]
      case Named(name, expands) => !expands && (reader.lower(name) in names || name == "scratch")
    ensures RootOf(reader.lower, steps + [next], |steps|) ==
      match next.image
      case Variable(arg) => ArgRoot(arg)
      case Named(name, _) =>
        if reader.lower(name) in names then names[reader.lower(name)]
        else if name == "scratch" then Scratch else External(name)
  {
    hide Declared, Latest;
    assert (steps + [next])[..|steps|] == steps && (steps + [next])[|steps|] == next;
    match next.image
    case Variable(arg) =>
      assert Declared(steps, arg) == if arg in globals then Some(globals[arg]) else None;
    case Named(name, _) =>
      var j := Latest(reader.lower, steps, name);
      assert NameKept(reader, steps, names, name);
      if j.Some? {
        RootSame(reader.lower, steps, next, j.value);
      }
  }

  lemma UsesDecided(reader: Reader, steps: seq<Instruction>, next: Instruction, args: set<string>, names: map<string, Root>)
    requires next.Uses? && NamesKept(reader, steps, names)
    ensures InstructionOk(reader, steps + [next], |steps|, args) <==> UsesFine(reader, next.images, next.remoteWithoutChecksum, names)
  {
    hide Latest, RootOf;
    assert (steps + [next])[..|steps|] == steps && (steps + [next])[|steps|] == next;
    forall image
      ensures reader.lower(image) in names <==> Latest(reader.lower, steps, image).Some?
    {
      assert NameKept(reader, steps, names, image);
    }
  }

  lemma RestDecided(reader: Reader, steps: seq<Instruction>, next: Instruction, args: set<string>)
    requires !next.From? && !next.Uses?
    ensures InstructionOk(reader, steps + [next], |steps|, args) <==> !next.UnreadableFrom?
  {
  }

  /** The body of the loop: one instruction. */
  method CheckInstruction(reader: Reader, ghost steps: seq<Instruction>, next: Instruction, args: set<string>,
                          globals: map<string, bool>, names: map<string, Root>, stages: seq<Option<Root>>)
    returns (findings: seq<Code>, globals': map<string, bool>, names': map<string, Root>, stages': seq<Option<Root>>)
    requires Kept(reader, steps, globals, names, stages)
    ensures findings == [] <==> InstructionOk(reader, steps + [next], |steps|, args)
    ensures Kept(reader, steps + [next], globals', names', stages')
  {
    hide Latest, RootOf, Declared, LastStage, HasStage, Token, ArgsKept, NamesKept, InstructionOk;
    findings, globals', names', stages' := [], globals, names, stages;
    LastOneMore(reader, steps, next, stages);
    NamesOneMore(reader, steps, next, names);
    if !next.From? && !next.Uses? {
      RestDecided(reader, steps, next, args);
    }
    assert HasStage(steps) <==> stages != [];
    match next {
      case Arg(tokens) =>
        if stages == [] {
          globals' := AddArgs(tokens, globals);
        }
      case From(image, alias) =>
        var root: Root;
        root, findings := CheckFrom(reader, image, args, globals, names);
        FromDecided(reader, steps, next, args, globals, names);
        if alias.Some? {
          names' := names[reader.lower(alias.value) := root];
        }
        stages' := stages + [Some(root)];
      case UnreadableFrom =>
        findings := [Unsupported];
        stages' := stages + [None];
      case Uses(images, remote) =>
        findings := CheckUses(reader, images, remote, names);
        UsesDecided(reader, steps, next, args, names);
      case Other =>
    }
    ArgsOneMore(steps, next, globals, globals');
  }

  /** `check_dockerfile` reports nothing exactly when the Dockerfile is clean. */
  method CheckLines(reader: Reader, lines: seq<string>, args: set<string>, runtime: string)
    returns (findings: seq<Code>, stages: seq<Option<Root>>)
    ensures findings == [] <==> Clean(reader, ReadAll(reader, lines), args, runtime)
  {
    hide Latest, RootOf, Declared, LastStage, InstructionOk, ArgsKept, NamesKept;
    findings, stages := [], [];
    var globals: map<string, bool>, names: map<string, Root> := map[], map[];
    ghost var steps := ReadAll(reader, lines);
    NothingRead(reader);
    for i := 0 to |lines|
      invariant Kept(reader, steps[..i], globals, names, stages)
      invariant findings == [] <==> AllOk(reader, steps[..i], args)
    {
      var step := reader.read(lines[i]);
      assert steps[..i + 1] == steps[..i] + [step];
      var more: seq<Code>;
      more, globals, names, stages := CheckInstruction(reader, steps[..i], step, args, globals, names, stages);
      FindingsOneMore(reader, steps[..i], step, args);
      findings := findings + more;
    }
    assert steps[..|lines|] == steps;
    if stages == [] {
      findings := findings + [Unsupported];
    } else if stages[|stages| - 1] != Some(ArgRoot(runtime)) {
      findings := findings + [FinalStageNotRuntime];
    }
  }

  /** `check_dockerfile`: a refused parser directive, or the findings. */
  method CheckDockerfile(reader: Reader, lines: seq<string>, args: set<string>, runtime: string)
    returns (r: Result<seq<Code>, Code>)
    ensures r.Err? <==> LogicalLines(reader, lines).Err?
    ensures r == Ok([]) <==>
      var logical := LogicalLines(reader, lines);
      logical.Ok? && Clean(reader, ReadAll(reader, logical.value), args, runtime)
  {
    hide Clean, LogicalLines;
    var logical := JoinLines(reader, lines);
    match logical {
      case Err(code) => r := Err(code);
      case Ok(joined) =>
        var findings, _ := CheckLines(reader, joined, args, runtime);
        r := Ok(findings);
    }
  }
}
