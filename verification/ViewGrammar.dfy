/** The grammar documented for `view_structure` of `athena_run.py`: what a query is written
    as (with every optional word and parenthesis), and the structure it stands for. */
module ViewGrammar {
  import opened Common

  /** The reserved words the grammar speaks of; every other one only ends what is before it. */
  datatype Word =
    | SELECT | DISTINCT | FROM | WHERE | INNER | JOIN | ON | AS | AND | TRUE | FALSE
    | LEFT | RIGHT | FULL | CROSS | NATURAL | OUTER | Reserved(text: string)

  datatype Symbol = Dot | Comma | Equal | Open | Close

  datatype Token = Keyword(word: Word) | Identifier(text: string) | Literal(raw: string) | Sign(symbol: Symbol)

  type Tokens = seq<Token>

  // ------------------------------------------------------------ as it is written

  datatype Name = Name(qualifier: Option<string>, name: string)

  datatype Operand = ColumnOperand(column: Name) | TextOperand(raw: string) | BooleanOperand(value: bool)

  datatype Term = Group(condition: Condition) | Compare(left: Name, right: Operand)

  /** One term, or a term, AND and the rest. */
  datatype Condition = One(term: Term) | Both(term: Term, rest: Condition)

  datatype Alias = NoAlias | Named(explicit: bool, name: string)

  datatype Relation = Relation(database: string, table: string, alias: Alias)

  datatype Source =
    | Plain(relation: Relation)
    | Joined(grouped: bool, inner: bool, left: Relation, right: Relation, on: Condition)

  datatype Query = Query(distinct: bool, columns: seq<Name>, source: Source, where: Option<Condition>)

  function NameTokens(n: Name): Tokens {
    (if n.qualifier.Some? then [Identifier(n.qualifier.value), Sign(Dot)] else []) + [Identifier(n.name)]
  }

  function OperandTokens(o: Operand): Tokens {
    match o
    case ColumnOperand(column) => NameTokens(column)
    case TextOperand(raw) => [Literal(raw)]
    case BooleanOperand(value) => [Keyword(if value then TRUE else FALSE)]
  }

  function TermTokens(t: Term): Tokens {
    match t
    case Group(condition) => [Sign(Open)] + ConditionTokens(condition) + [Sign(Close)]
    case Compare(left, right) => NameTokens(left) + [Sign(Equal)] + OperandTokens(right)
  }

  function ConditionTokens(c: Condition): Tokens {
    match c
    case One(term) => TermTokens(term)
    case Both(term, rest) => TermTokens(term) + [Keyword(AND)] + ConditionTokens(rest)
  }

  function AliasTokens(a: Alias): Tokens {
    match a
    case NoAlias => []
    case Named(explicit, name) => (if explicit then [Keyword(AS)] else []) + [Identifier(name)]
  }

  function RelationTokens(r: Relation): Tokens {
    [Identifier(r.database), Sign(Dot), Identifier(r.table)] + AliasTokens(r.alias)
  }

  function JoinTokens(inner: bool): Tokens {
    (if inner then [Keyword(INNER)] else []) + [Keyword(JOIN)]
  }

  function SourceTokens(s: Source): Tokens {
    match s
    case Plain(relation) => RelationTokens(relation)
    case Joined(grouped, inner, left, right, on) =>
      var on := [Keyword(ON)] + ConditionTokens(on) + (if grouped then [Sign(Close)] else []);
      var join := RelationTokens(left) + (JoinTokens(inner) + (RelationTokens(right) + on));
      if grouped then [Sign(Open)] + join else join
  }

  function ColumnsTokens(columns: seq<Name>): Tokens {
    if columns == [] then []
    else if |columns| == 1 then NameTokens(columns[0])
    else NameTokens(columns[0]) + [Sign(Comma)] + ColumnsTokens(columns[1..])
  }

  function QueryTokens(q: Query): Tokens {
    var where := if q.where.Some? then [Keyword(WHERE)] + ConditionTokens(q.where.value) else [];
    var columns := ColumnsTokens(q.columns) + ([Keyword(FROM)] + (SourceTokens(q.source) + where));
    [Keyword(SELECT)] + (if q.distinct then [Keyword(DISTINCT)] + columns else columns)
  }

  // --------------------------------------------------------- what it stands for

  /** AND groups of two or more, kept as they were grouped. */
  datatype Node = Equals(left: Name, right: Operand) | AllOf(nodes: seq<Node>)

  datatype Table = Table(database: string, table: string, alias: Option<string>)

  datatype Shape = Single(table: Table) | InnerJoin(left: Table, right: Table, on: Node)

  datatype Structure = Structure(distinct: bool, columns: seq<Name>, source: Shape, where: Option<Node>)

  function Together(nodes: seq<Node>): Node
    requires nodes != []
  {
    if |nodes| == 1 then nodes[0] else AllOf(nodes)
  }

  function TermNode(t: Term): Node
    decreases t, 0
  {
    match t
    case Group(condition) => Together(Nodes(condition))
    case Compare(left, right) => Equals(left, right)
  }

  /** The nodes of the terms of a condition, in order. */
  function Nodes(c: Condition): (r: seq<Node>)
    ensures r != []
    decreases c, 1
  {
    match c
    case One(term) => [TermNode(term)]
    case Both(term, rest) => [TermNode(term)] + Nodes(rest)
  }

  function ConditionNode(c: Condition): Node {
    Together(Nodes(c))
  }

  function TableOf(r: Relation): Table {
    Table(r.database, r.table, if r.alias.Named? then Some(r.alias.name) else None)
  }

  function ShapeOf(s: Source): Shape {
    match s
    case Plain(relation) => Single(TableOf(relation))
    case Joined(_, _, left, right, on) => InnerJoin(TableOf(left), TableOf(right), ConditionNode(on))
  }

  function Meaning(q: Query): Structure {
    Structure(q.distinct, q.columns, ShapeOf(q.source), if q.where.Some? then Some(ConditionNode(q.where.value)) else None)
  }

  // ------------------------------------------------------------------- aliases

  function OperandNames(o: Operand): seq<Name> {
    if o.ColumnOperand? then [o.column] else []
  }

  /** The columns a condition refers to. */
  function References(node: Node): seq<Name> {
    match node
    case Equals(left, right) => [left] + OperandNames(right)
    case AllOf(nodes) => AllReferences(nodes)
  }

  function AllReferences(nodes: seq<Node>): seq<Name> {
    if nodes == [] then [] else References(nodes[0]) + AllReferences(nodes[1..])
  }

  function MaybeReferences(node: Option<Node>): seq<Name> {
    if node.Some? then References(node.value) else []
  }

  function Aliases(shape: Shape): seq<Option<string>> {
    match shape
    case Single(table) => [table.alias]
    case InnerJoin(left, right, _) => [left.alias, right.alias]
  }

  /** Declared aliases are distinct, both there in a join, and bind every qualifier. */
  predicate AliasesOk(v: Structure) {
    var aliases := Aliases(v.source);
    && (|aliases| == 2 ==> aliases[0] != aliases[1] && None !in aliases)
    && (forall c | c in v.columns :: c.qualifier in aliases)
    && (v.source.InnerJoin? ==> forall c | c in References(v.source.on) :: c.qualifier in aliases)
    && forall c | c in MaybeReferences(v.where) :: c.qualifier in aliases
  }

  // ----------------------------------- what the structure keeps of the writing

  /** Parentheses that return the same node: around a single term, or around a whole condition. */
  function StripTerm(t: Term): Term
    decreases t, 0
  {
    match t
    case Compare(_, _) => t
    case Group(condition) =>
      var inner := Strip(condition);
      if inner.One? then inner.term else Group(inner)
  }

  function Strip(c: Condition): Condition
    decreases c, 1
  {
    match c
    case One(term) =>
      var t := StripTerm(term);
      if t.Group? then t.condition else One(t)
    case Both(term, rest) => Both(StripTerm(term), StripRest(rest))
  }

  function StripRest(c: Condition): Condition
    decreases c, 1
  {
    match c
    case One(term) => One(StripTerm(term))
    case Both(term, rest) => Both(StripTerm(term), StripRest(rest))
  }

  /** A term without redundant parentheses: a comparison, or a group of two or more. */
  predicate TidyTerm(t: Term)
    decreases t, 0
  {
    match t
    case Compare(_, _) => true
    case Group(condition) => condition.Both? && TidyTerms(condition)
  }

  predicate TidyTerms(c: Condition)
    decreases c, 1
  {
    match c
    case One(term) => TidyTerm(term)
    case Both(term, rest) => TidyTerm(term) && TidyTerms(rest)
  }

  predicate Tidy(c: Condition) {
    TidyTerms(c) && (c.One? ==> c.term.Compare?)
  }

  lemma {:induction false} StripTidies(c: Condition)
    ensures Tidy(Strip(c)) && ConditionNode(Strip(c)) == ConditionNode(c)
    decreases c, 1
  {
    match c
    case One(term) => StripTermTidies(term);
    case Both(term, rest) =>
      StripTermTidies(term);
      StripRestTidies(rest);
  }

  lemma {:induction false} StripRestTidies(c: Condition)
    ensures TidyTerms(StripRest(c)) && Nodes(StripRest(c)) == Nodes(c)
    decreases c, 1
  {
    match c
    case One(term) => StripTermTidies(term);
    case Both(term, rest) =>
      StripTermTidies(term);
      StripRestTidies(rest);
  }

  lemma {:induction false} StripTermTidies(t: Term)
    ensures TidyTerm(StripTerm(t)) && TermNode(StripTerm(t)) == TermNode(t)
    decreases t, 0
  {
    if t.Group? {
      StripTidies(t.condition);
    }
  }

  lemma {:induction false} NodesLength(c: Condition)
    ensures |Nodes(c)| == 1 <==> c.One?
  {
  }

  lemma TidyTermKind(t: Term)
    requires TidyTerm(t)
    ensures TermNode(t).AllOf? <==> t.Group?
    ensures t.Group? ==> TermNode(t) == AllOf(Nodes(t.condition))
  {
    if t.Group? {
      NodesLength(t.condition);
    }
  }

  /** Tidy conditions with the same nodes are the same condition. */
  lemma {:induction false} TidyTermsUnique(a: Condition, b: Condition)
    requires TidyTerms(a) && TidyTerms(b) && Nodes(a) == Nodes(b)
    ensures a == b
    decreases a, 1
  {
    NodesLength(a);
    NodesLength(b);
    assert Nodes(a)[0] == TermNode(a.term) && Nodes(b)[0] == TermNode(b.term);
    TidyTermUnique(a.term, b.term);
    if a.Both? {
      assert Nodes(a)[1..] == Nodes(a.rest) && Nodes(b)[1..] == Nodes(b.rest);
      TidyTermsUnique(a.rest, b.rest);
    }
  }

  lemma {:induction false} TidyTermUnique(t: Term, u: Term)
    requires TidyTerm(t) && TidyTerm(u) && TermNode(t) == TermNode(u)
    ensures t == u
    decreases t, 0
  {
    TidyTermKind(t);
    TidyTermKind(u);
    if t.Group? {
      TidyTermsUnique(t.condition, u.condition);
    }
  }

  /** Two conditions stand for the same node exactly when they differ only in parentheses
      that return the same node; in particular AND groups are never flattened. */
  lemma SameNodeExactly(a: Condition, b: Condition)
    ensures ConditionNode(a) == ConditionNode(b) <==> Strip(a) == Strip(b)
  {
    StripTidies(a);
    StripTidies(b);
    if ConditionNode(a) == ConditionNode(b) {
      var x, y := Strip(a), Strip(b);
      NodesLength(x);
      NodesLength(y);
      if x.One? {
        assert ConditionNode(x) == TermNode(x.term);
      }
      if y.One? {
        assert ConditionNode(y) == TermNode(y.term);
      }
      assert Nodes(x) == Nodes(y);
      TidyTermsUnique(x, y);
    }
  }

  /** A group of two ANDs inside another AND is not the flat list. */
  lemma NestedIsNotFlat(a: Term, b: Term, c: Term)
    requires a.Compare? && b.Compare? && c.Compare?
    ensures ConditionNode(Both(Group(Both(a, One(b))), One(c))) != ConditionNode(Both(a, Both(b, One(c))))
    ensures ConditionNode(Both(a, One(Group(Both(b, One(c)))))) != ConditionNode(Both(a, Both(b, One(c))))
  {
    assert |Nodes(Both(Group(Both(a, One(b))), One(c)))| == 2;
    assert |Nodes(Both(a, One(Group(Both(b, One(c))))))| == 2;
    assert |Nodes(Both(a, Both(b, One(c))))| == 3;
  }

  // ----------------------------------------------------------------- a printer

  /** Groups of a structure hold at least two nodes. */
  predicate WellNode(node: Node) {
    node.AllOf? ==> 2 <= |node.nodes| && forall n | n in node.nodes :: WellNode(n)
  }

  function TermOf(node: Node): Term
    requires WellNode(node)
    decreases node, 0
  {
    match node
    case Equals(left, right) => Compare(left, right)
    case AllOf(nodes) => Group(ConditionOf(nodes))
  }

  function ConditionOf(nodes: seq<Node>): (c: Condition)
    requires nodes != [] && forall n | n in nodes :: WellNode(n)
    ensures c.One? <==> |nodes| == 1
    decreases nodes, 1
  {
    if |nodes| == 1 then One(TermOf(nodes[0])) else Both(TermOf(nodes[0]), ConditionOf(nodes[1..]))
  }

  function ConditionFor(node: Node): Condition
    requires WellNode(node)
  {
    if node.AllOf? then ConditionOf(node.nodes) else One(TermOf(node))
  }

  lemma {:induction false} TermForNode(node: Node)
    requires WellNode(node)
    ensures TermNode(TermOf(node)) == node
    decreases node, 0
  {
    if node.AllOf? {
      NodesOfCondition(node.nodes);
    }
  }

  lemma {:induction false} NodesOfCondition(nodes: seq<Node>)
    requires nodes != [] && forall n | n in nodes :: WellNode(n)
    ensures Nodes(ConditionOf(nodes)) == nodes
    decreases nodes, 1
  {
    TermForNode(nodes[0]);
    if |nodes| != 1 {
      NodesOfCondition(nodes[1..]);
    }
  }

  /** The printer for a condition gives it back. */
  lemma PrintedNode(node: Node)
    requires WellNode(node)
    ensures ConditionNode(ConditionFor(node)) == node
  {
    if node.AllOf? {
      NodesOfCondition(node.nodes);
    } else {
      TermForNode(node);
    }
  }

  predicate WellFormed(v: Structure) {
    && v.columns != []
    && (v.source.InnerJoin? ==> WellNode(v.source.on))
    && (v.where.Some? ==> WellNode(v.where.value))
  }

  function RelationFor(t: Table): Relation {
    Relation(t.database, t.table, if t.alias.Some? then Named(true, t.alias.value) else NoAlias)
  }

  /** A query that is written with every optional word and without redundant parentheses. */
  function Printed(v: Structure): Query
    requires WellFormed(v)
  {
    Query(v.distinct, v.columns,
          match v.source {
            case Single(table) => Plain(RelationFor(table))
            case InnerJoin(left, right, on) => Joined(false, true, RelationFor(left), RelationFor(right), ConditionFor(on))
          },
          if v.where.Some? then Some(ConditionFor(v.where.value)) else None)
  }

  lemma PrintedMeans(v: Structure)
    requires WellFormed(v)
    ensures Meaning(Printed(v)) == v
  {
    if v.source.InnerJoin? {
      PrintedNode(v.source.on);
    }
    if v.where.Some? {
      PrintedNode(v.where.value);
    }
  }

  // ------------------------------------------------------------- normal writing

  function NormalRelation(r: Relation): Relation {
    r.(alias := if r.alias.Named? then Named(true, r.alias.name) else NoAlias)
  }

  /** The same query with every optional INNER and AS and no parentheses that return the same node. */
  function Normal(q: Query): Query {
    Query(q.distinct, q.columns,
          match q.source {
            case Plain(relation) => Plain(NormalRelation(relation))
            case Joined(_, _, left, right, on) =>
              Joined(false, true, NormalRelation(left), NormalRelation(right), Strip(on))
          },
          if q.where.Some? then Some(Strip(q.where.value)) else None)
  }

  /** Two queries have the same structure exactly when they differ only in optional words and
      in parentheses that return the same node. */
  lemma SameMeaningExactly(p: Query, q: Query)
    ensures Meaning(p) == Meaning(q) <==> Normal(p) == Normal(q)
  {
    hide ConditionNode, Strip;
    if p.source.Joined? && q.source.Joined? {
      SameNodeExactly(p.source.on, q.source.on);
    }
    if p.where.Some? && q.where.Some? {
      SameNodeExactly(p.where.value, q.where.value);
    }
  }

  // ---------------------------------------------------------------- parentheses

  const DEPTH: nat := 4

  /** The open parentheses behind the tokens, unless some prefix closes too many or nests too deep. */
  function DepthAfter(ts: Tokens, depth: nat): Option<nat> {
    if ts == [] then Some(depth)
    else if ts[0] == Sign(Open) then if DEPTH <= depth then None else DepthAfter(ts[1..], depth + 1)
    else if ts[0] == Sign(Close) then if depth == 0 then None else DepthAfter(ts[1..], depth - 1)
    else DepthAfter(ts[1..], depth)
  }

  function TermDepth(t: Term): nat {
    match t
    case Group(condition) => 1 + ConditionDepth(condition)
    case Compare(_, _) => 0
  }

  function ConditionDepth(c: Condition): nat {
    match c
    case One(term) => TermDepth(term)
    case Both(term, rest) => Max(TermDepth(term), ConditionDepth(rest))
  }

  function QueryDepth(q: Query): nat {
    Max(if q.source.Joined? then ConditionDepth(q.source.on) + (if q.source.grouped then 1 else 0) else 0,
        if q.where.Some? then ConditionDepth(q.where.value) else 0)
  }

  predicate Level(ts: Tokens) {
    forall t | t in ts :: t != Sign(Open) && t != Sign(Close)
  }

  lemma {:induction false} LevelDepth(ts: Tokens, rest: Tokens, depth: nat)
    requires Level(ts)
    ensures DepthAfter(ts + rest, depth) == DepthAfter(rest, depth)
  {
    if ts == [] {
      assert ts + rest == rest;
    } else {
      assert (ts + rest)[0] == ts[0] && ts[0] in ts && (ts + rest)[1..] == ts[1..] + rest;
      assert forall t | t in ts[1..] :: t in ts;
      LevelDepth(ts[1..], rest, depth);
    }
  }

  lemma {:induction false} TermDepthIs(t: Term, rest: Tokens, depth: nat)
    requires depth <= DEPTH
    ensures DepthAfter(TermTokens(t) + rest, depth)
         == if depth + TermDepth(t) <= DEPTH then DepthAfter(rest, depth) else None
    decreases t, 0
  {
    match t
    case Group(condition) =>
      var behind := [Sign(Close)] + rest;
      var inner := ConditionTokens(condition) + behind;
      assert TermTokens(t) + rest == [Sign(Open)] + inner;
      assert ([Sign(Open)] + inner)[1..] == inner && behind[1..] == rest;
      if depth < DEPTH {
        ConditionDepthIs(condition, behind, depth + 1);
      }
    case Compare(left, right) => LevelDepth(TermTokens(t), rest, depth);
  }

  lemma {:induction false} ConditionDepthIs(c: Condition, rest: Tokens, depth: nat)
    requires depth <= DEPTH
    ensures DepthAfter(ConditionTokens(c) + rest, depth)
         == if depth + ConditionDepth(c) <= DEPTH then DepthAfter(rest, depth) else None
    decreases c, 1
  {
    match c
    case One(term) => TermDepthIs(term, rest, depth);
    case Both(term, more) =>
      var behind := [Keyword(AND)] + (ConditionTokens(more) + rest);
      assert ConditionTokens(c) + rest == TermTokens(term) + behind;
      TermDepthIs(term, behind, depth);
      LevelDepth([Keyword(AND)], ConditionTokens(more) + rest, depth);
      ConditionDepthIs(more, rest, depth);
  }

  lemma {:induction false} ColumnsLevel(columns: seq<Name>)
    ensures Level(ColumnsTokens(columns))
  {
    if 1 < |columns| {
      ColumnsLevel(columns[1..]);
    }
  }

  /** From ON to the end of a join that opened its parenthesis already. */
  lemma OnDepthIs(grouped: bool, on: Condition, rest: Tokens, depth: nat)
    requires depth <= DEPTH && (grouped ==> 0 < depth)
    ensures DepthAfter([Keyword(ON)] + ConditionTokens(on) + (if grouped then [Sign(Close)] else []) + rest, depth)
         == if depth + ConditionDepth(on) <= DEPTH then DepthAfter(rest, if grouped then depth - 1 else depth) else None
  {
    hide ConditionTokens, ConditionDepth;
    var close: Tokens := if grouped then [Sign(Close)] else [];
    var behind := close + rest;
    assert [Keyword(ON)] + ConditionTokens(on) + close + rest == [Keyword(ON)] + (ConditionTokens(on) + behind);
    LevelDepth([Keyword(ON)], ConditionTokens(on) + behind, depth);
    ConditionDepthIs(on, behind, depth);
    assert grouped ==> behind[1..] == rest;
    assert !grouped ==> behind == rest;
  }

  lemma Regroup(a: Tokens, b: Tokens, c: Tokens, d: Tokens, rest: Tokens)
    ensures a + (b + (c + d)) + rest == a + (b + (c + (d + rest)))
    ensures [Sign(Open)] + (a + (b + (c + d))) + rest == [Sign(Open)] + (a + (b + (c + (d + rest))))
  {
    assert c + d + rest == c + (d + rest);
    assert b + (c + d) + rest == b + (c + (d + rest));
    assert a + (b + (c + d)) + rest == a + (b + (c + (d + rest)));
  }

  lemma SourceDepthIs(s: Source, rest: Tokens)
    ensures DepthAfter(SourceTokens(s) + rest, 0)
         == if s.Plain? || ConditionDepth(s.on) + (if s.grouped then 1 else 0) <= DEPTH then DepthAfter(rest, 0) else None
  {
    hide ConditionTokens, ConditionDepth, JoinTokens;
    match s
    case Plain(relation) => LevelDepth(RelationTokens(relation), rest, 0);
    case Joined(grouped, inner, left, right, on) =>
      var last := [Keyword(ON)] + ConditionTokens(on) + (if grouped then [Sign(Close)] else []);
      JoinDepthIs(inner, left, right, last + rest, if grouped then 1 else 0);
      OnDepthIs(grouped, on, rest, if grouped then 1 else 0);
      Regroup(RelationTokens(left), JoinTokens(inner), RelationTokens(right), last, rest);
      var front := RelationTokens(left) + (JoinTokens(inner) + (RelationTokens(right) + (last + rest)));
      assert ([Sign(Open)] + front)[1..] == front;
  }

  lemma JoinDepthIs(inner: bool, left: Relation, right: Relation, rest: Tokens, depth: nat)
    ensures DepthAfter(RelationTokens(left) + (JoinTokens(inner) + (RelationTokens(right) + rest)), depth)
         == DepthAfter(rest, depth)
  {
    LevelDepth(RelationTokens(left), JoinTokens(inner) + (RelationTokens(right) + rest), depth);
    LevelDepth(JoinTokens(inner), RelationTokens(right) + rest, depth);
    LevelDepth(RelationTokens(right), rest, depth);
  }

  /** The parentheses of a query balance, and stay within the limit exactly when its nesting does. */
  lemma QueryDepthIs(q: Query)
    ensures DepthAfter(QueryTokens(q), 0) == if QueryDepth(q) <= DEPTH then Some(0) else None
  {
    hide ColumnsTokens, SourceTokens, ConditionTokens, ConditionDepth;
    var ending := if q.where.Some? then [Keyword(WHERE)] + ConditionTokens(q.where.value) else [];
    var behind := SourceTokens(q.source) + ending;
    var front := [Keyword(SELECT)] + (if q.distinct then [Keyword(DISTINCT)] else []) + ColumnsTokens(q.columns) + [Keyword(FROM)];
    ColumnsLevel(q.columns);
    assert QueryTokens(q) == front + behind;
    assert forall t | t in front :: t in ColumnsTokens(q.columns) || t.Keyword?;
    LevelDepth(front, behind, 0);
    SourceDepthIs(q.source, ending);
    if q.where.Some? {
      var where := ConditionTokens(q.where.value);
      LevelDepth([Keyword(WHERE)], where, 0);
      assert where + [] == where;
      ConditionDepthIs(q.where.value, [], 0);
    }
  }
}
