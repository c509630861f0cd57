/** `semantic_policy` of `infra/readback.py`: the normal form of policy JSON, and exactly
    which documents it identifies. */
module PolicyForm {
  import opened Common

  datatype Json = Scalar(text: string) | Items(items: seq<Json>) | Object(fields: map<string, Json>)

  /** Keys from the root, with "[]" for the step into a list. */
  type Steps = seq<string>

  /** The order of `sorted(..., key=json.dumps)`: distinct values have distinct texts. */
  type Order = (Json, Json) -> bool

  ghost predicate TotalOrder(before: Order) {
    && (forall x, y :: before(x, y) || before(y, x))
    && (forall x, y :: before(x, y) && before(y, x) ==> x == y)
    && (forall x, y, z :: before(x, y) && before(y, z) ==> before(x, z))
  }

  const MARK := "[]"

  /** Where a key first occurs, or the length. */
  function IndexOf(path: Steps, key: string): (i: nat)
    ensures i <= |path|
  {
    if path == [] || path[0] == key then 0 else 1 + IndexOf(path[1..], key)
  }

  /** Positions at which IAM reads a scalar and a list of it alike. */
  predicate ScalarOrSet(iam: bool, path: Steps) {
    && iam && path != [] && path[|path| - 1] != MARK
    && (|| path[|path| - 1] in {"Action", "NotAction", "Resource", "NotResource", "Statement"}
        || (2 <= |path| && path[|path| - 2] in {"Principal", "NotPrincipal"})
        || ("Condition" in path && 3 <= |path| - IndexOf(path, "Condition")))
  }

  /** The last step is a key under which IAM takes either; or the one before it is a principal; or it is at
      least two steps below a condition. */
  ghost predicate TakesEither(path: Steps) {
    var n := |path|;
    && 0 < n && path[n - 1] != "[]"
    && (|| path[n - 1] == "Action" || path[n - 1] == "NotAction" || path[n - 1] == "Resource"
        || path[n - 1] == "NotResource" || path[n - 1] == "Statement"
        || (2 <= n && (path[n - 2] == "Principal" || path[n - 2] == "NotPrincipal"))
        || exists i :: 0 <= i && i + 3 <= n && path[i] == "Condition")
  }

  lemma {:induction false} IndexFirst(path: Steps, key: string)
    ensures key in path <==> IndexOf(path, key) < |path|
    ensures key in path ==> path[IndexOf(path, key)] == key
    ensures forall i :: 0 <= i < IndexOf(path, key) ==> path[i] != key
  {
    if path != [] && path[0] != key {
      IndexFirst(path[1..], key);
      assert forall i :: 0 < i < |path| ==> path[i] == path[1..][i - 1];
    }
  }

  /** Exactly the positions at which a scalar and a list of it are the same. */
  lemma PositionsExactly(iam: bool, path: Steps)
    ensures ScalarOrSet(iam, path) <==> iam && TakesEither(path)
  {
    IndexFirst(path, "Condition");
  }

  lemma MarkIsNeither(iam: bool, path: Steps)
    ensures !ScalarOrSet(iam, path + [MARK])
  {
  }

  // ------------------------------------------------------------------- sorting

  function Insert(x: Json, s: seq<Json>, before: Order): (r: seq<Json>)
    ensures multiset(r) == multiset(s) + multiset{x}
    ensures |r| == |s| + 1
  {
    if s == [] then [x]
    else if before(x, s[0]) then assert s == [s[0]] + s[1..]; [x] + s
    else assert s == [s[0]] + s[1..]; [s[0]] + Insert(x, s[1..], before)
  }

  function Sort(s: seq<Json>, before: Order): (r: seq<Json>)
    ensures multiset(r) == multiset(s) && |r| == |s|
  {
    if s == [] then [] else assert s == [s[0]] + s[1..]; Insert(s[0], Sort(s[1..], before), before)
  }

  predicate Sorted(s: seq<Json>, before: Order) {
    forall i, j :: 0 <= i < j < |s| ==> before(s[i], s[j])
  }

  lemma {:induction false} InsertSorts(x: Json, s: seq<Json>, before: Order)
    requires TotalOrder(before) && Sorted(s, before)
    ensures Sorted(Insert(x, s, before), before)
  {
    if s != [] && !before(x, s[0]) {
      var rest := Insert(x, s[1..], before);
      InsertSorts(x, s[1..], before);
      forall j | 0 <= j < |rest|
        ensures before(s[0], rest[j])
      {
        assert rest[j] in multiset(rest);
        if rest[j] != x {
          assert rest[j] in multiset(s[1..]);
        }
      }
    }
  }

  lemma {:induction false} SortSorts(s: seq<Json>, before: Order)
    requires TotalOrder(before)
    ensures Sorted(Sort(s, before), before)
  {
    if s != [] {
      SortSorts(s[1..], before);
      InsertSorts(s[0], Sort(s[1..], before), before);
    }
  }

  /** Ordered lists of the same elements are the same list. */
  lemma {:induction false} SortedUnique(s: seq<Json>, t: seq<Json>, before: Order)
    requires TotalOrder(before) && Sorted(s, before) && Sorted(t, before) && multiset(s) == multiset(t)
    ensures s == t
  {
    if s == [] {
      assert |multiset(t)| == 0;
    } else {
      SameLeast(s, t, before);
      hide Sorted;
      HeadOff(s);
      HeadOff(t);
      Cancel(multiset(s[1..]), multiset(t[1..]), s[0]);
      SortedUnique(s[1..], t[1..], before);
    }
  }

  lemma HeadOff(s: seq<Json>)
    requires s != []
    ensures s == [s[0]] + s[1..] && multiset(s) == multiset(s[1..]) + multiset{s[0]}
  {
  }

  lemma Cancel(a: multiset<Json>, b: multiset<Json>, x: Json)
    ensures a + multiset{x} == b + multiset{x} <==> a == b
  {
    if a + multiset{x} == b + multiset{x} {
      forall y
        ensures a[y] == b[y]
      {
        assert (a + multiset{x})[y] == a[y] + multiset{x}[y] && (b + multiset{x})[y] == b[y] + multiset{x}[y];
      }
    }
  }

  lemma SameLeast(s: seq<Json>, t: seq<Json>, before: Order)
    requires TotalOrder(before) && Sorted(s, before) && Sorted(t, before) && s != []
    requires multiset(s) == multiset(t)
    ensures t != [] && s[0] == t[0] && Sorted(s[1..], before) && Sorted(t[1..], before)
  {
    assert s[0] in multiset(t);
    assert t[0] in multiset(s);
    var i :| 0 <= i < |s| && s[i] == t[0];
    var j :| 0 <= j < |t| && t[j] == s[0];
    assert before(s[0], s[i]) && before(t[0], t[j]);
  }

  /** Sorting forgets the order and nothing else. */
  lemma SortForgetsOrder(s: seq<Json>, t: seq<Json>, before: Order)
    requires TotalOrder(before)
    ensures Sort(s, before) == Sort(t, before) <==> multiset(s) == multiset(t)
  {
    SortSorts(s, before);
    SortSorts(t, before);
    if multiset(s) == multiset(t) {
      SortedUnique(Sort(s, before), Sort(t, before), before);
    }
  }

  // --------------------------------------------------------------- normal form

  /** `semantic_policy`. */
  function Normal(iam: bool, path: Steps, v: Json, before: Order): Json
    decreases v, if ScalarOrSet(iam, path) then 1 else 0, 1
  {
    if ScalarOrSet(iam, path) && !v.Items? then
      MarkIsNeither(iam, path);
      Items([Normal(iam, path + [MARK], v, before)])
    else match v
      case Scalar(_) => v
      case Items(items) => Items(Sort(NormalAll(iam, path + [MARK], items, before), before))
      case Object(fields) => Object(map k | k in fields :: Normal(iam, path + [k], fields[k], before))
  }

  function NormalAll(iam: bool, path: Steps, items: seq<Json>, before: Order): (r: seq<Json>)
    ensures |r| == |items| && forall i :: 0 <= i < |items| ==> r[i] == Normal(iam, path, items[i], before)
    decreases items, 0, 0
  {
    if items == [] then []
    else [Normal(iam, path, items[0], before)] + NormalAll(iam, path, items[1..], before)
  }

  // --------------------------------------- what the normal form should identify

  /** Read as a list: a list, or anything at a position that takes a scalar or a list. */
  predicate AsList(iam: bool, path: Steps, v: Json) {
    v.Items? || ScalarOrSet(iam, path)
  }

  function Elements(v: Json): seq<Json> {
    if v.Items? then v.items else [v]
  }

  /** The documents say the same: equal up to the order of lists at any depth, and up to a
      scalar against a list of one at the positions that take either. */
  predicate Equivalent(iam: bool, path: Steps, a: Json, b: Json)
    decreases a, if ScalarOrSet(iam, path) then 1 else 0, 1
  {
    if AsList(iam, path, a) || AsList(iam, path, b) then
      MarkIsNeither(iam, path);
      && AsList(iam, path, a) && AsList(iam, path, b)
      && if a.Items? then Matches(iam, path + [MARK], a.items, Elements(b))
         else |Elements(b)| == 1 && Equivalent(iam, path + [MARK], a, Elements(b)[0])
    else if a.Object? && b.Object? then
      && a.fields.Keys == b.fields.Keys
      && forall k | k in a.fields :: Equivalent(iam, path + [k], a.fields[k], b.fields[k])
    else a == b
  }

  /** Every element of one list pairs off with an equivalent one of the other. */
  predicate Matches(iam: bool, path: Steps, xs: seq<Json>, ys: seq<Json>)
    decreases xs, 0, 0
  {
    if xs == [] then ys == []
    else exists j :: 0 <= j < |ys| && Equivalent(iam, path, xs[0], ys[j]) && Matches(iam, path, xs[1..], ys[..j] + ys[j + 1..])
  }

  /** The normal forms of the elements, without their order. */
  function Forms(iam: bool, path: Steps, items: seq<Json>, before: Order): multiset<Json> {
    multiset(NormalAll(iam, path, items, before))
  }

  lemma WithoutAt(s: seq<Json>, j: nat)
    requires j < |s|
    ensures multiset(s) == multiset(s[..j] + s[j + 1..]) + multiset{s[j]}
  {
    assert s == s[..j] + ([s[j]] + s[j + 1..]);
  }

  lemma NormalAllSlices(iam: bool, path: Steps, ys: seq<Json>, j: nat, before: Order)
    requires j < |ys|
    ensures var all := NormalAll(iam, path, ys, before);
            NormalAll(iam, path, ys[..j] + ys[j + 1..], before) == all[..j] + all[j + 1..]
  {
    hide Normal, NormalAll;
    var rest := ys[..j] + ys[j + 1..];
    var forms, all := NormalAll(iam, path, rest, before), NormalAll(iam, path, ys, before);
    forall i | 0 <= i < |rest|
      ensures forms[i] == (all[..j] + all[j + 1..])[i]
    {
      assert rest[i] == ys[if i < j then i else i + 1];
    }
  }

  lemma NormalAllWithout(iam: bool, path: Steps, ys: seq<Json>, j: nat, before: Order)
    requires j < |ys|
    ensures Normal(iam, path, ys[j], before) in Forms(iam, path, ys, before)
    ensures Forms(iam, path, ys, before)
         == Forms(iam, path, ys[..j] + ys[j + 1..], before) + multiset{Normal(iam, path, ys[j], before)}
  {
    hide Normal, NormalAll;
    NormalAllSlices(iam, path, ys, j, before);
    WithoutAt(NormalAll(iam, path, ys, before), j);
  }

  lemma FormOfSome(iam: bool, path: Steps, ys: seq<Json>, x: Json, before: Order) returns (j: nat)
    requires x in Forms(iam, path, ys, before)
    ensures j < |ys| && Normal(iam, path, ys[j], before) == x
  {
    var all := NormalAll(iam, path, ys, before);
    j :| 0 <= j < |all| && all[j] == x;
  }

  lemma FormsOfNone(iam: bool, path: Steps, before: Order)
    ensures Forms(iam, path, [], before) == multiset{}
  {
  }

  /** Same normal elements, in any order, exactly when the elements pair off. */
  lemma {:induction false} MatchesExactly(iam: bool, path: Steps, xs: seq<Json>, ys: seq<Json>, before: Order)
    requires TotalOrder(before)
    ensures Forms(iam, path, xs, before) == Forms(iam, path, ys, before) <==> Matches(iam, path, xs, ys)
    decreases xs, 0, 0
  {
    hide Normal, NormalAll, Equivalent, Forms;
    if xs == [] {
      FormsOfNone(iam, path, before);
      if ys != [] {
        NormalAllWithout(iam, path, ys, 0, before);
      }
    } else {
      if Forms(iam, path, xs, before) == Forms(iam, path, ys, before) {
        NormalAllWithout(iam, path, xs, 0, before);
        var j := FormOfSome(iam, path, ys, Normal(iam, path, xs[0], before), before);
        SameFormExactly(iam, path, xs[0], ys[j], before);
        MatchesExactly(iam, path, xs[1..], ys[..j] + ys[j + 1..], before);
        PairedOff(iam, path, xs, ys, j, before);
      }
      if Matches(iam, path, xs, ys) {
        var j :| 0 <= j < |ys| && Equivalent(iam, path, xs[0], ys[j]) && Matches(iam, path, xs[1..], ys[..j] + ys[j + 1..]);
        SameFormExactly(iam, path, xs[0], ys[j], before);
        MatchesExactly(iam, path, xs[1..], ys[..j] + ys[j + 1..], before);
        PairedOff(iam, path, xs, ys, j, before);
      }
    }
  }

  /** Taking a pair with the same form off both sides keeps what is to be compared. */
  lemma PairedOff(iam: bool, path: Steps, xs: seq<Json>, ys: seq<Json>, j: nat, before: Order)
    requires xs != [] && j < |ys| && Normal(iam, path, xs[0], before) == Normal(iam, path, ys[j], before)
    ensures Forms(iam, path, xs, before) == Forms(iam, path, ys, before)
            <==> Forms(iam, path, xs[1..], before) == Forms(iam, path, ys[..j] + ys[j + 1..], before)
  {
    hide *;
    NormalAllWithout(iam, path, xs, 0, before);
    assert xs[..0] + xs[0 + 1..] == xs[1..];
    NormalAllWithout(iam, path, ys, j, before);
    Cancel(Forms(iam, path, xs[1..], before), Forms(iam, path, ys[..j] + ys[j + 1..], before), Normal(iam, path, xs[0], before));
  }

  /** Two documents have the same normal form exactly when they are equivalent. */
  lemma {:induction false} SameFormExactly(iam: bool, path: Steps, a: Json, b: Json, before: Order)
    requires TotalOrder(before)
    ensures Normal(iam, path, a, before) == Normal(iam, path, b, before) <==> Equivalent(iam, path, a, b)
    decreases a, if ScalarOrSet(iam, path) then 1 else 0, 1
  {
    if AsList(iam, path, a) && AsList(iam, path, b) {
      ListFormExactly(iam, path, a, b, before);
    } else if a.Object? && b.Object? && !ScalarOrSet(iam, path) {
      forall k | k in a.fields && k in b.fields
        ensures Normal(iam, path + [k], a.fields[k], before) == Normal(iam, path + [k], b.fields[k], before)
                <==> Equivalent(iam, path + [k], a.fields[k], b.fields[k])
      {
        SameFormExactly(iam, path + [k], a.fields[k], b.fields[k], before);
      }
      ObjectFormExactly(iam, path, a, b, before);
    } else {
      OtherFormExactly(iam, path, a, b, before);
    }
  }

  lemma ObjectFormExactly(iam: bool, path: Steps, a: Json, b: Json, before: Order)
    requires a.Object? && b.Object? && !ScalarOrSet(iam, path)
    requires forall k | k in a.fields && k in b.fields ::
      Normal(iam, path + [k], a.fields[k], before) == Normal(iam, path + [k], b.fields[k], before)
      <==> Equivalent(iam, path + [k], a.fields[k], b.fields[k])
    ensures Normal(iam, path, a, before) == Normal(iam, path, b, before) <==> Equivalent(iam, path, a, b)
  {
    NormalOfObject(iam, path, a, before);
    NormalOfObject(iam, path, b, before);
    EquivalentObjects(iam, path, a, b);
    hide *;
    SameFields(Normal(iam, path, a, before), Normal(iam, path, b, before));
    var x, y := Normal(iam, path, a, before).fields, Normal(iam, path, b, before).fields;
    assert forall k | k in a.fields && k in b.fields :: x[k] == y[k] <==> Equivalent(iam, path + [k], a.fields[k], b.fields[k]);
  }

  lemma SameFields(x: Json, y: Json)
    requires x.Object? && y.Object?
    ensures x == y <==> x.fields.Keys == y.fields.Keys && forall k | k in x.fields && k in y.fields :: x.fields[k] == y.fields[k]
  {
    if x.fields.Keys == y.fields.Keys && forall k | k in x.fields && k in y.fields :: x.fields[k] == y.fields[k] {
      assert x.fields == y.fields;
    }
  }

  lemma NormalOfObject(iam: bool, path: Steps, v: Json, before: Order)
    requires v.Object? && !ScalarOrSet(iam, path)
    ensures var n := Normal(iam, path, v, before);
            && n.Object? && n.fields.Keys == v.fields.Keys
            && forall k | k in v.fields :: n.fields[k] == Normal(iam, path + [k], v.fields[k], before)
  {
  }

  lemma EquivalentObjects(iam: bool, path: Steps, a: Json, b: Json)
    requires a.Object? && b.Object? && !ScalarOrSet(iam, path)
    ensures Equivalent(iam, path, a, b) <==>
      && a.fields.Keys == b.fields.Keys
      && forall k | k in a.fields && k in b.fields :: Equivalent(iam, path + [k], a.fields[k], b.fields[k])
  {
  }

  /** Different kinds are never the same, and scalars only when they are equal. */
  lemma OtherFormExactly(iam: bool, path: Steps, a: Json, b: Json, before: Order)
    requires !(AsList(iam, path, a) && AsList(iam, path, b))
    requires !(a.Object? && b.Object? && !ScalarOrSet(iam, path))
    ensures Normal(iam, path, a, before) == Normal(iam, path, b, before) <==> Equivalent(iam, path, a, b)
  {
  }

  lemma {:induction false} ListFormExactly(iam: bool, path: Steps, a: Json, b: Json, before: Order)
    requires TotalOrder(before) && AsList(iam, path, a) && AsList(iam, path, b)
    ensures Normal(iam, path, a, before) == Normal(iam, path, b, before) <==> Equivalent(iam, path, a, b)
    decreases a, if ScalarOrSet(iam, path) then 1 else 0, 0
  {
    var inner := path + [MARK];
    MarkIsNeither(iam, path);
    NormalOfList(iam, path, a, before);
    NormalOfList(iam, path, b, before);
    SortForgetsOrder(NormalAll(iam, inner, Elements(a), before), NormalAll(iam, inner, Elements(b), before), before);
    if a.Items? {
      MatchesExactly(iam, inner, a.items, Elements(b), before);
    } else {
      var x, all := Normal(iam, inner, a, before), NormalAll(iam, inner, Elements(b), before);
      assert NormalAll(iam, inner, [a], before) == [x];
      if |Elements(b)| == 1 {
        assert all == [all[0]];
        SameFormExactly(iam, inner, a, Elements(b)[0], before);
        assert multiset([x]) == multiset(all) <==> x == all[0] by { SingletonsEqual(x, all[0]); }
      } else {
        assert |multiset(all)| == |all|;
      }
    }
  }

  lemma SingletonsEqual(x: Json, y: Json)
    ensures multiset([x]) == multiset([y]) <==> x == y
  {
    if multiset([x]) == multiset([y]) {
      assert x in multiset([y]);
    }
  }

  /** Whatever is read as a list has the sorted normal elements as its normal form. */
  lemma NormalOfList(iam: bool, path: Steps, v: Json, before: Order)
    requires AsList(iam, path, v)
    ensures Normal(iam, path, v, before) == Items(Sort(NormalAll(iam, path + [MARK], Elements(v), before), before))
  {
    if !v.Items? {
      var x := Normal(iam, path + [MARK], v, before);
      assert NormalAll(iam, path + [MARK], [v], before) == [x];
      assert Sort([x], before) == [x];
    }
  }

  /** Normalizing twice changes nothing. */
  lemma {:induction false} Idempotent(iam: bool, path: Steps, v: Json, before: Order)
    requires TotalOrder(before)
    ensures Normal(iam, path, Normal(iam, path, v, before), before) == Normal(iam, path, v, before)
    decreases v, if ScalarOrSet(iam, path) then 1 else 0, 1
  {
    var n := Normal(iam, path, v, before);
    if ScalarOrSet(iam, path) && !v.Items? {
      MarkIsNeither(iam, path);
      Idempotent(iam, path + [MARK], v, before);
      NormalOfList(iam, path, v, before);
      FixedList(iam, path, n, before);
    } else if v.Items? {
      forall i | 0 <= i < |v.items|
        ensures var x := Normal(iam, path + [MARK], v.items[i], before); Normal(iam, path + [MARK], x, before) == x
      {
        Idempotent(iam, path + [MARK], v.items[i], before);
      }
      ElementsFixed(iam, path, v, before);
      FixedList(iam, path, n, before);
    } else if v.Object? {
      forall k | k in v.fields
        ensures Normal(iam, path + [k], n.fields[k], before) == n.fields[k]
      {
        Idempotent(iam, path + [k], v.fields[k], before);
      }
      assert Normal(iam, path, n, before).fields == n.fields;
    }
  }

  lemma ElementsFixed(iam: bool, path: Steps, v: Json, before: Order)
    requires v.Items?
    requires forall i :: 0 <= i < |v.items| ==>
      var x := Normal(iam, path + [MARK], v.items[i], before); Normal(iam, path + [MARK], x, before) == x
    ensures var n := Normal(iam, path, v, before);
            n.Items? && forall x | x in n.items :: Normal(iam, path + [MARK], x, before) == x
  {
    var all, n := NormalAll(iam, path + [MARK], v.items, before), Normal(iam, path, v, before);
    forall x | x in n.items
      ensures Normal(iam, path + [MARK], x, before) == x
    {
      assert x in multiset(n.items) && multiset(n.items) == multiset(all);
      var i :| 0 <= i < |all| && all[i] == x;
    }
  }

  /** A sorted list of normal elements is its own normal form. */
  lemma FixedList(iam: bool, path: Steps, n: Json, before: Order)
    requires TotalOrder(before) && n.Items? && (exists s: seq<Json> :: n.items == Sort(s, before))
    requires forall x | x in n.items :: Normal(iam, path + [MARK], x, before) == x
    ensures Normal(iam, path, n, before) == n
  {
    hide Sort;
    assert NormalAll(iam, path + [MARK], n.items, before) == n.items;
    var s: seq<Json> :| n.items == Sort(s, before);
    SortForgetsOrder(n.items, s, before);
  }

  /** The whole-document forms: the read-back compares normal forms at the empty path. */
  lemma DocumentsSameExactly(iam: bool, a: Json, b: Json, before: Order)
    requires TotalOrder(before)
    ensures Normal(iam, [], a, before) == Normal(iam, [], b, before) <==> Equivalent(iam, [], a, b)
  {
    SameFormExactly(iam, [], a, b, before);
  }
}
