/** Vocabulary shared by every module: options, bytes and the order of strings. */
module Common {

  datatype Option<+T> = None | Some(value: T)

  datatype Result<+T, +E> = Ok(value: T) | Err(error: E) {
    predicate IsFailure() { Err? }

    function PropagateFailure<U>(): Result<U, E>
      requires Err?
    {
      Err(error)
    }

    function Extract(): T
      requires Ok?
    {
      value
    }
  }

  type byte = b: int | 0 <= b < 256

  function Min(a: int, b: int): int {
    if a <= b then a else b
  }

  function Max(a: int, b: int): int {
    if a >= b then a else b
  }

  /** Code-point lexicographic order, the order of Python's `sorted` on strings. */
  predicate Less(a: string, b: string) {
    b != [] && (a == [] || a[0] < b[0] || (a[0] == b[0] && Less(a[1..], b[1..])))
  }

  lemma {:induction false} LessIrreflexive(a: string)
    ensures !Less(a, a)
  {
    if a != [] {
      LessIrreflexive(a[1..]);
    }
  }

  lemma {:induction false} LessTransitive(a: string, b: string, c: string)
    requires Less(a, b) && Less(b, c)
    ensures Less(a, c)
  {
    if a != [] && a[0] == b[0] == c[0] {
      LessTransitive(a[1..], b[1..], c[1..]);
    }
  }

  lemma {:induction false} LessTotal(a: string, b: string)
    ensures a == b || Less(a, b) || Less(b, a)
  {
    if a != [] && b != [] && a[0] == b[0] {
      LessTotal(a[1..], b[1..]);
      if a[1..] == b[1..] {
        assert a == [a[0]] + a[1..] == b;
      }
    }
  }

  /** Equal in front of `d`; there the first one ends, or has the smaller character. */
  predicate FirstDiffers(a: string, b: string, d: nat) {
    d <= |a| && d < |b| && (forall k :: 0 <= k < d ==> a[k] == b[k]) && (d == |a| || a[d] < b[d])
  }

  lemma {:induction false} LessExactly(a: string, b: string)
    ensures Less(a, b) <==> exists d :: FirstDiffers(a, b, d)
  {
    if b == [] || a == [] || a[0] != b[0] {
      if Less(a, b) {
        assert FirstDiffers(a, b, 0);
      }
    } else {
      LessExactly(a[1..], b[1..]);
      if Less(a, b) {
        var d :| FirstDiffers(a[1..], b[1..], d);
        ShiftDifference(a, b, d);
      }
      assert !FirstDiffers(a, b, 0);
      forall d: nat | FirstDiffers(a, b, d)
        ensures Less(a, b)
      {
        assert d != 0;
        ShiftDifference(a, b, d - 1);
      }
    }
  }

  lemma ShiftDifference(a: string, b: string, d: nat)
    requires a != [] && b != [] && a[0] == b[0]
    ensures FirstDiffers(a, b, d + 1) <==> FirstDiffers(a[1..], b[1..], d)
  {
    if FirstDiffers(a[1..], b[1..], d) {
      forall k | 0 <= k < d + 1
        ensures a[k] == b[k]
      {
        assert 0 < k ==> a[1..][k - 1] == b[1..][k - 1];
      }
    }
  }

  predicate Ascending(names: seq<string>) {
    forall i, j :: 0 <= i < j < |names| ==> Less(names[i], names[j])
  }

  lemma AscendingDistinct(names: seq<string>)
    requires Ascending(names)
    ensures forall i, j :: 0 <= i < |names| && 0 <= j < |names| && names[i] == names[j] ==> i == j
  {
    forall i, j | 0 <= i < |names| && 0 <= j < |names| && names[i] == names[j]
      ensures i == j
    {
      LessIrreflexive(names[i]);
    }
  }

  predicate IsLeast(name: string, names: set<string>) {
    name in names && forall other | other in names :: other == name || Less(name, other)
  }

  lemma {:induction false} LeastExists(names: set<string>)
    requires names != {}
    ensures exists name :: IsLeast(name, names)
    decreases |names|
  {
    var some :| some in names;
    var rest := names - {some};
    if rest == {} {
      assert forall other | other in names :: other == some || other in rest;
      assert IsLeast(some, names);
    } else {
      LeastExists(rest);
      var least :| IsLeast(least, rest);
      LessTotal(some, least);
      assert least != some;
      if Less(some, least) {
        forall other | other in names
          ensures other == some || Less(some, other)
        {
          if other != some && other != least {
            assert other in rest;
            LessTransitive(some, least, other);
          }
        }
        assert IsLeast(some, names);
      } else {
        assert names == rest + {some};
        assert IsLeast(least, names);
      }
    }
  }

  lemma LeastUnique(a: string, b: string, names: set<string>)
    requires IsLeast(a, names) && IsLeast(b, names)
    ensures a == b
  {
    if a != b {
      LessTransitive(a, b, a);
      LessIrreflexive(a);
    }
  }

  function Least(names: set<string>): (name: string)
    requires names != {}
    ensures IsLeast(name, names)
  {
    LeastExists(names);
    assert forall a, b | IsLeast(a, names) && IsLeast(b, names) :: a == b by {
      forall a, b | IsLeast(a, names) && IsLeast(b, names)
        ensures a == b
      {
        LeastUnique(a, b, names);
      }
    }
    var name :| IsLeast(name, names);
    name
  }

  /** Python's `sorted` on the keys of a dictionary. */
  function Sorted(names: set<string>): (s: seq<string>)
    ensures Ascending(s)
    ensures |s| == |names| && forall name :: name in s <==> name in names
  {
    if names == {} then []
    else
      var least := Least(names);
      [least] + Sorted(names - {least})
  }
}
