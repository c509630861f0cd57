/** The member names archives may hold, character by character. */
module ZipNames {
  import opened Common
  import opened ZipFormat

  /** From `i` to `j` there is no slash, and there is one, or an end of the name, on both sides. */
  predicate Stretch(name: string, i: int, j: int) {
    && 0 <= i <= j <= |name|
    && (i == 0 || name[i - 1] == '/') && (j == |name| || name[j] == '/')
    && forall k :: i <= k < j ==> name[k] != '/'
  }

  predicate Allowed(c: char) {
    || 'A' <= c <= 'Z' || 'a' <= c <= 'z' || '0' <= c <= '9'
    || c in {'_', '.', '/', '+', '-'}
  }

  /** One to 512 characters, all allowed, with at most fifteen slashes; between slashes there is
      something, and it is neither one dot nor two. */
  predicate GoodName(name: string) {
    && 1 <= |name| <= 512
    && (forall i :: 0 <= i < |name| ==> Allowed(name[i]))
    && multiset(name)['/'] <= 15
    && forall i, j :: 0 <= i <= j <= |name| && Stretch(name, i, j) ==> i < j && name[i..j] != "." && name[i..j] != ".."
  }

  lemma {:induction false} PartsCounted(name: string)
    ensures |Split(name)| == 1 + multiset(name)['/']
  {
    if name != [] {
      PartsCounted(name[1..]);
      assert name == [name[0]] + name[1..];
    }
  }

  /** The end of the stretch that begins at `i`. */
  function StretchEnd(name: string, i: nat): (j: nat)
    requires i <= |name|
    ensures i <= j <= |name| && (j == |name| || name[j] == '/') && forall k :: i <= k < j ==> name[k] != '/'
    decreases |name| - i
  {
    if i == |name| || name[i] == '/' then i else StretchEnd(name, i + 1)
  }

  lemma StretchShifts(name: string, i: int, j: int)
    requires name != [] && 0 < i
    ensures Stretch(name, i, j) <==> Stretch(name[1..], i - 1, j - 1) && (i == 1 ==> name[0] == '/')
  {
    if Stretch(name, i, j) {
      forall k | i - 1 <= k < j - 1
        ensures name[1..][k] != '/'
      {
        assert name[1..][k] == name[k + 1];
      }
    }
    if Stretch(name[1..], i - 1, j - 1) && (i == 1 ==> name[0] == '/') {
      forall k | i <= k < j
        ensures name[k] != '/'
      {
        assert name[1..][k - 1] == name[k];
      }
    }
  }

  /** The first part is the stretch from the start. */
  lemma {:induction false} FirstPart(name: string)
    ensures Split(name)[0] == name[..StretchEnd(name, 0)]
  {
    if name != [] && name[0] != '/' {
      FirstPart(name[1..]);
      EndShifts(name, 0);
      var j := StretchEnd(name, 0);
      assert name[..j] == [name[0]] + name[1..][..j - 1];
    }
  }

  lemma {:induction false} EndShifts(name: string, i: nat)
    requires i < |name|
    ensures StretchEnd(name, i + 1) == StretchEnd(name[1..], i) + 1
    ensures name[i] != '/' ==> StretchEnd(name, i) == StretchEnd(name, i + 1)
    decreases |name| - i
  {
    if i + 1 < |name| && name[i + 1] != '/' {
      EndShifts(name, i + 1);
    }
  }

  lemma OneStretch(name: string, i: nat, j: int)
    requires Stretch(name, i, j)
    ensures j == StretchEnd(name, i)
  {
  }

  lemma SliceShifts(name: string, i: int, j: int)
    requires 1 <= i <= j <= |name|
    ensures name[i..j] == name[1..][i - 1..j - 1]
  {
    var rest := name[1..];
    assert forall k :: 0 <= k < |rest| ==> rest[k] == name[k + 1];
    assert |name[i..j]| == |rest[i - 1..j - 1]|;
  }

  /** The parts behind the first are the stretches behind it. */
  lemma {:induction false} PartIsStretch(name: string, n: nat) returns (i: nat, j: nat)
    requires n < |Split(name)|
    ensures Stretch(name, i, j) && Split(name)[n] == name[i..j] && (n == 0 ==> i == 0) && (n > 0 ==> i > 0)
  {
    if n == 0 {
      FirstPart(name);
      i, j := 0, StretchEnd(name, 0);
    } else if name[0] == '/' {
      i, j := PartIsStretch(name[1..], n - 1);
      StretchShifts(name, i + 1, j + 1);
      i, j := i + 1, j + 1;
      SliceShifts(name, i, j);
    } else {
      i, j := PartIsStretch(name[1..], n);
      StretchShifts(name, i + 1, j + 1);
      i, j := i + 1, j + 1;
      SliceShifts(name, i, j);
    }
  }

  lemma SplitStep(name: string)
    requires name != []
    ensures var rest := Split(name[1..]);
      if name[0] == '/' then |Split(name)| == |rest| + 1 && forall n :: 0 <= n < |rest| ==> Split(name)[n + 1] == rest[n]
      else |Split(name)| == |rest| && forall n :: 0 < n < |rest| ==> Split(name)[n] == rest[n]
  {
  }

  lemma {:induction false} StretchIsPart(name: string, i: nat, j: nat) returns (n: nat)
    requires Stretch(name, i, j)
    ensures n < |Split(name)| && Split(name)[n] == name[i..j] && (i > 0 ==> n > 0)
  {
    hide Split, Stretch;
    StretchBounds(name, i, j);
    if i == 0 {
      OneStretch(name, 0, j);
      FirstPart(name);
      n := 0;
    } else {
      StretchShifts(name, i, j);
      n := StretchIsPart(name[1..], i - 1, j - 1);
      SliceShifts(name, i, j);
      SplitStep(name);
      if name[0] == '/' {
        n := n + 1;
      }
    }
  }

  /** `safe_path` accepts exactly the good names. */
  lemma SafePathExactly(name: string)
    ensures SafePath(name) <==> GoodName(name)
  {
    hide Split, Stretch;
    PartsCounted(name);
    if SafePath(name) {
      forall i | 0 <= i < |name|
        ensures Allowed(name[i])
      {
        assert name[i] in name;
      }
      forall i, j | 0 <= i <= j <= |name| && Stretch(name, i, j)
        ensures i < j && name[i..j] != "." && name[i..j] != ".."
      {
        StretchBounds(name, i, j);
        var n := StretchIsPart(name, i, j);
        assert Split(name)[n] in Split(name);
      }
    }
    if GoodName(name) {
      forall part | part in Split(name)
        ensures part != "" && part != "." && part != ".."
      {
        var n :| 0 <= n < |Split(name)| && Split(name)[n] == part;
        var i, j := PartIsStretch(name, n);
        StretchBounds(name, i, j);
      }
      forall c | c in name
        ensures Plain(c)
      {
        var k :| 0 <= k < |name| && name[k] == c;
        assert Allowed(name[k]);
      }
    }
  }

  lemma StretchBounds(name: string, i: int, j: int)
    requires Stretch(name, i, j)
    ensures 0 <= i <= j <= |name|
  {
  }

  /** Two names collide when they are equal but for the case of letters, or one is the other followed
      by a slash and more. */
  predicate SameLetter(a: char, b: char) {
    a == b || ('a' <= a <= 'z' && b == a - 'a' + 'A') || ('a' <= b <= 'z' && a == b - 'a' + 'A')
  }

  predicate Collide(a: string, b: string) {
    || (|a| == |b| && forall i :: 0 <= i < |a| ==> SameLetter(a[i], b[i]))
    || (|a| < |b| && b[|a|] == '/' && forall i :: 0 <= i < |a| ==> a[i] == b[i])
    || (|b| < |a| && a[|b|] == '/' && forall i :: 0 <= i < |b| ==> a[i] == b[i])
  }

  lemma CompatibleExactly(a: string, b: string)
    ensures Compatible(a, b) <==> !Collide(a, b)
  {
    LowerExactly(a, b);
    assert |a| < |b| ==> (b[..|a|] == a <==> forall i :: 0 <= i < |a| ==> a[i] == b[i]);
    assert |b| < |a| ==> (a[..|b|] == b <==> forall i :: 0 <= i < |b| ==> a[i] == b[i]);
  }

  lemma LowerExactly(a: string, b: string)
    ensures Lower(a) == Lower(b) <==> |a| == |b| && forall i :: 0 <= i < |a| ==> SameLetter(a[i], b[i])
  {
    if |a| == |b| {
      forall i | 0 <= i < |a|
        ensures Lower(a)[i] == Lower(b)[i] <==> SameLetter(a[i], b[i])
      {
      }
      if forall i :: 0 <= i < |a| ==> SameLetter(a[i], b[i]) {
        assert forall i :: 0 <= i < |a| ==> Lower(a)[i] == Lower(b)[i];
      }
    }
  }
}
