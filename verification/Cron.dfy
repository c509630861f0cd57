/** `cron_field`, `cron_occurrences` and `schedule_health`: the instants a schedule asks for, and
    which of them a run answered. Instants are microseconds of UTC. */
module Cron {
  import opened Common

  // ----------------------------------------------------------------------- fields

  /** `int(..)`: the number a text denotes, if it denotes one. */
  type Numeral = string -> Option<int>

  /** A part that was read: every `step`-th number of `start..end`. */
  datatype Slice = Slice(start: int, end: int, step: int)

  predicate Selects(slice: Slice, v: int)
    requires slice.step != 0
  {
    slice.start <= v <= slice.end && (v - slice.start) % slice.step == 0
  }

  /** The first place of a character, or the length. */
  function Find(s: string, c: char): (i: nat)
    ensures i <= |s| && c !in s[..i] && (i < |s| ==> s[i] == c)
  {
    if s == [] || s[0] == c then 0 else
      assert s == [s[0]] + s[1..];
      1 + Find(s[1..], c)
  }

  function Split(s: string, c: char): (parts: seq<string>)
    ensures parts != []
  {
    var i := Find(s, c);
    if i == |s| then [s] else [s[..i]] + Split(s[i + 1..], c)
  }

  function ReadBounds(number: Numeral, base: string, low: int, high: int): Option<(int, int)> {
    if base == "*" then Some((low, high))
    else if '-' in base then
      var dash := Find(base, '-');
      match (number(base[..dash]), number(base[dash + 1..]))
      case (Some(a), Some(b)) => Some((a, b))
      case _ => None
    else match number(base)
      case Some(n) => Some((n, n))
      case None => None
  }

  /** One part of a field: `*`, a number or a range, with an optional step; nothing when refused. */
  function ReadPart(number: Numeral, part: string, low: int, high: int): (r: Option<Slice>)
    ensures r.Some? ==> low <= r.value.start <= r.value.end <= high && r.value.step >= 1
  {
    var slash := Find(part, '/');
    var step := if slash < |part| then number(part[slash + 1..]) else Some(1);
    match (step, ReadBounds(number, part[..slash], low, high))
    case (Some(k), Some((a, b))) => if low <= a <= b <= high && k >= 1 then Some(Slice(a, b, k)) else None
    case _ => None
  }

  predicate AllRead(number: Numeral, parts: seq<string>, low: int, high: int) {
    forall i :: 0 <= i < |parts| ==> ReadPart(number, parts[i], low, high).Some?
  }

  predicate Picks(number: Numeral, part: string, low: int, high: int, v: int) {
    var slice := ReadPart(number, part, low, high);
    slice.Some? && Selects(slice.value, v)
  }

  predicate Chosen(number: Numeral, parts: seq<string>, low: int, high: int, v: int) {
    exists i :: 0 <= i < |parts| && Picks(number, parts[i], low, high, v)
  }

  /** What a field denotes: the numbers some part selects; nothing when a part is refused. */
  function Field(number: Numeral, spec: string, low: int, high: int): (r: Option<set<int>>)
    ensures r.Some? ==> forall v | v in r.value :: low <= v <= high
  {
    var parts := Split(spec, ',');
    if AllRead(number, parts, low, high)
    then Some(set v | low <= v <= high && Chosen(number, parts, low, high, v))
    else None
  }

  /** `range(start, stop, step)`. */
  function Range(start: int, stop: int, step: int): seq<int>
    requires step >= 1
    decreases stop - start
  {
    if start >= stop then [] else [start] + Range(start + step, stop, step)
  }

  lemma {:induction false} RangeExactly(start: int, stop: int, step: int, v: int)
    requires step >= 1
    ensures v in Range(start, stop, step) <==> start <= v < stop && (v - start) % step == 0
    decreases stop - start
  {
    if start < stop {
      RangeExactly(start + step, stop, step, v);
      RangeStep(start, step, v);
    }
  }

  lemma RangeStep(start: int, step: int, v: int)
    requires step >= 1
    ensures start <= v && (v - start) % step == 0 <==>
      v == start || (start + step <= v && (v - (start + step)) % step == 0)
  {
    if start < v < start + step {
      Remainder(v - start, step);
    } else {
      StepBack(v - start, step);
      assert v - start - step == v - (start + step);
    }
  }

  lemma Remainder(d: int, step: int)
    requires 0 <= d < step
    ensures d % step == d
  {
  }

  lemma StepBack(d: int, step: int)
    requires step >= 1
    ensures (d - step) % step == d % step
  {
    var q, r := (d - step) / step, (d - step) % step;
    assert (q + 1) * step == q * step + step;
    QuotientUnique(d, step, q + 1, r);
  }

  lemma QuotientUnique(d: int, step: int, q: int, r: int)
    requires 0 <= r < step && d == q * step + r
    ensures d % step == r
  {
    var p, s := d / step, d % step;
    assert d == p * step + s;
    if p > q {
      Grows(p, q + 1, step);
    } else if p < q {
      Grows(q, p + 1, step);
    }
  }

  lemma Grows(a: int, b: int, step: int)
    requires a >= b && step >= 1
    ensures a * step >= b * step
    ensures b * step == (b - 1) * step + step
  {
    assert (a - b) * step >= 0;
    assert (a - b) * step == a * step - b * step;
  }

  /** `cron_field`: the values grow part by part. */
  method CronField(number: Numeral, spec: string, low: int, high: int) returns (r: Option<set<int>>)
    ensures r == Field(number, spec, low, high)
  {
    var parts := Split(spec, ',');
    var values: set<int> := {};
    for i := 0 to |parts|
      invariant AllRead(number, parts[..i], low, high)
      invariant forall v :: v in values <==> low <= v <= high && Chosen(number, parts[..i], low, high, v)
    {
      var slice := ReadPart(number, parts[i], low, high);
      if slice.None? {
        return None;
      }
      var Slice(start, end, step) := slice.value;
      var range := Range(start, end + 1, step);
      ghost var before := values;
      values := values + set v | v in range;
      forall v
        ensures v in values <==> low <= v <= high && Chosen(number, parts[..i + 1], low, high, v)
      {
        RangeExactly(start, end + 1, step, v);
        ChosenOneMore(number, parts, i, low, high, v);
      }
    }
    assert parts[..|parts|] == parts;
    assert values == set v | low <= v <= high && Chosen(number, parts, low, high, v);
    r := Some(values);
  }

  lemma ChosenOneMore(number: Numeral, parts: seq<string>, i: nat, low: int, high: int, v: int)
    requires i < |parts|
    ensures Chosen(number, parts[..i + 1], low, high, v)
       <==> Chosen(number, parts[..i], low, high, v) || Picks(number, parts[i], low, high, v)
  {
    hide Picks;
    assert parts[..i + 1] == parts[..i] + [parts[i]];
    if Chosen(number, parts[..i], low, high, v) {
      var j :| 0 <= j < i && Picks(number, parts[..i][j], low, high, v);
      assert parts[..i + 1][j] == parts[..i][j];
    }
    assert parts[..i + 1][i] == parts[i];
  }

  // --------------------------------------------------------------- written fields

  datatype Base = Every | Between(first: nat, last: nat) | Exactly(n: nat)
  datatype Part = Part(base: Base, step: Option<nat>)

  predicate Plain(text: string) {
    ',' !in text && '/' !in text && '-' !in text && text != "*"
  }

  /** Numbers are written so that `int` reads them back, with none of the marks of a field. */
  ghost predicate Legible(number: Numeral, text: nat -> string) {
    forall n: nat :: Plain(text(n)) && number(text(n)) == Some(n)
  }

  function WriteBase(text: nat -> string, base: Base): string {
    match base
    case Every => "*"
    case Between(a, b) => text(a) + ['-'] + text(b)
    case Exactly(n) => text(n)
  }

  function Write(text: nat -> string, part: Part): string {
    WriteBase(text, part.base) + match part.step case None => [] case Some(k) => ['/'] + text(k)
  }

  function WriteField(text: nat -> string, parts: seq<Part>): string
    requires parts != []
  {
    if |parts| == 1 then Write(text, parts[0])
    else Write(text, parts[0]) + [','] + WriteField(text, parts[1..])
  }

  function Bounds(base: Base, low: int, high: int): (int, int) {
    match base
    case Every => (low, high)
    case Between(a, b) => (a, b)
    case Exactly(n) => (n, n)
  }

  function StepOf(part: Part): nat {
    match part.step case None => 1 case Some(k) => k
  }

  predicate InRange(part: Part, low: int, high: int) {
    var (a, b) := Bounds(part.base, low, high);
    low <= a <= b <= high && StepOf(part) >= 1
  }

  lemma {:induction false} FindFirst(a: string, c: char, b: string)
    requires c !in a
    ensures Find(a + [c] + b, c) == |a| && (a + [c] + b)[..|a|] == a && (a + [c] + b)[|a| + 1..] == b
  {
    var all := a + [c] + b;
    assert all[|a|] == c && all[..|a|] == a;
    assert forall k :: 0 <= k < |a| ==> all[k] != c;
  }

  lemma FindNone(s: string, c: char)
    requires c !in s
    ensures Find(s, c) == |s| && s[..|s|] == s
  {
  }

  lemma BaseRead(number: Numeral, text: nat -> string, base: Base, low: int, high: int)
    requires Legible(number, text)
    ensures ReadBounds(number, WriteBase(text, base), low, high) == Some(Bounds(base, low, high))
    ensures ',' !in WriteBase(text, base) && '/' !in WriteBase(text, base)
  {
    match base
    case Every =>
    case Between(a, b) =>
      var written := text(a) + ['-'] + text(b);
      assert Plain(text(a)) && Plain(text(b));
      FindFirst(text(a), '-', text(b));
      assert written[|text(a)|] == '-' && written != "*";
    case Exactly(n) =>
      assert Plain(text(n));
  }

  lemma PartRead(number: Numeral, text: nat -> string, part: Part, low: int, high: int)
    requires Legible(number, text)
    ensures ReadPart(number, Write(text, part), low, high)
         == var (a, b) := Bounds(part.base, low, high);
            if InRange(part, low, high) then Some(Slice(a, b, StepOf(part))) else None
    ensures ',' !in Write(text, part)
  {
    hide ReadBounds, WriteBase, Bounds, Find;
    var base := WriteBase(text, part.base);
    BaseRead(number, text, part.base, low, high);
    match part.step
    case None =>
      assert base + [] == base;
      FindNone(base, '/');
    case Some(k) =>
      assert Plain(text(k)) && number(text(k)) == Some(k);
      assert base + (['/'] + text(k)) == base + ['/'] + text(k);
      FindFirst(base, '/', text(k));
  }

  lemma {:induction false} FieldSplit(number: Numeral, text: nat -> string, parts: seq<Part>)
    requires Legible(number, text) && parts != []
    ensures |Split(WriteField(text, parts), ',')| == |parts|
    ensures forall i :: 0 <= i < |parts| ==> Split(WriteField(text, parts), ',')[i] == Write(text, parts[i])
  {
    hide Write, Legible, Find;
    PartRead(number, text, parts[0], 0, 0);
    if |parts| == 1 {
      FindNone(Write(text, parts[0]), ',');
    } else {
      FieldSplit(number, text, parts[1..]);
      FindFirst(Write(text, parts[0]), ',', WriteField(text, parts[1..]));
    }
  }

  /** Whether one of the parts asks for a number. */
  predicate Asked(parts: seq<Part>, low: int, high: int, v: int) {
    exists part :: part in parts && StepOf(part) >= 1 &&
      var (a, b) := Bounds(part.base, low, high);
      a <= v <= b && (v - a) % StepOf(part) == 0
  }

  /** A written field is read back as the numbers its parts ask for; it is refused exactly when one
      part is out of range, backwards or has step zero. */
  lemma FieldMeans(number: Numeral, text: nat -> string, parts: seq<Part>, low: int, high: int)
    requires Legible(number, text) && parts != []
    ensures var r := Field(number, WriteField(text, parts), low, high);
      && (r.Some? <==> forall part | part in parts :: InRange(part, low, high))
      && (r.Some? ==> forall v :: v in r.value <==> Asked(parts, low, high, v))
  {
    hide Split, WriteField, Write, ReadPart, Legible, StepOf, Bounds;
    var texts := Split(WriteField(text, parts), ',');
    FieldSplit(number, text, parts);
    forall i | 0 <= i < |parts|
      ensures ReadPart(number, texts[i], low, high)
           == var (a, b) := Bounds(parts[i].base, low, high);
              if InRange(parts[i], low, high) then Some(Slice(a, b, StepOf(parts[i]))) else None
    {
      PartRead(number, text, parts[i], low, high);
    }
    if AllRead(number, texts, low, high) {
      forall part | part in parts
        ensures InRange(part, low, high)
      {
        var i :| 0 <= i < |parts| && parts[i] == part;
        assert ReadPart(number, texts[i], low, high).Some?;
      }
      forall v
        ensures low <= v <= high && Chosen(number, texts, low, high, v) <==> Asked(parts, low, high, v)
      {
        ChosenIsAsked(number, texts, parts, low, high, v);
      }
    }
  }

  lemma ChosenIsAsked(number: Numeral, texts: seq<string>, parts: seq<Part>, low: int, high: int, v: int)
    requires |texts| == |parts| && forall part | part in parts :: InRange(part, low, high)
    requires forall i :: 0 <= i < |parts| ==>
      ReadPart(number, texts[i], low, high)
        == Some(Slice(Bounds(parts[i].base, low, high).0, Bounds(parts[i].base, low, high).1, StepOf(parts[i])))
    ensures low <= v <= high && Chosen(number, texts, low, high, v) <==> Asked(parts, low, high, v)
  {
    hide ReadPart, StepOf, Bounds;
    if Asked(parts, low, high, v) {
      var part :| part in parts && StepOf(part) >= 1 &&
        (var (a, b) := Bounds(part.base, low, high); a <= v <= b && (v - a) % StepOf(part) == 0);
      var i :| 0 <= i < |parts| && parts[i] == part;
      assert InRange(part, low, high) && Picks(number, texts[i], low, high, v);
    }
    if Chosen(number, texts, low, high, v) {
      var i :| 0 <= i < |texts| && Picks(number, texts[i], low, high, v);
      assert parts[i] in parts;
    }
  }

  // ------------------------------------------------------------------ occurrences

  const MINUTE := 60_000_000
  const DAY := 1440 * MINUTE

  predicate Matches(minutes: set<int>, hours: set<int>, k: int) {
    k % 60 in minutes && k / 60 % 24 in hours
  }

  /** The whole minutes `k..n` that match, in order. */
  function Ticks(minutes: set<int>, hours: set<int>, k: int, n: int): seq<int>
    decreases n - k
  {
    if k >= n then []
    else (if Matches(minutes, hours, k) then [k * MINUTE] else []) + Ticks(minutes, hours, k + 1, n)
  }

  /** The first whole minute not before an instant. */
  function FirstMinute(start: int): int {
    (start + MINUTE - 1) / MINUTE
  }

  function Occurrences(minutes: set<int>, hours: set<int>, start: int, end: int): seq<int> {
    Ticks(minutes, hours, FirstMinute(start), end / MINUTE + 1)
  }

  /** What an expression asks for in a window; nothing when the expression is refused. */
  function Expected(number: Numeral, fields: seq<string>, start: int, end: int): Option<seq<int>> {
    if |fields| != 5 || fields[2] != "*" || fields[3] != "*" || fields[4] != "*" then None
    else match (Field(number, fields[0], 0, 59), Field(number, fields[1], 0, 23))
      case (Some(minutes), Some(hours)) => Some(Occurrences(minutes, hours, start, end))
      case _ => None
  }

  /** `cron_occurrences`: the loop advances one minute at a time. */
  method CronOccurrences(number: Numeral, fields: seq<string>, start: int, end: int) returns (r: Option<seq<int>>)
    ensures r == Expected(number, fields, start, end)
  {
    hide Field, Matches;
    if |fields| != 5 || fields[2] != "*" || fields[3] != "*" || fields[4] != "*" {
      return None;
    }
    var minutes := CronField(number, fields[0], 0, 59);
    if minutes.None? {
      return None;
    }
    var hours := CronField(number, fields[1], 0, 23);
    if hours.None? {
      return None;
    }
    var current := start / MINUTE * MINUTE;
    if current < start {
      current := current + MINUTE;
    }
    ghost var k := FirstMinute(start);
    assert current == k * MINUTE;
    var occurrences: seq<int> := [];
    while current <= end
      invariant current == k * MINUTE
      invariant occurrences + Ticks(minutes.value, hours.value, k, end / MINUTE + 1)
             == Occurrences(minutes.value, hours.value, start, end)
    {
      assert k < end / MINUTE + 1 && current / MINUTE == k;
      if Matches(minutes.value, hours.value, current / MINUTE) {
        assert occurrences + ([current] + Ticks(minutes.value, hours.value, k + 1, end / MINUTE + 1))
            == occurrences + [current] + Ticks(minutes.value, hours.value, k + 1, end / MINUTE + 1);
        occurrences := occurrences + [current];
      }
      current := current + MINUTE;
      k := k + 1;
    }
    assert k >= end / MINUTE + 1;
    assert occurrences + [] == occurrences;
    r := Some(occurrences);
  }

  predicate Rising(list: seq<int>) {
    forall i, j :: 0 <= i < j < |list| ==> list[i] < list[j]
  }

  lemma {:induction false} TicksExactly(minutes: set<int>, hours: set<int>, k: int, n: int, t: int)
    ensures t in Ticks(minutes, hours, k, n) <==> IsTick(minutes, hours, k, n, t)
    decreases n - k
  {
    hide Matches;
    if k < n {
      TicksExactly(minutes, hours, k + 1, n, t);
      assert t % MINUTE == 0 && t / MINUTE == k <==> t == k * MINUTE;
    }
  }

  lemma {:induction false} TicksRise(minutes: set<int>, hours: set<int>, k: int, n: int)
    ensures Rising(Ticks(minutes, hours, k, n))
    decreases n - k
  {
    hide Matches;
    if k < n {
      TicksRise(minutes, hours, k + 1, n);
      var rest := Ticks(minutes, hours, k + 1, n);
      forall t | t in rest
        ensures k * MINUTE < t
      {
        TicksExactly(minutes, hours, k + 1, n, t);
      }
      RisingFront(k * MINUTE, rest);
      assert [] + rest == rest;
    }
  }

  lemma RisingFront(t: int, rest: seq<int>)
    requires Rising(rest) && forall u | u in rest :: t < u
    ensures Rising([t] + rest)
  {
    var all := [t] + rest;
    forall i, j | 0 <= i < j < |all|
      ensures all[i] < all[j]
    {
      assert rest[j - 1] in rest && (i == 0 || all[i] == rest[i - 1]);
    }
  }

  lemma RisingEnds(list: seq<int>)
    requires Rising(list) && list != []
    ensures var last := |list| - 1;
      && Rising(list[..last]) && list == list[..last] + [list[last]]
      && forall t | t in list[..last] :: t < list[last]
  {
  }

  lemma RisingBack(list: seq<int>, t: int)
    requires Rising(list) && forall u | u in list :: u < t
    ensures Rising(list + [t])
  {
    forall i, j | 0 <= i < j < |list| + 1
      ensures (list + [t])[i] < (list + [t])[j]
    {
      assert list[i] in list;
    }
  }

  predicate IsTick(minutes: set<int>, hours: set<int>, k: int, n: int, t: int) {
    t % MINUTE == 0 && k <= t / MINUTE < n && Matches(minutes, hours, t / MINUTE)
  }

  /** The list is strictly increasing, and holds exactly the whole minutes of the window, both ends
      included, whose minute and hour are chosen. */
  lemma OccurrencesExactly(minutes: set<int>, hours: set<int>, start: int, end: int, t: int)
    ensures Rising(Occurrences(minutes, hours, start, end))
    ensures t in Occurrences(minutes, hours, start, end) <==>
      start <= t <= end && t % MINUTE == 0 && t / MINUTE % 60 in minutes && t / (60 * MINUTE) % 24 in hours
  {
    TicksRise(minutes, hours, FirstMinute(start), end / MINUTE + 1);
    TicksExactly(minutes, hours, FirstMinute(start), end / MINUTE + 1, t);
    assert t in Occurrences(minutes, hours, start, end) <==> IsTick(minutes, hours, FirstMinute(start), end / MINUTE + 1, t);
    if t % MINUTE == 0 {
      InWindow(start, end, t);
    }
  }

  /** Only five fields are read, and only expressions for every day. */
  lemma OnlyEveryDay(number: Numeral, fields: seq<string>, start: int, end: int)
    requires |fields| != 5 || fields[2..] != ["*", "*", "*"]
    ensures Expected(number, fields, start, end).None?
  {
    hide Field;
    if |fields| == 5 {
      assert fields[2..] == [fields[2], fields[3], fields[4]];
    }
  }

  /** From the parts of its two fields to its instants: a written expression is refused exactly when a part
      is out of range, and otherwise holds exactly the whole minutes of the window that both fields ask
      for, in strict order. */
  lemma ExpressionMeans(number: Numeral, text: nat -> string, minutes: seq<Part>, hours: seq<Part>, start: int, end: int)
    requires Legible(number, text) && minutes != [] && hours != []
    ensures var r := Expected(number, [WriteField(text, minutes), WriteField(text, hours), "*", "*", "*"], start, end);
      && (r.Some? <==> (forall part | part in minutes :: InRange(part, 0, 59)) && forall part | part in hours :: InRange(part, 0, 23))
      && (r.Some? ==> Rising(r.value))
      && (r.Some? ==> forall t :: t in r.value <==>
            && start <= t <= end && t % MINUTE == 0
            && Asked(minutes, 0, 59, t / MINUTE % 60) && Asked(hours, 0, 23, t / (60 * MINUTE) % 24))
  {
    hide Legible, WriteField, Field, Occurrences, Asked, InRange, Rising;
    FieldMeans(number, text, minutes, 0, 59);
    FieldMeans(number, text, hours, 0, 23);
    var m, h := Field(number, WriteField(text, minutes), 0, 59), Field(number, WriteField(text, hours), 0, 23);
    if m.Some? && h.Some? {
      OccurrencesExactly(m.value, h.value, start, end, 0);
      forall t
        ensures t in Occurrences(m.value, h.value, start, end) <==>
          start <= t <= end && t % MINUTE == 0 && t / MINUTE % 60 in m.value && t / (60 * MINUTE) % 24 in h.value
      {
        OccurrencesExactly(m.value, h.value, start, end, t);
      }
    }
  }

  lemma InWindow(start: int, end: int, t: int)
    requires t % MINUTE == 0
    ensures start <= t <= end <==> FirstMinute(start) <= t / MINUTE < end / MINUTE + 1
    ensures t / MINUTE / 60 == t / (60 * MINUTE)
  {
  }

  lemma {:induction false} TicksSplit(minutes: set<int>, hours: set<int>, a: int, b: int, c: int)
    requires a <= b <= c
    ensures Ticks(minutes, hours, a, c) == Ticks(minutes, hours, a, b) + Ticks(minutes, hours, b, c)
    decreases b - a
  {
    hide Matches;
    if a < b {
      TicksSplit(minutes, hours, a + 1, b, c);
    }
  }

  function Below(s: set<int>, n: int): set<int> {
    set x | x in s && x < n
  }

  lemma BelowOneMore(s: set<int>, n: int)
    ensures |Below(s, n + 1)| == |Below(s, n)| + if n in s then 1 else 0
  {
    assert Below(s, n + 1) == if n in s then Below(s, n) + {n} else Below(s, n);
  }

  lemma BelowBounds(s: set<int>, n: int)
    requires forall x | x in s :: 0 <= x < n
    ensures Below(s, 0) == {} && Below(s, n) == s
  {
  }

  lemma {:induction false} HourCount(minutes: set<int>, hours: set<int>, hour: int, j: nat)
    requires j <= 60 && forall x | x in minutes :: 0 <= x < 60
    ensures |Ticks(minutes, hours, hour * 60, hour * 60 + j)| == if hour % 24 in hours then |Below(minutes, j)| else 0
  {
    if j == 0 {
      BelowBounds(minutes, 60);
    } else {
      var k := hour * 60 + j - 1;
      HourCount(minutes, hours, hour, j - 1);
      TicksSplit(minutes, hours, hour * 60, k, k + 1);
      BelowOneMore(minutes, j - 1);
      assert k % 60 == j - 1 && k / 60 == hour;
      assert Ticks(minutes, hours, k + 1, k + 1) == [];
      assert |Ticks(minutes, hours, k, k + 1)| == if Matches(minutes, hours, k) then 1 else 0;
    }
  }

  lemma {:induction false} DayCount(minutes: set<int>, hours: set<int>, day: int, h: nat)
    requires h <= 24 && (forall x | x in minutes :: 0 <= x < 60) && (forall x | x in hours :: 0 <= x < 24)
    ensures |Ticks(minutes, hours, day * 1440, day * 1440 + h * 60)| == |Below(hours, h)| * |minutes|
  {
    hide Matches;
    if h == 0 {
      BelowBounds(hours, 24);
    } else {
      var hour := day * 24 + h - 1;
      DayCount(minutes, hours, day, h - 1);
      TicksSplit(minutes, hours, day * 1440, hour * 60, hour * 60 + 60);
      HourCount(minutes, hours, hour, 60);
      BelowBounds(minutes, 60);
      BelowOneMore(hours, h - 1);
      assert hour % 24 == h - 1;
      assert (|Below(hours, h - 1)| + 1) * |minutes| == |Below(hours, h - 1)| * |minutes| + |minutes|;
    }
  }

  lemma {:induction false} DaysCount(minutes: set<int>, hours: set<int>, day: int, days: nat)
    requires (forall x | x in minutes :: 0 <= x < 60) && (forall x | x in hours :: 0 <= x < 24)
    ensures |Ticks(minutes, hours, day * 1440, (day + days) * 1440)| == days * (|minutes| * |hours|)
  {
    hide Matches;
    if days > 0 {
      DaysCount(minutes, hours, day, days - 1);
      TicksSplit(minutes, hours, day * 1440, (day + days - 1) * 1440, (day + days) * 1440);
      DayCount(minutes, hours, day + days - 1, 24);
      BelowBounds(hours, 24);
      assert |hours| * |minutes| == |minutes| * |hours|;
      OneMore(days - 1, |minutes| * |hours|);
    }
  }

  lemma OneMore(n: nat, x: nat)
    ensures (n + 1) * x == n * x + x
  {
  }

  /** Over whole days an expression asks for days times minutes times hours. */
  lemma WholeDaysCount(number: Numeral, fields: seq<string>, day: int, days: nat, end: int)
    requires (day + days) * DAY - MINUTE <= end < (day + days) * DAY
    requires Expected(number, fields, day * DAY, end).Some?
    ensures |Expected(number, fields, day * DAY, end).value|
         == days * (|Field(number, fields[0], 0, 59).value| * |Field(number, fields[1], 0, 23).value|)
  {
    hide Field, Matches;
    assert FirstMinute(day * DAY) == day * 1440 && end / MINUTE + 1 == (day + days) * 1440;
    DaysCount(Field(number, fields[0], 0, 59).value, Field(number, fields[1], 0, 23).value, day, days);
  }

  // --------------------------------------------------------------------- coverage

  datatype Run = Run(id: int, created: int)

  /** `previous[-1]`: the last occurrence in the list that is not after an instant. */
  function Previous(occurrences: seq<int>, t: int): (r: Option<int>)
    ensures r.Some? ==> r.value in occurrences && r.value <= t
  {
    if occurrences == [] then None
    else
      var last := |occurrences| - 1;
      if occurrences[last] <= t then Some(occurrences[last]) else Previous(occurrences[..last], t)
  }

  /** In a rising list it is the greatest one not after the instant. */
  lemma {:induction false} PreviousIsGreatest(occurrences: seq<int>, t: int)
    requires Rising(occurrences)
    ensures Previous(occurrences, t).None? <==> forall o | o in occurrences :: t < o
    ensures Previous(occurrences, t).Some? ==> forall o | o in occurrences && o <= t :: o <= Previous(occurrences, t).value
  {
    if occurrences != [] {
      var last := |occurrences| - 1;
      assert occurrences == occurrences[..last] + [occurrences[last]];
      if t < occurrences[last] {
        PreviousIsGreatest(occurrences[..last], t);
      }
    }
  }

  /** `sorted(runs, key=created_at)`: a stable sort. */
  function Insert(run: Run, runs: seq<Run>): (r: seq<Run>)
    ensures multiset(r) == multiset(runs) + multiset{run}
  {
    if runs == [] then [run]
    else
      var last := |runs| - 1;
      assert runs == runs[..last] + [runs[last]];
      if runs[last].created <= run.created then runs + [run]
      else Insert(run, runs[..last]) + [runs[last]]
  }

  function InTime(runs: seq<Run>): (r: seq<Run>)
    ensures multiset(r) == multiset(runs)
  {
    if runs == [] then []
    else
      var last := |runs| - 1;
      assert runs == runs[..last] + [runs[last]];
      Insert(runs[last], InTime(runs[..last]))
  }

  predicate Timely(runs: seq<Run>) {
    forall i, j :: 0 <= i < j < |runs| ==> runs[i].created <= runs[j].created
  }

  /** The runs of one instant, in their order. */
  function At(runs: seq<Run>, t: int): seq<Run> {
    if runs == [] then []
    else
      var last := |runs| - 1;
      At(runs[..last], t) + if runs[last].created == t then [runs[last]] else []
  }

  lemma TimelyBack(runs: seq<Run>, last: Run)
    requires Timely(runs) && forall r | r in runs :: r.created <= last.created
    ensures Timely(runs + [last])
  {
    forall i, j | 0 <= i < j < |runs| + 1
      ensures (runs + [last])[i].created <= (runs + [last])[j].created
    {
      assert runs[i] in runs;
    }
  }

  lemma {:induction false} InsertTimely(run: Run, runs: seq<Run>)
    requires Timely(runs)
    ensures Timely(Insert(run, runs))
  {
    if runs != [] {
      var last := |runs| - 1;
      if runs[last].created <= run.created {
        TimelyBack(runs, run);
      } else {
        InsertTimely(run, runs[..last]);
        var front := Insert(run, runs[..last]);
        forall r | r in front
          ensures r.created <= runs[last].created
        {
          assert r in multiset(front);
          assert r == run || r in runs[..last];
        }
        TimelyBack(front, runs[last]);
      }
    }
  }

  lemma AtBack(runs: seq<Run>, last: Run, t: int)
    ensures At(runs + [last], t) == At(runs, t) + if last.created == t then [last] else []
  {
    assert (runs + [last])[..|runs|] == runs;
  }

  lemma {:induction false} InsertAt(run: Run, runs: seq<Run>, t: int)
    requires Timely(runs)
    ensures At(Insert(run, runs), t) == At(runs, t) + if run.created == t then [run] else []
  {
    hide At;
    if runs == [] {
      AtBack([], run, t);
      assert [] + [run] == [run];
    } else {
      var last := |runs| - 1;
      AtBack(runs, run, t);
      if runs[last].created > run.created {
        InsertAt(run, runs[..last], t);
        AtBack(Insert(run, runs[..last]), runs[last], t);
        AtBack(runs[..last], runs[last], t);
        assert runs == runs[..last] + [runs[last]];
        assert run.created == t ==> runs[last].created != t;
        assert At(runs[..last], t) + [] == At(runs[..last], t);
      }
    }
  }

  /** The runs are put in the order of their instants, and those of one instant keep their order. */
  lemma {:induction false} InTimeSorts(runs: seq<Run>, t: int)
    ensures Timely(InTime(runs)) && At(InTime(runs), t) == At(runs, t)
  {
    if runs != [] {
      InTimeSorts(runs[..|runs| - 1], t);
      InsertTimely(runs[|runs| - 1], InTime(runs[..|runs| - 1]));
      InsertAt(runs[|runs| - 1], InTime(runs[..|runs| - 1]), t);
    }
  }

  datatype Health = Health(covered: map<int, seq<int>>, duplicates: seq<int>, delays: seq<int>)

  /** What the loop over the runs has gathered after those runs. */
  function Gathered(occurrences: seq<int>, runs: seq<Run>): Health {
    if runs == [] then Health(map[], [], [])
    else
      var last := runs[|runs| - 1];
      var before := Gathered(occurrences, runs[..|runs| - 1]);
      match Previous(occurrences, last.created)
      case None => before
      case Some(o) => Health(
        before.covered[o := (if o in before.covered then before.covered[o] else []) + [last.id]],
        before.duplicates + (if o in before.covered then [last.id] else []),
        before.delays + [last.created - o])
  }

  /** The runs measured against an occurrence, in their order. */
  function Answering(occurrences: seq<int>, runs: seq<Run>, o: int): seq<int> {
    if runs == [] then []
    else
      var last := runs[|runs| - 1];
      Answering(occurrences, runs[..|runs| - 1], o)
        + if Previous(occurrences, last.created) == Some(o) then [last.id] else []
  }

  /** The occurrences no run answered. */
  function Missing(occurrences: seq<int>, covered: set<int>): seq<int> {
    if occurrences == [] then []
    else
      var last := |occurrences| - 1;
      Missing(occurrences[..last], covered) + if occurrences[last] in covered then [] else [occurrences[last]]
  }

  datatype Report = Report(expected: nat, observed: nat, missing: seq<int>, health: Health)

  /** `schedule_health`, from the occurrences on. */
  method ScheduleHealth(number: Numeral, fields: seq<string>, runs: seq<Run>, start: int, end: int) returns (r: Option<Report>)
    ensures r.None? <==> Expected(number, fields, start, end).None?
    ensures r.Some? ==>
      var occurrences := Expected(number, fields, start, end).value;
      var health := Gathered(occurrences, InTime(runs));
      r.value == Report(|occurrences|, |runs|, Missing(occurrences, health.covered.Keys), health)
  {
    hide Expected, Previous, InTime;
    var listed := CronOccurrences(number, fields, start, end);
    if listed.None? {
      return None;
    }
    var occurrences := listed.value;
    var covered: map<int, seq<int>>, duplicates: seq<int>, delays: seq<int> := map[], [], [];
    var sorted := InTime(runs);
    for i := 0 to |sorted|
      invariant Gathered(occurrences, sorted[..i]) == Health(covered, duplicates, delays)
    {
      assert sorted[..i + 1][..i] == sorted[..i];
      var run := sorted[i];
      var previous := Previous(occurrences, run.created);
      if previous.None? {
        continue;
      }
      var occurrence := previous.value;
      if occurrence in covered {
        duplicates := duplicates + [run.id];
      }
      covered := covered[occurrence := (if occurrence in covered then covered[occurrence] else []) + [run.id]];
      delays := delays + [run.created - occurrence];
    }
    assert sorted[..|sorted|] == sorted;
    var missing: seq<int> := [];
    for i := 0 to |occurrences|
      invariant missing == Missing(occurrences[..i], covered.Keys)
    {
      assert occurrences[..i + 1][..i] == occurrences[..i];
      if occurrences[i] !in covered {
        missing := missing + [occurrences[i]];
      }
    }
    assert occurrences[..|occurrences|] == occurrences;
    r := Some(Report(|occurrences|, |runs|, missing, Health(covered, duplicates, delays)));
  }

  /** `covered` holds, for every occurrence that some run answered and for no other, those runs. */
  lemma {:induction false} CoveredExactly(occurrences: seq<int>, runs: seq<Run>, o: int)
    ensures var covered := Gathered(occurrences, runs).covered;
      && (o in covered <==> Answering(occurrences, runs, o) != [])
      && (o in covered ==> covered[o] == Answering(occurrences, runs, o) && o in occurrences)
  {
    hide Previous;
    if runs != [] {
      CoveredExactly(occurrences, runs[..|runs| - 1], o);
    }
  }

  /** Every run that is not before the first occurrence is measured once: it covers an occurrence
      first or it is a duplicate. */
  lemma {:induction false} RunsSplit(occurrences: seq<int>, runs: seq<Run>)
    ensures var h := Gathered(occurrences, runs);
      && |h.delays| == |h.covered.Keys| + |h.duplicates|
      && |h.delays| == |Placed(occurrences, runs)|
  {
    hide Previous;
    if runs != [] {
      var before := runs[..|runs| - 1];
      var h := Gathered(occurrences, before);
      RunsSplit(occurrences, before);
      match Previous(occurrences, runs[|runs| - 1].created)
      case None =>
      case Some(o) =>
        assert Gathered(occurrences, runs).covered.Keys == h.covered.Keys + {o};
    }
  }

  function Placed(occurrences: seq<int>, runs: seq<Run>): seq<Run> {
    if runs == [] then []
    else
      var last := runs[|runs| - 1];
      Placed(occurrences, runs[..|runs| - 1]) + if Previous(occurrences, last.created).Some? then [last] else []
  }

  /** Each delay is measured to the greatest occurrence not after its run. */
  lemma {:induction false} DelaysMeasured(occurrences: seq<int>, runs: seq<Run>, i: nat)
    requires Rising(occurrences) && i < |Gathered(occurrences, runs).delays|
    ensures |Placed(occurrences, runs)| == |Gathered(occurrences, runs).delays|
    ensures
      var created := Placed(occurrences, runs)[i].created;
      var o := created - Gathered(occurrences, runs).delays[i];
      o in occurrences && o <= created && forall p | p in occurrences && p <= created :: p <= o
  {
    hide Previous;
    RunsSplit(occurrences, runs);
    var before, last := runs[..|runs| - 1], runs[|runs| - 1];
    RunsSplit(occurrences, before);
    if i < |Gathered(occurrences, before).delays| {
      DelaysMeasured(occurrences, before, i);
    } else {
      PreviousIsGreatest(occurrences, last.created);
    }
  }

  lemma {:induction false} MissingMembers(occurrences: seq<int>, covered: set<int>, o: int)
    ensures o in Missing(occurrences, covered) <==> o in occurrences && o !in covered
  {
    if occurrences != [] {
      var last := |occurrences| - 1;
      MissingMembers(occurrences[..last], covered, o);
      assert occurrences == occurrences[..last] + [occurrences[last]];
    }
  }

  lemma {:induction false} MissingRises(occurrences: seq<int>, covered: set<int>)
    requires Rising(occurrences)
    ensures Rising(Missing(occurrences, covered))
  {
    if occurrences != [] {
      var last := |occurrences| - 1;
      RisingEnds(occurrences);
      MissingRises(occurrences[..last], covered);
      var front := Missing(occurrences[..last], covered);
      forall t | t in front
        ensures t < occurrences[last]
      {
        MissingMembers(occurrences[..last], covered, t);
      }
      RisingBack(front, occurrences[last]);
      assert front + [] == front;
    }
  }

  /** The occurrences some run answered. */
  function Among(occurrences: seq<int>, covered: set<int>): (r: set<int>)
    ensures forall c :: c in r <==> c in occurrences && c in covered
  {
    set c | c in occurrences && c in covered
  }

  lemma {:induction false} MissingCount(occurrences: seq<int>, covered: set<int>)
    requires Rising(occurrences)
    ensures |Missing(occurrences, covered)| + |Among(occurrences, covered)| == |occurrences|
  {
    hide Among, Rising;
    if occurrences == [] {
      assert Among(occurrences, covered) == {};
    } else {
      var last := |occurrences| - 1;
      var front := occurrences[..last];
      RisingEnds(occurrences);
      MissingCount(front, covered);
      assert occurrences[last] !in front;
      assert Among(occurrences, covered)
          == Among(front, covered) + if occurrences[last] in covered then {occurrences[last]} else {};
    }
  }

  /** Nothing is lost or counted twice: the missing occurrences, in order, and the covered ones are
      together exactly the expected ones. */
  lemma MissingExactly(occurrences: seq<int>, runs: seq<Run>)
    requires Rising(occurrences)
    ensures var covered := Gathered(occurrences, runs).covered.Keys;
      && Rising(Missing(occurrences, covered))
      && (forall o :: o in occurrences <==> o in covered || o in Missing(occurrences, covered))
      && (forall o | o in covered :: o !in Missing(occurrences, covered))
      && |Missing(occurrences, covered)| + |covered| == |occurrences|
  {
    hide Gathered, Missing;
    var covered := Gathered(occurrences, runs).covered.Keys;
    MissingRises(occurrences, covered);
    MissingCount(occurrences, covered);
    forall o
      ensures o in Missing(occurrences, covered) <==> o in occurrences && o !in covered
      ensures o in covered ==> o in occurrences
    {
      MissingMembers(occurrences, covered, o);
      CoveredExactly(occurrences, runs, o);
    }
    assert Among(occurrences, covered) == covered;
  }

  predicate AnswersAt(occurrences: seq<int>, i: nat, t: int)
    requires i < |occurrences|
  {
    occurrences[i] <= t && (i + 1 < |occurrences| ==> t < occurrences[i + 1])
  }

  /** An occurrence is missing exactly when no run was created from it until the next one. */
  lemma MissedMeansNoRun(occurrences: seq<int>, runs: seq<Run>, i: nat)
    requires Rising(occurrences) && i < |occurrences|
    ensures occurrences[i] in Missing(occurrences, Gathered(occurrences, InTime(runs)).covered.Keys)
       <==> forall run | run in runs :: !AnswersAt(occurrences, i, run.created)
  {
    hide Gathered, Missing, InTime, Previous;
    var o := occurrences[i];
    CoveredExactly(occurrences, InTime(runs), o);
    MissingMembers(occurrences, Gathered(occurrences, InTime(runs)).covered.Keys, o);
    AnsweringSome(occurrences, InTime(runs), o);
    forall run: Run
      ensures run in runs <==> run in InTime(runs)
      ensures Previous(occurrences, run.created) == Some(o) <==> AnswersAt(occurrences, i, run.created)
    {
      assert run in multiset(runs) <==> run in multiset(InTime(runs));
      PreviousIs(occurrences, i, run.created);
    }
  }

  lemma PreviousIs(occurrences: seq<int>, i: nat, t: int)
    requires Rising(occurrences) && i < |occurrences|
    ensures Previous(occurrences, t) == Some(occurrences[i]) <==> AnswersAt(occurrences, i, t)
  {
    hide Previous;
    PreviousIsGreatest(occurrences, t);
    var previous := Previous(occurrences, t);
    assert occurrences[i] in occurrences;
    if i + 1 < |occurrences| {
      assert occurrences[i + 1] in occurrences;
    }
    if previous.Some? && AnswersAt(occurrences, i, t) {
      var j :| 0 <= j < |occurrences| && occurrences[j] == previous.value;
      assert occurrences[i] <= occurrences[j];
    }
  }

  lemma {:induction false} AnsweringSome(occurrences: seq<int>, runs: seq<Run>, o: int)
    ensures Answering(occurrences, runs, o) == [] <==> forall run | run in runs :: Previous(occurrences, run.created) != Some(o)
  {
    hide Previous;
    if runs != [] {
      var last := |runs| - 1;
      AnsweringSome(occurrences, runs[..last], o);
      assert runs == runs[..last] + [runs[last]];
    }
  }
}
