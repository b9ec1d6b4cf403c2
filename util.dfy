// Front-end helpers (frontend/src/utils/util.ts): class-name joining, the bucketing
// behind the "time ago" label, and prefixed random ids.
module Util {
  import opened Text

  // --------------------------------------------------------------------- cls

  /** An argument of `cls`: a string, or one of the falsy values `undefined`, `false`, `null`. */
  datatype ClassArg = Str(s: string) | Undefined | False | Null

  predicate Truthy(a: ClassArg) {
    a.Str? && a.s != []
  }

  /** The arguments that survive `filter(Boolean)`, as strings, in order. */
  function Kept(args: seq<ClassArg>): (r: seq<string>)
    ensures |r| <= |args|
    ensures forall i :: 0 <= i < |r| ==> r[i] != []
  {
    if args == [] then []
    else
      var rest := Kept(args[1..]);
      if Truthy(args[0]) then [args[0].s] + rest else rest
  }

  /** The kept strings are exactly the non-empty string arguments. */
  lemma {:induction false} KeptMembers(args: seq<ClassArg>)
    ensures forall s :: s in Kept(args) <==> Str(s) in args && s != []
  {
    if args != [] {
      KeptMembers(args[1..]);
      assert forall a :: a in args <==> a == args[0] || a in args[1..];
    }
  }

  /** One step of the filter: the first argument is kept exactly when it is truthy. */
  lemma KeptCons(x: ClassArg, rest: seq<ClassArg>)
    ensures Kept([x] + rest) == (if Truthy(x) then [x.s] else []) + Kept(rest)
  {
    assert ([x] + rest)[0] == x;
    assert ([x] + rest)[1..] == rest;
  }

  lemma {:induction false} KeptAppend(a: seq<ClassArg>, b: seq<ClassArg>)
    ensures Kept(a + b) == Kept(a) + Kept(b)
  {
    if a == [] {
      assert a + b == b;
    } else {
      var x, tail := a[0], a[1..];
      assert a == [x] + tail;
      assert a + b == [x] + (tail + b);
      KeptAppend(tail, b);
      KeptCons(x, tail);
      KeptCons(x, tail + b);
    }
  }

  /** `cls(...)`: the truthy arguments joined with single spaces. */
  function Cls(args: seq<ClassArg>): string {
    Join(" ", Kept(args))
  }

  /** Splitting the result at spaces gives back exactly the truthy arguments, in order,
      when none of them holds a space; with no truthy argument the result is empty. */
  lemma ClsSplit(args: seq<ClassArg>)
    requires forall i :: 0 <= i < |args| && args[i].Str? ==> ' ' !in args[i].s
    ensures Kept(args) == [] ==> Cls(args) == []
    ensures Kept(args) != [] ==> Split(Cls(args), ' ') == Kept(args)
  {
    var k := Kept(args);
    KeptMembers(args);
    if k != [] {
      forall i | 0 <= i < |k| ensures ' ' !in k[i] {
        assert k[i] in k;
      }
      JoinSplit(k, ' ');
    }
  }

  /** Falsy arguments make no difference, and two calls join with one space. */
  lemma ClsConcat(a: seq<ClassArg>, b: seq<ClassArg>)
    ensures Kept(a) == [] ==> Cls(a + b) == Cls(b)
    ensures Kept(b) == [] ==> Cls(a + b) == Cls(a)
    ensures Kept(a) != [] && Kept(b) != [] ==> Cls(a + b) == Cls(a) + " " + Cls(b)
  {
    KeptAppend(a, b);
    assert Kept(a) == [] ==> Kept(a) + Kept(b) == Kept(b);
    assert Kept(b) == [] ==> Kept(a) + Kept(b) == Kept(a);
    if Kept(a) != [] && Kept(b) != [] {
      JoinAppend(" ", Kept(a), Kept(b));
    }
  }

  // ----------------------------------------------------------------- timeAgo

  datatype TimeUnit = Second | Minute | Hour | Day | Week | Month | Year

  /** The `ranges` table: the first limit the elapsed seconds stay under picks the unit. */
  const Ranges: seq<(int, TimeUnit)> :=
    [(60, Second), (3600, Minute), (86400, Hour), (604800, Day), (2629800, Week), (31557600, Month)]

  const SecondsPerYear := 31557600

  /** The divisor chosen for a unit, `year` using the default value's 31557600. */
  function Divisor(u: TimeUnit): (d: int)
    ensures d >= 1
  {
    match u
    case Second => 1
    case Minute => 60
    case Hour => 3600
    case Day => 86400
    case Week => 604800
    case Month => 2629800
    case Year => SecondsPerYear
  }

  /** Whole elapsed seconds, at least one; `Math.floor` of a quotient by a positive number. */
  function ElapsedSeconds(diffMs: int): (sec: int)
    ensures sec >= 1
    ensures diffMs >= 2000 ==> sec == diffMs / 1000
  {
    var s := diffMs / 1000;
    if s > 1 then s else 1
  }

  /** The unit of the first range whose limit exceeds `sec`, or year. */
  function UnitFor(sec: int): TimeUnit {
    if sec < 60 then Second
    else if sec < 3600 then Minute
    else if sec < 86400 then Hour
    else if sec < 604800 then Day
    else if sec < 2629800 then Week
    else if sec < 31557600 then Month
    else Year
  }

  /** Each unit's divisor is the limit of the range before it, so a unit is only chosen
      once at least one whole unit has passed, and the value is always -1 or less. */
  lemma UnitForBounds(sec: int)
    requires sec >= 1
    ensures Divisor(UnitFor(sec)) <= sec
    ensures -(sec / Divisor(UnitFor(sec))) <= -1
    ensures UnitFor(sec) != Year ==>
              exists k :: 0 <= k < |Ranges| && Ranges[k].1 == UnitFor(sec) && sec < Ranges[k].0
  {
    var u := UnitFor(sec);
    var d := Divisor(u);
    assert d <= sec;
    DivAtLeastOne(sec, d);
    if u != Year {
      var k := match u
        case Second => 0 case Minute => 1 case Hour => 2 case Day => 3 case Week => 4 case _ => 5;
      assert Ranges[k].1 == u && sec < Ranges[k].0;
    }
  }

  lemma DivAtLeastOne(a: int, d: int)
    requires 1 <= d <= a
    ensures a / d >= 1
  {
  }

  /** The range the loop stops at names the unit `UnitFor` picks. */
  lemma RangeChoice(sec: int, i: int)
    requires 0 <= i < |Ranges| && sec < Ranges[i].0
    requires i > 0 ==> sec >= Ranges[i - 1].0
    ensures Ranges[i].1 == UnitFor(sec)
  {
  }

  /** `timeAgo`'s choice of unit and value for an elapsed time in milliseconds: the loop
      over the ranges, stopping at the first limit the seconds stay under. */
  method TimeAgo(diffMs: int) returns (unit: TimeUnit, value: int)
    ensures unit == UnitFor(ElapsedSeconds(diffMs))
    ensures value == -(ElapsedSeconds(diffMs) / Divisor(unit))
    ensures value <= -1
  {
    var sec := ElapsedSeconds(diffMs);
    unit := Year;
    value := -(sec / SecondsPerYear);
    var i := 0;
    while i < |Ranges|
      invariant 0 <= i <= |Ranges|
      invariant i > 0 ==> sec >= Ranges[i - 1].0
      invariant unit == Year && value == -(sec / SecondsPerYear)
      decreases |Ranges| - i
    {
      var (limit, u) := Ranges[i];
      if sec < limit {
        unit := u;
        value := -(sec / Divisor(unit));
        RangeChoice(sec, i);
        break;
      }
      i := i + 1;
    }
    UnitForBounds(sec);
  }

  // ------------------------------------------------------------------ makeId

  /** `s.slice(start, end)` with indices clamped to the text. */
  function Slice(s: string, start: nat, end: nat): (r: string)
    ensures |r| <= if end >= start then end - start else 0
    ensures start <= end && end <= |s| ==> r == s[start..end]
  {
    var e := if end < |s| then end else |s|;
    if start < e then s[start..e] else []
  }

  /** `makeId(prefix)`; `random` is the base-36 text of the random number ("0.xxxxx"). */
  function MakeId(prefix: string, random: string): (r: string)
    ensures StartsWith(r, prefix)
    ensures |prefix| <= |r| <= |prefix| + 8
    ensures |random| >= 10 ==> r == prefix + random[2..10]
  {
    prefix + Slice(random, 2, 10)
  }
}
