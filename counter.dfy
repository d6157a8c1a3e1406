/** The sequence generator of pyltc/util/counter.py: a start value, an increment, an
    optional end that stops iteration, an optional output format and a growing set of
    values to skip. */
module Counters {
  import opened Wrappers
  import opened Text

  /** The argument kinds `skip` accepts or refuses: an int, a sequence or set of
      ints (a list, tuple, set or range; all become a set), or anything else
      (str, bytes, float, dict), which is refused. */
  datatype SkipArg = SkipInt(n: int) | SkipInts(values: seq<int>) | SkipRejected

  /** The values an accepted skip argument contributes. */
  function SkipValues(arg: SkipArg): (r: set<int>)
    requires !arg.SkipRejected?
    ensures arg.SkipInt? ==> r == {arg.n}
    ensures arg.SkipInts? ==> forall x :: x in r <==> x in arg.values
  {
    match arg
    case SkipInt(n) => {n}
    case SkipInts(vs) => set x | x in vs
  }

  /** Python truthiness of a skip argument: `0` and an empty sequence are false. */
  predicate SkipTruthy(arg: SkipArg) {
    match arg
    case SkipInt(n) => n != 0
    case SkipInts(vs) => vs != []
    case SkipRejected => true
  }

  /** The skip set a new counter starts with: the initializer tests the argument's
      truthiness, so `skip=0` skips nothing at all. */
  function InitialSkip(skip: Option<SkipArg>): (r: set<int>)
    requires skip.Some? ==> !skip.value.SkipRejected?
    ensures skip == Some(SkipInt(0)) ==> r == {}
    ensures skip.Some? && SkipTruthy(skip.value) ==> r == SkipValues(skip.value)
    ensures skip.None? ==> r == {}
  {
    if skip.Some? && SkipTruthy(skip.value) then SkipValues(skip.value) else {}
  }

  // ---------------------------------------------------------------- formatting

  /** The replacement field of a format string: an empty or `d` field (decimal), an `x` field
      (lowercase hex), or no field at all. */
  datatype Conversion = Decimal | LowerHex | NoField

  /** A format string: literal text, one replacement field, literal text. */
  datatype Format = Format(prefix: string, conv: Conversion, suffix: string) {
    /** Python truthiness of the format string: only the empty string is false. */
    predicate Truthy() { conv != NoField || prefix + suffix != "" }

    function Apply(n: int): string {
      prefix
      + (match conv
         case Decimal => IntToString(n)
         case LowerHex => HexString(n)
         case NoField => "")
      + suffix
    }
  }

  /** What `value()` returns: the bare count, or the formatted text. */
  datatype CountValue = Raw(n: int) | Text(s: string)

  /** The value reported for count `n` under format `fmt`. */
  function Render(fmt: Option<Format>, n: int): (v: CountValue)
    ensures v.Raw? <==> fmt.None? || !fmt.value.Truthy()
    ensures v.Raw? ==> v.n == n
  {
    if fmt.Some? && fmt.value.Truthy() then Text(fmt.value.Apply(n)) else Raw(n)
  }

  /** A decimal format loses nothing: the count can be read back from the text
      between the literal prefix and suffix. */
  lemma RenderDecimalRecoversCount(prefix: string, suffix: string, n: int)
    ensures Render(Some(Format(prefix, Decimal, suffix)), n).Text?
    ensures var t := Render(Some(Format(prefix, Decimal, suffix)), n).s;
      |prefix| + |suffix| <= |t|
      && t[..|prefix|] == prefix && t[|t| - |suffix|..] == suffix
      && ParseInt(t[|prefix|..|t| - |suffix|]) == n
  {
    var d := IntToString(n);
    var t := prefix + d + suffix;
    assert t[|prefix|..|t| - |suffix|] == d;
    assert t[..|prefix|] == prefix;
    assert t[|t| - |suffix|..] == suffix;
    ParseIntToString(n);
  }

  /** A hex format loses nothing either, for a count that is not negative. */
  lemma RenderHexRecoversCount(prefix: string, suffix: string, n: nat)
    ensures Render(Some(Format(prefix, LowerHex, suffix)), n).Text?
    ensures var t := Render(Some(Format(prefix, LowerHex, suffix)), n).s;
      |prefix| + |suffix| <= |t|
      && t[..|prefix|] == prefix && t[|t| - |suffix|..] == suffix
      && ParseHex(t[|prefix|..|t| - |suffix|]) == n
  {
    var d := HexDigits(n);
    var t := prefix + d + suffix;
    assert t[|prefix|..|t| - |suffix|] == d;
    assert t[..|prefix|] == prefix;
    assert t[|t| - |suffix|..] == suffix;
    ParseHexDigits(n);
  }

  // ---------------------------------------------------------------- the skip walk

  /** A bound on the magnitude of every member of a finite set of integers. */
  ghost function MaxAbs(s: set<int>): (r: nat)
    ensures forall x :: x in s ==> -(r as int) <= x <= r
    decreases |s|
  {
    if s == {} then 0
    else
      assert exists y :: y in s by {
        if forall y :: y !in s {
          assert false;
        }
      }
      var x: int :| x in s;
      var m := MaxAbs(s - {x});
      var r: nat := if x < 0 && -x > m then -x else if x > m then x else m;
      assert forall y :: y in s ==> y == x || y in s - {x};
      r
  }

  /** How far the skip walk from `c` may still go: zero when `c` is free. */
  ghost function Gap(c: int, incr: int, skip: set<int>): nat
    requires incr != 0
  {
    if c !in skip then 0
    else if incr > 0 then MaxAbs(skip) + 1 - c
    else MaxAbs(skip) + 1 + c
  }

  /** The `j`-th value of the walk from `c` by steps of `incr`. */
  function Walk(c: int, incr: int, j: nat): int { c + j * incr }

  /** The first of `c`, `c + incr`, `c + 2 * incr`, ... outside `skip`. */
  function FirstFree(c: int, incr: int, skip: set<int>): (r: int)
    requires incr != 0
    ensures r !in skip
    decreases Gap(c, incr, skip)
  {
    if c in skip then FirstFree(c + incr, incr, skip) else c
  }

  /** `FirstFree` is the first value of the walk that is not skipped: every value
      the walk passed on the way is in the skip set. */
  lemma {:induction false} FirstFreeIsFirst(c: int, incr: int, skip: set<int>) returns (k: nat)
    requires incr != 0
    ensures FirstFree(c, incr, skip) == Walk(c, incr, k)
    ensures forall j: nat :: j < k ==> Walk(c, incr, j) in skip
    decreases Gap(c, incr, skip)
  {
    if c in skip {
      var k' := FirstFreeIsFirst(c + incr, incr, skip);
      k := k' + 1;
      assert Walk(c + incr, incr, k') == Walk(c, incr, k);
      forall j: nat | j < k
        ensures Walk(c, incr, j) in skip
      {
        if j > 0 {
          assert Walk(c, incr, j) == Walk(c + incr, incr, j - 1);
        }
      }
    } else {
      k := 0;
    }
  }

  /** With nothing to skip the walk stops at once. */
  lemma FirstFreeOfEmpty(c: int, incr: int)
    requires incr != 0
    ensures FirstFree(c, incr, {}) == c
  {
  }

  // ---------------------------------------------------------------- one `next()`

  /** The effect of one `next()` on the count: it yields the new count, raises
      StopIteration (the count stays advanced), or never returns (a zero
      increment stuck on a skipped value). `after` is the count afterwards. */
  datatype Tick = Yields(after: int) | Stops(after: int) | Loops(after: int)

  /** `next()` from count `c`: step once, stop if that hit `end`, then walk past
      skipped values. The end test is made before the walk only. */
  function NextTick(c: int, incr: int, end: Option<int>, skip: set<int>): (t: Tick)
    ensures t.Stops? <==> end == Some(c + incr)
    ensures t.Yields? ==> t.after !in skip
    ensures t.Loops? <==> incr == 0 && end != Some(c) && c in skip
    ensures (t.Stops? || t.Loops?) ==> t.after == c + incr
  {
    var c1 := c + incr;
    if end == Some(c1) then Stops(c1)
    else if incr == 0 then (if c1 in skip then Loops(c1) else Yields(c1))
    else Yields(FirstFree(c1, incr, skip))
  }

  /** The outcomes of `n` successive `next()` calls from count `c`; a call that
      never returns ends the run. */
  function Run(c: int, incr: int, end: Option<int>, skip: set<int>, n: nat): (r: seq<Tick>)
    ensures |r| <= n
    ensures skip == {} && end.None? ==> |r| == n
    decreases n
  {
    if n == 0 then []
    else
      var t := NextTick(c, incr, end, skip);
      [t] + (if t.Loops? then [] else Run(t.after, incr, end, skip, n - 1))
  }

  /** With no skip set and no end, a counter created with `start` and `incr`
      yields `start`, `start + incr`, `start + 2 * incr`, ...: with the defaults,
      0, 1, 2, ... */
  lemma {:induction false} RunCountsFromStart(start: int, incr: int, n: nat)
    ensures |Run(start - incr, incr, None, {}, n)| == n
    ensures forall i :: 0 <= i < n ==> Run(start - incr, incr, None, {}, n)[i] == Yields(start + i * incr)
    decreases n
  {
    if n > 0 {
      RunCountsFromStart(start + incr, incr, n - 1);
      var r := Run(start - incr, incr, None, {}, n);
      assert start + incr - incr == start;
      forall i | 0 <= i < n
        ensures r[i] == Yields(start + i * incr)
      {
        if i > 0 {
          assert r[i] == Run(start, incr, None, {}, n - 1)[i - 1];
          assert start + incr + (i - 1) * incr == start + i * incr;
        }
      }
    }
  }

  /** A counter from 0 with `end == e` yields 0, 1, ..., e - 1 and then stops. */
  lemma {:induction false} RunStopsAtEnd(c: int, e: int)
    requires c < e
    ensures Run(c, 1, Some(e), {}, e - c) == seq(e - c - 1, i => Yields(c + 1 + i)) + [Stops(e)]
    decreases e - c
  {
    if c + 1 < e {
      RunStopsAtEnd(c + 1, e);
      assert seq(e - c - 1, i => Yields(c + 1 + i))
          == [Yields(c + 1)] + seq(e - c - 2, i => Yields(c + 2 + i));
    }
  }

  // ---------------------------------------------------------------- the object

  /** Outcome of `skip()`: the argument was added, or TypeError was raised. */
  datatype SkipOutcome = Added | TypeError

  /** What one `next()` call gives back to its caller. */
  datatype Step = Yield(v: CountValue) | StopIteration | Diverges

  class Counter {
    const start: int
    const incr: int
    const end: Option<int>
    const fmt: Option<Format>
    var skipSet: set<int>
    var current: int

    /** The initializer asserts that `skip` is None, an int or an acceptable
        sequence; the count starts one step before `start`. */
    constructor (start: int, incr: int, end: Option<int>, fmt: Option<Format>, skip: Option<SkipArg>)
      requires skip.Some? ==> !skip.value.SkipRejected?
      ensures this.start == start && this.incr == incr && this.end == end && this.fmt == fmt
      ensures skipSet == InitialSkip(skip)
      ensures current == start - incr
    {
      this.start := start;
      this.incr := incr;
      this.end := end;
      this.fmt := fmt;
      skipSet := InitialSkip(skip);
      current := start - incr;
    }

    /** Adds an int, or every member of a sequence, to the skip set; anything else
        raises TypeError and leaves the set as it was. */
    method Skip(values: SkipArg) returns (outcome: SkipOutcome)
      modifies this
      ensures outcome == TypeError <==> values.SkipRejected?
      ensures outcome == TypeError ==> skipSet == old(skipSet)
      ensures outcome == Added ==> skipSet == old(skipSet) + SkipValues(values)
      ensures current == old(current)
    {
      match values
      case SkipInt(n) =>
        skipSet := skipSet + {n};
        outcome := Added;
      case SkipInts(vs) =>
        skipSet := skipSet + SkipValues(values);
        outcome := Added;
      case SkipRejected =>
        outcome := TypeError;
    }

    /** The current count, formatted when the format is truthy; reading it
        changes nothing. */
    function Value(): (v: CountValue)
      reads this
      ensures v.Raw? ==> v.n == current
    {
      Render(fmt, current)
    }

    /** Steps the count once, raises StopIteration if it hit `end`, otherwise walks
        past skipped values and reports the new value. */
    method Next() returns (step: Step)
      modifies this
      ensures skipSet == old(skipSet)
      ensures current == NextTick(old(current), incr, end, skipSet).after
      ensures NextTick(old(current), incr, end, skipSet).Stops? ==> step == StopIteration
      ensures NextTick(old(current), incr, end, skipSet).Loops? ==> step == Diverges
      ensures NextTick(old(current), incr, end, skipSet).Yields? ==> step == Yield(Render(fmt, current))
    {
      current := current + incr;
      if end.Some? && current == end.value {
        return StopIteration;
      }
      if incr == 0 {
        if current in skipSet {
          return Diverges;
        }
      } else {
        while current in skipSet
          invariant skipSet == old(skipSet)
          invariant FirstFree(current, incr, skipSet) == FirstFree(old(current) + incr, incr, skipSet)
          decreases Gap(current, incr, skipSet)
        {
          current := current + incr;
        }
      }
      step := Yield(Value());
    }
  }
}
