/** tc rate strings: `<digits><units>`, split, validated against the units
    table of tc(8) and converted to bits per second. */
module Rates {
  import opened Wrappers
  import opened Text

  /** Bits per second of one unit, for each of the 18 units tc accepts. */
  const RATE_KOEFF: map<string, nat> := map[
    "bit" := 1,
    "bps" := 8,
    "kbit" := 1000,
    "kibit" := 1024,
    "kbps" := 8 * 1000,
    "kibps" := 8 * 1024,
    "mbit" := 1000 * 1000,
    "mibit" := 1024 * 1024,
    "mbps" := 8 * 1000 * 1000,
    "mibps" := 8 * 1024 * 1024,
    "gbit" := 1000 * 1000 * 1000,
    "gibit" := 1024 * 1024 * 1024,
    "gbps" := 8 * 1000 * 1000 * 1000,
    "gibps" := 8 * 1024 * 1024 * 1024,
    "tbit" := 1000 * 1000 * 1000 * 1000,
    "tibit" := 1024 * 1024 * 1024 * 1024,
    "tbps" := 8 * 1000 * 1000 * 1000 * 1000,
    "tibps" := 8 * 1024 * 1024 * 1024 * 1024
  ]

  /** The decimal (SI) and binary (IEC) multiplier prefixes, smallest first. */
  const SI_PREFIXES: seq<string> := ["k", "m", "g", "t"]
  const IEC_PREFIXES: seq<string> := ["ki", "mi", "gi", "ti"]

  /** `ValueError` for a malformed string or, when validating, an unknown unit;
      `KeyError` for an unknown unit looked up without validation. */
  datatype RateError = IllegalRate(ratestr: string) | UnknownUnits(units: string)

  function Pow(b: nat, e: nat): nat {
    if e == 0 then 1 else b * Pow(b, e - 1)
  }

  function Times(a: nat, b: nat): nat { a * b }

  /** Length of the longest prefix of `s` made of digits. */
  function DigitRun(s: string): (d: nat)
    ensures d <= |s| && AllDigits(s[..d])
    ensures d < |s| ==> !IsDigit(s[d])
  {
    if s == [] || !IsDigit(s[0]) then 0
    else
      var d := 1 + DigitRun(s[1..]);
      assert s[..d] == [s[0]] + s[1..][..d - 1];
      d
  }

  lemma {:induction false} DigitRunOf(d: string, u: string)
    requires AllDigits(d)
    requires u == [] || !IsDigit(u[0])
    ensures DigitRun(d + u) == |d|
  {
    if d != [] {
      assert (d + u)[1..] == d[1..] + u;
      DigitRunOf(d[1..], u);
    }
  }

  /** The text the anchored pattern sees: `$` also matches before one final newline. */
  function Anchored(s: string): (t: string)
    ensures s == t || s == t + "\n"
  {
    if |s| > 0 && s[|s| - 1] == '\n' then s[..|s| - 1] else s
  }

  /** `^(\d+)([a-z]+)$` on `s`: its two groups when it matches. */
  function MatchRate(s: string): (m: Option<(string, string)>)
    ensures m.Some? ==>
      var (d, u) := m.value;
      d != [] && AllDigits(d) && u != [] && AllLower(u) && (s == d + u || s == d + u + "\n")
  {
    var t := Anchored(s);
    var d := DigitRun(t);
    if 0 < d < |t| && AllLower(t[d..]) then
      assert t == t[..d] + t[d..];
      Some((t[..d], t[d..]))
    else None
  }

  /** Every string of digits followed by lowercase letters, with or without a
      final newline, matches, and its groups are those two parts. */
  lemma MatchRateOf(d: string, u: string, newline: bool)
    requires d != [] && AllDigits(d) && u != [] && AllLower(u)
    ensures MatchRate(d + u + (if newline then "\n" else "")) == Some((d, u))
  {
    var s := d + u + (if newline then "\n" else "");
    assert Anchored(s) == d + u by {
      if newline {
        assert s[..|s| - 1] == d + u;
      } else {
        assert u[|u| - 1] != '\n';
      }
    }
    DigitRunOf(d, u);
    assert (d + u)[..|d|] == d && (d + u)[|d|..] == u;
  }

  /** `split_rate(ratestr, validate)`: the rate and its units. */
  function SplitRate(s: string, validate: bool): (r: Result<(nat, string), RateError>)
    ensures r.Failure? ==> r.error == IllegalRate(s)
    ensures r.Success? ==>
      r.value.1 != [] && AllLower(r.value.1) && (validate ==> r.value.1 in RATE_KOEFF)
  {
    match MatchRate(s)
    case None => Failure(IllegalRate(s))
    case Some((d, u)) =>
      if validate && u !in RATE_KOEFF then Failure(IllegalRate(s))
      else Success((ParseNat(d), u))
  }

  /** A rate written as `str(n) + units` splits back into `n` and the units,
      unless validation rejects the units. */
  lemma SplitRateOfText(n: nat, u: string, validate: bool)
    requires u != [] && AllLower(u)
    ensures SplitRate(NatToString(n) + u, validate)
      == if validate && u !in RATE_KOEFF then Failure(IllegalRate(NatToString(n) + u)) else Success((n, u))
  {
    MatchRateOf(NatToString(n), u, false);
    assert NatToString(n) + u + "" == NatToString(n) + u;
    ParseNatToString(n);
  }

  /** A string that is not digits followed by lowercase letters is refused,
      whatever `validate` says. */
  lemma SplitRateMalformed(s: string, validate: bool)
    requires MatchRate(s).None?
    ensures SplitRate(s, validate) == Failure(IllegalRate(s))
  {
  }

  /** `convert2bps(ratestr, validate)`: the rate in bits per second. */
  function Convert2Bps(s: string, validate: bool := true): (r: Result<nat, RateError>)
    ensures validate && r.Failure? ==> r.error == IllegalRate(s)
  {
    match SplitRate(s, validate)
    case Failure(e) => Failure(e)
    case Success((rate, units)) =>
      if units in RATE_KOEFF then Success(Times(rate, RATE_KOEFF[units])) else Failure(UnknownUnits(units))
  }

  /** `n` followed by a unit of the table is `n` times that unit's factor. */
  lemma Convert2BpsOfText(n: nat, u: string, validate: bool)
    requires u in RATE_KOEFF
    ensures Convert2Bps(NatToString(n) + u, validate) == Success(Times(n, RATE_KOEFF[u]))
  {
    assert u != [] && AllLower(u);
    SplitRateOfText(n, u, validate);
  }

  /** With validation, which `convert2bps` does by default, an unknown unit is a
      `ValueError`; without it, the table lookup fails with `KeyError`. */
  lemma Convert2BpsUnknownUnits(n: nat, u: string, validate: bool)
    requires u != [] && AllLower(u) && u !in RATE_KOEFF
    ensures Convert2Bps(NatToString(n) + u, validate)
      == if validate then Failure(IllegalRate(NatToString(n) + u)) else Failure(UnknownUnits(u))
  {
    SplitRateOfText(n, u, validate);
  }

  lemma PowValues()
    ensures Pow(1000, 1) == 1000 && Pow(1000, 2) == 1000 * 1000
    ensures Pow(1000, 3) == 1000 * 1000 * 1000 && Pow(1000, 4) == 1000 * 1000 * 1000 * 1000
    ensures Pow(1024, 1) == 1024 && Pow(1024, 2) == 1024 * 1024
    ensures Pow(1024, 3) == 1024 * 1024 * 1024 && Pow(1024, 4) == 1024 * 1024 * 1024 * 1024
  {
  }

  /** `bit` is one bit per second and `bps` eight. */
  lemma KoeffBase()
    ensures RATE_KOEFF["bit"] == 1 && RATE_KOEFF["bps"] == 8 * RATE_KOEFF["bit"]
  {
  }

  /** The decimal units: `k`, `m`, `g`, `t` are the powers of 1000, and each
      bytes unit is eight times its bits unit. */
  lemma KoeffSI()
    ensures forall i :: 0 <= i < 4 ==>
      var p := SI_PREFIXES[i];
      p + "bit" in RATE_KOEFF && p + "bps" in RATE_KOEFF
      && RATE_KOEFF[p + "bit"] == Pow(1000, i + 1) && RATE_KOEFF[p + "bps"] == 8 * RATE_KOEFF[p + "bit"]
  {
    PowValues();
    forall i | 0 <= i < 4
      ensures var p := SI_PREFIXES[i];
        p + "bit" in RATE_KOEFF && p + "bps" in RATE_KOEFF
        && RATE_KOEFF[p + "bit"] == Pow(1000, i + 1) && RATE_KOEFF[p + "bps"] == 8 * RATE_KOEFF[p + "bit"]
    {
      var p := SI_PREFIXES[i];
      if i == 0 {
        assert p + "bit" == "kbit" && p + "bps" == "kbps";
      } else if i == 1 {
        assert p + "bit" == "mbit" && p + "bps" == "mbps";
      } else if i == 2 {
        assert p + "bit" == "gbit" && p + "bps" == "gbps";
      } else {
        assert p + "bit" == "tbit" && p + "bps" == "tbps";
      }
    }
  }

  /** The binary units: `ki`, `mi`, `gi`, `ti` are the powers of 1024, and
      each bytes unit is eight times its bits unit. */
  lemma KoeffIEC()
    ensures forall i :: 0 <= i < 4 ==>
      var p := IEC_PREFIXES[i];
      p + "bit" in RATE_KOEFF && p + "bps" in RATE_KOEFF
      && RATE_KOEFF[p + "bit"] == Pow(1024, i + 1) && RATE_KOEFF[p + "bps"] == 8 * RATE_KOEFF[p + "bit"]
  {
    PowValues();
    forall i | 0 <= i < 4
      ensures var p := IEC_PREFIXES[i];
        p + "bit" in RATE_KOEFF && p + "bps" in RATE_KOEFF
        && RATE_KOEFF[p + "bit"] == Pow(1024, i + 1) && RATE_KOEFF[p + "bps"] == 8 * RATE_KOEFF[p + "bit"]
    {
      var p := IEC_PREFIXES[i];
      if i == 0 {
        assert p + "bit" == "kibit" && p + "bps" == "kibps";
      } else if i == 1 {
        assert p + "bit" == "mibit" && p + "bps" == "mibps";
      } else if i == 2 {
        assert p + "bit" == "gibit" && p + "bps" == "gibps";
      } else {
        assert p + "bit" == "tibit" && p + "bps" == "tibps";
      }
    }
  }
}
