/** String helpers standing for the Python built-ins the core relies on:
    `str(int)`, hex formatting, `int(digits)`, `str.split()`, `str.split(sep)`,
    `sep.join`, `str.replace`, `str.rstrip`, `in` on strings and `str.count`. */
module Text {

  // ---------------------------------------------------------------- characters

  predicate IsDigit(c: char) { '0' <= c <= '9' }

  predicate IsLower(c: char) { 'a' <= c <= 'z' }

  /** The characters Python's `str.isspace()` accepts, and so the separators of
      `str.split()` and `str.rstrip()`: the ASCII blanks and separators, NEL, the
      no-break spaces, the Unicode space separators and the line and paragraph
      separators. */
  predicate IsSpace(c: char) {
    c == ' ' || c == '\t' || c == '\n' || c == '\r' || c == '\U{000B}' || c == '\U{000C}'
    || c == '\U{001C}' || c == '\U{001D}' || c == '\U{001E}' || c == '\U{001F}'
    || c == '\U{0085}' || c == '\U{00A0}' || c == '\U{1680}' || ('\U{2000}' <= c <= '\U{200A}')
    || c == '\U{2028}' || c == '\U{2029}' || c == '\U{202F}' || c == '\U{205F}' || c == '\U{3000}'
  }

  predicate AllDigits(s: string) { forall i :: 0 <= i < |s| ==> IsDigit(s[i]) }

  predicate AllLower(s: string) { forall i :: 0 <= i < |s| ==> IsLower(s[i]) }

  predicate NoSpace(s: string) { forall i :: 0 <= i < |s| ==> !IsSpace(s[i]) }

  /** A non-empty run of non-whitespace characters: one token of `str.split()`. */
  predicate IsWord(s: string) { s != [] && NoSpace(s) }

  predicate Lacks(s: string, c: char) { forall i :: 0 <= i < |s| ==> s[i] != c }

  lemma LacksAppend(a: string, b: string, c: char)
    requires Lacks(a, c) && Lacks(b, c)
    ensures Lacks(a + b, c)
  {
  }

  // ---------------------------------------------------------------- decimal numbers

  function DigitChar(d: nat): (c: char)
    requires d < 10
    ensures IsDigit(c)
  {
    ('0' as int + d) as char
  }

  function DigitValue(c: char): (d: nat)
    requires IsDigit(c)
    ensures d < 10 && DigitChar(d) == c
  {
    c as int - '0' as int
  }

  /** `int(s)` for a string of ASCII digits. */
  function ParseNat(s: string): nat
    requires AllDigits(s)
  {
    if s == [] then 0 else 10 * ParseNat(s[..|s| - 1]) + DigitValue(s[|s| - 1])
  }

  /** `str(n)` for a natural number: decimal digits, no leading zero. */
  function NatToString(n: nat): (r: string)
    ensures |r| >= 1 && AllDigits(r)
    ensures |r| > 1 ==> r[0] != '0'
  {
    if n < 10 then [DigitChar(n)] else NatToString(n / 10) + [DigitChar(n % 10)]
  }

  lemma {:induction false} ParseNatToString(n: nat)
    ensures ParseNat(NatToString(n)) == n
  {
    var r := NatToString(n);
    if n >= 10 {
      assert r[..|r| - 1] == NatToString(n / 10);
      ParseNatToString(n / 10);
    }
  }

  lemma NatToStringInjective(m: nat, n: nat)
    requires NatToString(m) == NatToString(n)
    ensures m == n
  {
    ParseNatToString(m);
    ParseNatToString(n);
  }

  /** `str(i)` for any integer. */
  function IntToString(i: int): (r: string)
    ensures IsWord(r)
  {
    if i < 0 then "-" + NatToString(-i) else NatToString(i)
  }

  /** `int(s)` for an optional minus sign followed by ASCII digits. */
  function ParseInt(s: string): int
    requires s != [] && s[0] == '-' ==> AllDigits(s[1..])
    requires s == [] || s[0] != '-' ==> AllDigits(s)
  {
    if s != [] && s[0] == '-' then -(ParseNat(s[1..]) as int) else ParseNat(s)
  }

  lemma ParseIntToString(i: int)
    ensures ParseInt(IntToString(i)) == i
  {
    if i < 0 {
      ParseNatToString(-i);
      assert IntToString(i)[1..] == NatToString(-i);
    } else {
      ParseNatToString(i);
    }
  }

  // ---------------------------------------------------------------- hexadecimal

  function HexChar(d: nat): char
    requires d < 16
  {
    if d < 10 then DigitChar(d) else ('a' as int + (d - 10)) as char
  }

  function HexValue(c: char): int {
    if IsDigit(c) then c as int - '0' as int
    else if 'a' <= c <= 'f' then c as int - 'a' as int + 10
    else -1
  }

  /** Hex formatting of `n` for a natural number: lowercase digits, no leading zero. */
  function HexDigits(n: nat): (r: string)
    ensures |r| >= 1
  {
    if n < 16 then [HexChar(n)] else HexDigits(n / 16) + [HexChar(n % 16)]
  }

  /** Reads back a string of lowercase hex digits. */
  function ParseHex(s: string): int {
    if s == [] then 0 else 16 * ParseHex(s[..|s| - 1]) + HexValue(s[|s| - 1])
  }

  lemma {:induction false} ParseHexDigits(n: nat)
    ensures ParseHex(HexDigits(n)) == n
  {
    var r := HexDigits(n);
    if n >= 16 {
      assert r[..|r| - 1] == HexDigits(n / 16);
      ParseHexDigits(n / 16);
    }
  }

  /** Hex formatting of `i`: a negative value keeps its sign in front of the digits. */
  function HexString(i: int): string {
    if i < 0 then "-" + HexDigits(-i) else HexDigits(i)
  }

  // ---------------------------------------------------------------- whitespace split

  /** The longest prefix of `s` without whitespace. */
  function Word(s: string): (w: string)
    ensures |w| <= |s| && w == s[..|w|] && NoSpace(w)
    ensures |w| < |s| ==> IsSpace(s[|w|])
  {
    if s == [] || IsSpace(s[0]) then [] else [s[0]] + Word(s[1..])
  }

  /** Python's `s.split()`: the maximal runs of non-whitespace, in order. */
  function SplitWs(s: string): (r: seq<string>)
    ensures forall k :: 0 <= k < |r| ==> r[k] != [] && NoSpace(r[k])
    decreases |s|
  {
    if s == [] then []
    else if IsSpace(s[0]) then SplitWs(s[1..])
    else
      var w := Word(s);
      [w] + SplitWs(s[|w|..])
  }

  lemma {:induction false} WordBeforeSpace(a: string, b: string)
    requires b != [] && IsSpace(b[0])
    ensures Word(a + b) == Word(a)
  {
    if a != [] && !IsSpace(a[0]) {
      assert (a + b)[1..] == a[1..] + b;
      WordBeforeSpace(a[1..], b);
    } else if a == [] {
      assert a + b == b;
    }
  }

  lemma {:induction false} WordOfNoSpace(s: string)
    requires NoSpace(s)
    ensures Word(s) == s
  {
    if s != [] {
      WordOfNoSpace(s[1..]);
    }
  }

  /** A whitespace character separates: splitting distributes over it. */
  lemma {:induction false} SplitWsAtSpace(a: string, b: string)
    requires b != [] && IsSpace(b[0])
    ensures SplitWs(a + b) == SplitWs(a) + SplitWs(b)
    decreases |a|
  {
    if a == [] {
      assert a + b == b;
    } else if IsSpace(a[0]) {
      assert (a + b)[1..] == a[1..] + b;
      SplitWsAtSpace(a[1..], b);
    } else {
      var w := Word(a);
      WordBeforeSpace(a, b);
      assert (a + b)[|w|..] == a[|w|..] + b;
      SplitWsAtSpace(a[|w|..], b);
    }
  }

  lemma SplitWsOfWord(s: string)
    requires s != [] && NoSpace(s)
    ensures SplitWs(s) == [s]
  {
    WordOfNoSpace(s);
    assert s[|s|..] == [];
  }

  lemma {:induction false} SplitWsLeadingSpaces(a: string, b: string)
    requires forall i :: 0 <= i < |a| ==> IsSpace(a[i])
    ensures SplitWs(a + b) == SplitWs(b)
    decreases |a|
  {
    if a != [] {
      assert (a + b)[1..] == a[1..] + b;
      SplitWsLeadingSpaces(a[1..], b);
    } else {
      assert a + b == b;
    }
  }

  lemma SplitWsEmpty()
    ensures SplitWs("") == []
  {
  }

  /** The longest prefix of `s` without the character `c`. */
  function UpTo(s: string, c: char): (p: string)
    ensures |p| <= |s| && p == s[..|p|] && Lacks(p, c)
    ensures |p| < |s| ==> s[|p|] == c
  {
    if s == [] || s[0] == c then [] else [s[0]] + UpTo(s[1..], c)
  }

  /** The prefix stops at the first `c`. */
  lemma {:induction false} UpToOf(l: string, c: char, rest: string)
    requires Lacks(l, c)
    ensures UpTo(l + [c] + rest, c) == l
  {
    if l == [] {
      assert l + [c] + rest == [c] + rest;
    } else {
      assert (l + [c] + rest)[1..] == l[1..] + [c] + rest;
      UpToOf(l[1..], c, rest);
    }
  }

  /** A string that holds `c` has a quote-free prefix shorter than itself. */
  lemma {:induction false} UpToFound(s: string, c: char)
    requires CountChar(s, c) > 0
    ensures |UpTo(s, c)| < |s|
  {
    if s[0] != c {
      UpToFound(s[1..], c);
    }
  }

  // ---------------------------------------------------------------- join

  /** Python's `sep.join(parts)`. */
  function Join(sep: string, parts: seq<string>): string {
    if parts == [] then ""
    else if |parts| == 1 then parts[0]
    else parts[0] + sep + Join(sep, parts[1..])
  }

  /** Splitting a space-joined list of words gives the words back. */
  lemma {:induction false} SplitWsOfJoin(words: seq<string>)
    requires forall k :: 0 <= k < |words| ==> words[k] != [] && NoSpace(words[k])
    ensures SplitWs(Join(" ", words)) == words
  {
    if |words| == 1 {
      SplitWsOfWord(words[0]);
    } else if |words| > 1 {
      var rest := " " + Join(" ", words[1..]);
      assert Join(" ", words) == words[0] + rest;
      SplitWsAtSpace(words[0], rest);
      SplitWsOfWord(words[0]);
      assert rest == " " + Join(" ", words[1..]);
      SplitWsLeadingSpaces(" ", Join(" ", words[1..]));
      SplitWsOfJoin(words[1..]);
      assert [words[0]] + words[1..] == words;
    }
  }

  /** `Join(" ", parts).split()` is the concatenation of the parts' own splits. */
  function SplitWsAll(parts: seq<string>): seq<string> {
    if parts == [] then [] else SplitWs(parts[0]) + SplitWsAll(parts[1..])
  }

  /** A single space separates: `(a + " " + b).split() == a.split() + b.split()`. */
  lemma SplitWsSpace(a: string, b: string)
    ensures SplitWs(a + " " + b) == SplitWs(a) + SplitWs(b)
  {
    assert a + " " + b == a + (" " + b);
    SplitWsAtSpace(a, " " + b);
    SplitWsLeadingSpaces(" ", b);
  }

  lemma {:induction false} SplitWsOfJoinSpace(parts: seq<string>)
    ensures SplitWs(Join(" ", parts)) == SplitWsAll(parts)
  {
    if |parts| == 1 {
      assert SplitWsAll(parts) == SplitWs(parts[0]) + SplitWsAll([]);
    } else if |parts| > 1 {
      SplitWsOfJoinSpace(parts[1..]);
      SplitWsSpace(parts[0], Join(" ", parts[1..]));
    }
  }

  /** For parts that are single words, `SplitWsAll` gives the parts back. */
  lemma {:induction false} SplitWsAllOfWords(parts: seq<string>)
    requires forall k :: 0 <= k < |parts| ==> parts[k] != [] && NoSpace(parts[k])
    ensures SplitWsAll(parts) == parts
  {
    if parts != [] {
      SplitWsOfWord(parts[0]);
      SplitWsAllOfWords(parts[1..]);
      assert [parts[0]] + parts[1..] == parts;
    }
  }

  lemma {:induction false} SplitWsAllAppend(a: seq<string>, b: seq<string>)
    ensures SplitWsAll(a + b) == SplitWsAll(a) + SplitWsAll(b)
  {
    if a == [] {
      assert a + b == b;
    } else {
      assert (a + b)[1..] == a[1..] + b;
      SplitWsAllAppend(a[1..], b);
    }
  }

  // ---------------------------------------------------------------- split on a separator

  /** Python's `s.split(sep)` for a non-empty separator: left-to-right, non-overlapping. */
  function SplitSep(s: string, sep: string): (r: seq<string>)
    requires sep != []
    ensures |r| >= 1
    decreases |s|
  {
    if s == [] then [""]
    else if |sep| <= |s| && s[..|sep|] == sep then [""] + SplitSep(s[|sep|..], sep)
    else
      var r := SplitSep(s[1..], sep);
      [[s[0]] + r[0]] + r[1..]
  }

  /** Splitting on one character and joining back with it is the identity. */
  lemma {:induction false} JoinSplitSep(s: string, c: char)
    ensures Join([c], SplitSep(s, [c])) == s
    decreases |s|
  {
    if s != [] {
      JoinSplitSep(s[1..], c);
      var r := SplitSep(s[1..], [c]);
      if s[..1] == [c] {
        assert s[0] == c;
        if |r| == 1 {
          assert Join([c], [""] + r) == "" + [c] + r[0];
        } else {
          assert Join([c], [""] + r) == "" + [c] + Join([c], r);
        }
        assert s == [c] + s[1..];
      } else {
        assert s[0] != c;
        var r2 := [[s[0]] + r[0]] + r[1..];
        if |r| == 1 {
          assert Join([c], r2) == [s[0]] + r[0];
        } else {
          assert r2[1..] == r[1..];
          assert Join([c], r) == r[0] + [c] + Join([c], r[1..]);
          assert Join([c], r2) == [s[0]] + r[0] + [c] + Join([c], r[1..]);
        }
        assert s == [s[0]] + s[1..];
      }
    }
  }

  /** A piece without the separator character survives a split untouched. */
  lemma {:induction false} SplitSepNoSep(s: string, c: char)
    requires Lacks(s, c)
    ensures SplitSep(s, [c]) == [s]
    decreases |s|
  {
    if s != [] {
      assert s[..1] != [c] by { assert s[..1][0] == s[0]; }
      SplitSepNoSep(s[1..], c);
      assert [s[0]] + s[1..] == s;
    }
  }

  /** Splitting `a + [c] + b` on `c`, when `a` lacks `c`, peels `a` off the front. */
  lemma {:induction false} SplitSepCons(a: string, b: string, c: char)
    requires Lacks(a, c)
    ensures SplitSep(a + [c] + b, [c]) == [a] + SplitSep(b, [c])
    decreases |a|
  {
    var s := a + [c] + b;
    if a == [] {
      assert s == [c] + b;
      assert s[..1] == [c];
      assert s[1..] == b;
    } else {
      assert s[..1] != [c] by { assert s[..1][0] == a[0]; }
      assert s[1..] == a[1..] + [c] + b;
      SplitSepCons(a[1..], b, c);
      assert [a[0]] + a[1..] == a;
    }
  }

  /** Joining pieces without the separator and splitting again gives the pieces back. */
  lemma {:induction false} SplitSepOfJoin(parts: seq<string>, c: char)
    requires parts != []
    requires forall k :: 0 <= k < |parts| ==> Lacks(parts[k], c)
    ensures SplitSep(Join([c], parts), [c]) == parts
  {
    if |parts| == 1 {
      SplitSepNoSep(parts[0], c);
    } else {
      SplitSepOfJoin(parts[1..], c);
      SplitSepCons(parts[0], Join([c], parts[1..]), c);
      assert [parts[0]] + parts[1..] == parts;
    }
  }

  // ---------------------------------------------------------------- replace, strip, search

  /** Python's `s.replace(pat, rep)` for a non-empty `pat`. */
  function Replace(s: string, pat: string, rep: string): string
    requires pat != []
    decreases |s|
  {
    if s == [] then ""
    else if |pat| <= |s| && s[..|pat|] == pat then rep + Replace(s[|pat|..], pat, rep)
    else [s[0]] + Replace(s[1..], pat, rep)
  }

  /** Python's `s.rstrip(chars)`. */
  function RStrip(s: string, chars: set<char>): (r: string)
    ensures |r| <= |s| && r == s[..|r|]
    ensures r == [] || r[|r| - 1] !in chars
    ensures forall i :: |r| <= i < |s| ==> s[i] in chars
  {
    if s == [] || s[|s| - 1] !in chars then s else RStrip(s[..|s| - 1], chars)
  }

  /** Python's `s.rstrip()`: trailing whitespace removed. */
  function RStripWs(s: string): (r: string)
    ensures |r| <= |s| && r == s[..|r|]
    ensures r == [] || !IsSpace(r[|r| - 1])
    ensures forall i :: |r| <= i < |s| ==> IsSpace(s[i])
  {
    if s == [] || !IsSpace(s[|s| - 1]) then s else RStripWs(s[..|s| - 1])
  }

  /** True when `s.strip()` is non-empty, i.e. `s` has a non-whitespace character. */
  predicate HasNonSpace(s: string) { exists i :: 0 <= i < |s| && !IsSpace(s[i]) }

  predicate StartsWith(s: string, p: string) { |p| <= |s| && s[..|p|] == p }

  predicate EndsWith(s: string, p: string) { |p| <= |s| && s[|s| - |p|..] == p }

  lemma EndsWithAppend(a: string, p: string)
    ensures EndsWith(a + p, p)
  {
    assert (a + p)[|a|..] == p;
  }

  /** Python's `p in s` for strings. */
  predicate Contains(s: string, p: string)
    decreases |s|
  {
    StartsWith(s, p) || (s != [] && Contains(s[1..], p))
  }

  /** Python's `s.count(c)` for a single character. */
  function CountChar(s: string, c: char): nat {
    if s == [] then 0 else (if s[0] == c then 1 else 0) + CountChar(s[1..], c)
  }

  lemma {:induction false} CountCharZero(s: string, c: char)
    ensures CountChar(s, c) == 0 <==> Lacks(s, c)
  {
    if s != [] {
      CountCharZero(s[1..], c);
      assert Lacks(s, c) <==> s[0] != c && Lacks(s[1..], c);
    }
  }

  lemma {:induction false} CountCharAppend(a: string, b: string, c: char)
    ensures CountChar(a + b, c) == CountChar(a, c) + CountChar(b, c)
  {
    if a == [] {
      assert a + b == b;
    } else {
      assert (a + b)[1..] == a[1..] + b;
      CountCharAppend(a[1..], b, c);
    }
  }

  /** Lexicographic order on strings by code point, as Python compares `str`. */
  predicate StrLess(a: string, b: string) {
    if a == [] then b != []
    else if b == [] then false
    else if a[0] != b[0] then a[0] < b[0]
    else StrLess(a[1..], b[1..])
  }

  lemma {:induction false} StrLessTotal(a: string, b: string)
    ensures a == b || StrLess(a, b) || StrLess(b, a)
  {
    if a != [] && b != [] && a[0] == b[0] {
      StrLessTotal(a[1..], b[1..]);
      if a[1..] == b[1..] {
        assert a == [a[0]] + a[1..] && b == [b[0]] + b[1..];
      }
    }
  }

  lemma {:induction false} StrLessIrreflexive(a: string)
    ensures !StrLess(a, a)
  {
    if a != [] {
      StrLessIrreflexive(a[1..]);
    }
  }

  lemma {:induction false} StrLessAsymmetric(a: string, b: string)
    requires StrLess(a, b)
    ensures !StrLess(b, a)
  {
    if a != [] && b != [] && a[0] == b[0] {
      StrLessAsymmetric(a[1..], b[1..]);
    }
  }

  lemma {:induction false} StrLessTransitive(a: string, b: string, c: string)
    requires StrLess(a, b) && StrLess(b, c)
    ensures StrLess(a, c)
  {
    if a != [] && b != [] && c != [] && a[0] == b[0] && b[0] == c[0] {
      StrLessTransitive(a[1..], b[1..], c[1..]);
    }
  }
}
