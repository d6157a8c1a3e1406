/** The profile configuration parser: a text of `[name]` sections whose lines
    read like command lines with the leading `--` of each option left out. */
module ConfParser {
  import opened Wrappers
  import opened Text

  /** What `ConfigParser(input)` may be given: nothing, a `str`, an object with
      a `write` attribute (a stream, with the text reading it gives), or anything else. */
  datatype Input = NoInput | Str(s: string) | Writable(text: string) | OtherObject

  /** Where `parse` reads from. */
  datatype Source = Unset | FromFile(name: string) | FromStream(text: string)

  /** `TypeError`, `IllegalState`, the `ValueError` of reading a closed stream,
      the `IndexError` of a section without tokens, and `KeyError`. */
  datatype ConfError = TypeMismatch | IllegalState | ClosedStream | IndexError | KeyError(name: string)

  /** The type dispatch of the constructor. */
  function SourceOf(input: Input): (r: Result<Source, ConfError>)
    ensures r.Failure? <==> input.OtherObject?
    ensures r.Failure? ==> r.error == TypeMismatch
    ensures input.Str? ==> r == Success(FromFile(input.s))
    ensures input.Writable? ==> r == Success(FromStream(input.text))
  {
    match input
    case NoInput => Success(Unset)
    case Str(s) => Success(FromFile(s))
    case Writable(text) => Success(FromStream(text))
    case OtherObject => Failure(TypeMismatch)
  }

  // ---------------------------------------------------------------- tokens of a section

  /** The header separator: a `[` at the start of a line. */
  const SECTION_START: string := "\n["

  /** `[elm for elm in tokens if elm != '--']`. */
  function DropDashes(tokens: seq<string>): (r: seq<string>)
    ensures |r| <= |tokens|
    ensures forall k :: 0 <= k < |r| ==> r[k] != "--"
  {
    if tokens == [] then [] else (if tokens[0] == "--" then [] else [tokens[0]]) + DropDashes(tokens[1..])
  }

  lemma {:induction false} DropDashesAppend(a: seq<string>, b: seq<string>)
    ensures DropDashes(a + b) == DropDashes(a) + DropDashes(b)
  {
    if a != [] {
      assert (a + b)[1..] == a[1..] + b;
      DropDashesAppend(a[1..], b);
    } else {
      assert a + b == b;
    }
  }

  /** The tokens of one raw section: its newlines become ` --`, it is split on
      whitespace and the bare `--` tokens are dropped. */
  function SectionTokens(raw: string): seq<string> {
    DropDashes(SplitWs(Replace(raw, "\n", " --")))
  }

  /** The name a header token gives: trailing `]` stripped. */
  function SectionKey(token: string): string {
    RStrip(token, {']'})
  }

  /** `[p for p in pieces if p]`. */
  function NonEmpty(pieces: seq<string>): (r: seq<string>)
    ensures forall k :: 0 <= k < |r| ==> r[k] != []
  {
    if pieces == [] then [] else (if pieces[0] == [] then [] else [pieces[0]]) + NonEmpty(pieces[1..])
  }

  /** The raw sections of a profile text: a newline is put in front, the text is
      split at every line that starts with `[`, and empty pieces are dropped. */
  function RawSections(content: string): seq<string> {
    NonEmpty(SplitSep("\n" + content, SECTION_START))
  }

  /** The loop of `parse` over `raws`, with the sections filled so far: each raw
      section stores its tokens after the first under the key of the first, and one
      without tokens stops the loop with `IndexError`. */
  function FillSections(sections: map<string, seq<string>>, raws: seq<string>): Result<map<string, seq<string>>, ConfError>
    decreases |raws|
  {
    if raws == [] then Success(sections)
    else
      var rec := SectionTokens(raws[0]);
      if rec == [] then Failure(IndexError)
      else FillSections(sections[SectionKey(rec[0]) := rec[1..]], raws[1..])
  }

  /** What `parse` makes of the text it reads. */
  function ParseContent(content: string): Result<map<string, seq<string>>, ConfError> {
    FillSections(map[], RawSections(content))
  }

  // ---------------------------------------------------------------- the parser object

  class ConfigParser {
    const source: Source
    var sections: Option<map<string, seq<string>>>
    var streamClosed: bool

    constructor(source: Source)
      ensures this.source == source && sections == None && !streamClosed
    {
      this.source := source;
      sections := None;
      streamClosed := false;
    }

    /** `_ensure_stream_open` followed by `read()`: the text `parse` works on,
        where `fileText` is what the named file holds. A name is used only when
        it is non-empty. */
    function Opened(fileText: string): (r: Result<string, ConfError>)
      reads this
      ensures r.Success? <==> (source.FromFile? && source.name != []) || (source.FromStream? && !streamClosed)
      ensures r.Success? && source.FromStream? ==> r.value == source.text
      ensures r.Success? && source.FromFile? ==> r.value == fileText
    {
      match source
      case FromFile(name) => if name != [] then Success(fileText) else Failure(IllegalState)
      case FromStream(text) => if streamClosed then Failure(ClosedStream) else Success(text)
      case Unset => Failure(IllegalState)
    }

    /** `parse()`: reads the text, fills the section map and stores it. The
        `with` block closes a stream once it is read, whatever follows. */
    method Parse(fileText: string) returns (r: Result<(), ConfError>)
      modifies this
      ensures old(Opened(fileText)).Failure? ==>
        r == Failure(old(Opened(fileText)).error) && sections == old(sections) && streamClosed == old(streamClosed)
      ensures old(Opened(fileText)).Success? ==>
        var parsed := ParseContent(old(Opened(fileText)).value);
        streamClosed == (old(streamClosed) || source.FromStream?)
        && (parsed.Failure? ==> r == Failure(parsed.error) && sections == old(sections))
        && (parsed.Success? ==> r == Success(()) && sections == Some(parsed.value))
    {
      var content := Opened(fileText);
      if content.Failure? {
        return Failure(content.error);
      }
      if source.FromStream? {
        streamClosed := true;
      }
      var raws := RawSections(content.value);
      var filled: map<string, seq<string>> := map[];
      for i := 0 to |raws|
        invariant FillSections(map[], raws) == FillSections(filled, raws[i..])
      {
        assert raws[i..][1..] == raws[i + 1..];
        var rec := SectionTokens(raws[i]);
        if rec == [] {
          return Failure(IndexError);
        }
        filled := filled[SectionKey(rec[0]) := rec[1..]];
      }
      sections := Some(filled);
      r := Success(());
    }

    /** `section(name)`: the tokens stored under `name`. */
    function Section(name: string): (r: Result<seq<string>, ConfError>)
      reads this
      ensures r.Failure? <==> sections.None? || sections.value == map[] || name !in sections.value
      ensures r.Failure? ==>
        r.error == if sections.None? || sections.value == map[] then IllegalState else KeyError(name)
      ensures r.Success? ==> r.value == sections.value[name]
    {
      if sections.None? || sections.value == map[] then Failure(IllegalState)
      else if name in sections.value then Success(sections.value[name])
      else Failure(KeyError(name))
    }
  }

  /** `ConfigParser(input)`: a parser, or `TypeError` for an input that is neither
      a `str` nor writable. */
  method NewConfigParser(input: Input) returns (r: Result<ConfigParser, ConfError>)
    ensures r.Failure? <==> input.OtherObject?
    ensures r.Success? ==> fresh(r.value) && r.value.source == SourceOf(input).value && r.value.sections.None?
  {
    var source := SourceOf(input);
    if source.Failure? {
      return Failure(source.error);
    }
    var parser := new ConfigParser(source.value);
    r := Success(parser);
  }

  // ---------------------------------------------------------------- properties

  /** An empty profile text leaves one raw section without tokens: `IndexError`. */
  lemma ParseEmpty()
    ensures ParseContent("") == Failure(IndexError)
  {
    assert "\n" + "" == "\n";
    assert SplitSep("\n", SECTION_START) == ["\n"] by {
      assert SplitSep("\n"[1..], SECTION_START) == [""];
    }
    assert Replace("\n", "\n", " --") == " --" by {
      assert "\n"[1..] == "";
    }
    assert SplitWs(" --") == ["--"] by {
      assert " --" == "" + " " + "--";
      SplitWsSpace("", "--");
      SplitWsOfWord("--");
    }
  }

  /** A later section with the same key overwrites the earlier one: filling is
      map update in order. */
  lemma {:induction false} FillSectionsLast(sections: map<string, seq<string>>, raws: seq<string>, raw: string)
    requires FillSections(sections, raws).Success?
    requires SectionTokens(raw) != []
    ensures var rec := SectionTokens(raw);
      FillSections(sections, raws + [raw]) == Success(FillSections(sections, raws).value[SectionKey(rec[0]) := rec[1..]])
    decreases |raws|
  {
    if raws == [] {
      assert raws + [raw] == [raw];
    } else {
      var rec := SectionTokens(raws[0]);
      assert (raws + [raw])[1..] == raws[1..] + [raw];
      FillSectionsLast(sections[SectionKey(rec[0]) := rec[1..]], raws[1..], raw);
    }
  }

  /** A raw section fails exactly when it holds no token. */
  lemma {:induction false} FillSectionsFails(sections: map<string, seq<string>>, raws: seq<string>)
    ensures FillSections(sections, raws).Failure? <==> exists k :: 0 <= k < |raws| && SectionTokens(raws[k]) == []
    decreases |raws|
  {
    if raws != [] {
      var rec := SectionTokens(raws[0]);
      if rec != [] {
        FillSectionsFails(sections[SectionKey(rec[0]) := rec[1..]], raws[1..]);
        if exists k :: 0 <= k < |raws| && SectionTokens(raws[k]) == [] {
          var k :| 0 <= k < |raws| && SectionTokens(raws[k]) == [];
          assert k != 0;
          assert SectionTokens(raws[1..][k - 1]) == [];
        }
        if exists k :: 0 <= k < |raws[1..]| && SectionTokens(raws[1..][k]) == [] {
          var k :| 0 <= k < |raws[1..]| && SectionTokens(raws[1..][k]) == [];
          assert SectionTokens(raws[k + 1]) == [];
        }
      }
    }
  }

  // ---------------------------------------------------------------- lines of a section

  /** The arguments one line after the header contributes. */
  function LineArgs(line: string): seq<string> {
    DropDashes(SplitWs("--" + line))
  }

  function LinesArgs(lines: seq<string>): seq<string> {
    if lines == [] then [] else LineArgs(lines[0]) + LinesArgs(lines[1..])
  }

  /** A line starting with a token gives that token as `--token`, then the rest of
      its tokens unchanged (but for bare `--`). */
  lemma LineArgsOption(line: string)
    requires line != [] && !IsSpace(line[0])
    ensures var w := Word(line);
      LineArgs(line) == ["--" + w] + DropDashes(SplitWs(line[|w|..]))
  {
    var w := Word(line);
    WordWithPrefix("--", line);
    assert ("--" + line)[|"--" + w|..] == line[|w|..];
    assert "--" + w != "--" by {
      assert |w| > 0;
    }
    DropDashesAppend(["--" + w], SplitWs(line[|w|..]));
  }

  /** A blank line or one starting with whitespace gives its tokens without any
      `--` prefix: it continues the previous line. */
  lemma LineArgsContinuation(line: string)
    requires line == [] || IsSpace(line[0])
    ensures LineArgs(line) == DropDashes(SplitWs(line))
  {
    if line == [] {
      assert "--" + line == "--";
      SplitWsOfWord("--");
    } else {
      SplitWsAtSpace("--", line);
      SplitWsOfWord("--");
    }
    DropDashesAppend(["--"], SplitWs(line));
  }

  lemma {:induction false} WordWithPrefix(p: string, s: string)
    requires NoSpace(p)
    ensures Word(p + s) == p + Word(s)
  {
    if p != [] {
      assert (p + s)[1..] == p[1..] + s;
      WordWithPrefix(p[1..], s);
      assert [p[0]] + (p[1..] + Word(s)) == p + Word(s);
    } else {
      assert p + s == s;
    }
  }

  /** A piece without newlines is left alone by the newline replacement. */
  lemma {:induction false} ReplaceNone(a: string, rep: string)
    requires Lacks(a, '\n')
    ensures Replace(a, "\n", rep) == a
  {
    if a != [] {
      assert a[..1] != "\n" by { assert a[..1][0] == a[0]; }
      ReplaceNone(a[1..], rep);
      assert [a[0]] + a[1..] == a;
    }
  }

  lemma {:induction false} ReplaceCons(a: string, b: string, rep: string)
    requires Lacks(a, '\n')
    ensures Replace(a + "\n" + b, "\n", rep) == a + rep + Replace(b, "\n", rep)
  {
    var s := a + "\n" + b;
    if a == [] {
      assert s == "\n" + b && s[..1] == "\n" && s[1..] == b;
    } else {
      assert s[..1] != "\n" by { assert s[..1][0] == a[0]; }
      assert s[1..] == a[1..] + "\n" + b;
      ReplaceCons(a[1..], b, rep);
      assert [a[0]] + (a[1..] + rep + Replace(b, "\n", rep)) == a + rep + Replace(b, "\n", rep);
    }
  }

  /** Replacing the newlines of newline-joined lines joins them with the replacement. */
  lemma {:induction false} ReplaceJoin(lines: seq<string>, rep: string)
    requires forall k :: 0 <= k < |lines| ==> Lacks(lines[k], '\n')
    ensures Replace(Join("\n", lines), "\n", rep) == Join(rep, lines)
  {
    if |lines| == 1 {
      ReplaceNone(lines[0], rep);
    } else if |lines| > 1 {
      ReplaceCons(lines[0], Join("\n", lines[1..]), rep);
      ReplaceJoin(lines[1..], rep);
    }
  }

  function Dashed(lines: seq<string>): (r: seq<string>)
    ensures |r| == |lines|
  {
    if lines == [] then [] else ["--" + lines[0]] + Dashed(lines[1..])
  }

  lemma {:induction false} DashJoin(lines: seq<string>)
    requires lines != []
    ensures "--" + Join(" --", lines) == Join(" ", Dashed(lines))
  {
    if |lines| > 1 {
      DashJoin(lines[1..]);
      assert Dashed(lines)[1..] == Dashed(lines[1..]);
      assert "--" + (lines[0] + " --" + Join(" --", lines[1..]))
        == ("--" + lines[0]) + " " + ("--" + Join(" --", lines[1..]));
    }
  }

  lemma {:induction false} DashedArgs(lines: seq<string>)
    ensures DropDashes(SplitWsAll(Dashed(lines))) == LinesArgs(lines)
  {
    if lines != [] {
      DashedArgs(lines[1..]);
      assert Dashed(lines)[1..] == Dashed(lines[1..]);
      DropDashesAppend(SplitWs("--" + lines[0]), SplitWsAll(Dashed(lines[1..])));
    }
  }

  lemma DashJoinCons(header: string, lines: seq<string>)
    requires lines != []
    ensures Join(" --", [header] + lines) == header + " " + Join(" ", Dashed(lines))
  {
    DashJoin(lines);
    assert ([header] + lines)[1..] == lines;
    assert header + " --" + Join(" --", lines) == header + " " + ("--" + Join(" --", lines));
  }

  /** The tokens of a raw section made of a header line and further lines: the
      header's tokens, then what each line contributes, in order. */
  lemma SectionTokensOfLines(header: string, lines: seq<string>)
    requires Lacks(header, '\n')
    requires forall k :: 0 <= k < |lines| ==> Lacks(lines[k], '\n')
    ensures SectionTokens(Join("\n", [header] + lines)) == DropDashes(SplitWs(header)) + LinesArgs(lines)
  {
    var all := [header] + lines;
    assert Replace(Join("\n", all), "\n", " --") == Join(" --", all) by {
      forall k | 0 <= k < |all| ensures Lacks(all[k], '\n') {
        if k > 0 { assert all[k] == lines[k - 1]; }
      }
      ReplaceJoin(all, " --");
    }
    if lines == [] {
      assert Join(" --", all) == header;
      assert DropDashes(SplitWs(header)) + LinesArgs(lines) == DropDashes(SplitWs(header));
    } else {
      var tail := Dashed(lines);
      assert SplitWs(Join(" --", all)) == SplitWs(header) + SplitWsAll(tail) by {
        DashJoinCons(header, lines);
        SplitWsSpace(header, Join(" ", tail));
        SplitWsOfJoinSpace(tail);
      }
      assert DropDashes(SplitWs(header) + SplitWsAll(tail)) == DropDashes(SplitWs(header)) + LinesArgs(lines) by {
        DropDashesAppend(SplitWs(header), SplitWsAll(tail));
        DashedArgs(lines);
      }
    }
  }

  /** The header `[name]` names the section `name`, for a name that is one token
      not ending in `]`. */
  lemma HeaderKey(name: string)
    requires IsWord(name) && name[|name| - 1] != ']'
    ensures DropDashes(SplitWs(name + "]")) == [name + "]"]
    ensures SectionKey(name + "]") == name
  {
    SplitWsOfWord(name + "]");
    assert (name + "]")[..|name|] == name;
    assert name + "]" != "--";
  }

  // ---------------------------------------------------------------- splitting into sections

  /** No line of `s` but possibly the first starts with `[`. */
  predicate NoHeaderStart(s: string) {
    |s| < 2 || (s[..2] != SECTION_START && NoHeaderStart(s[1..]))
  }

  lemma {:induction false} SplitSepNoHeader(s: string)
    requires NoHeaderStart(s)
    ensures SplitSep(s, SECTION_START) == [s]
  {
    if s != [] {
      SplitSepNoHeader(s[1..]);
      assert [s[0]] + s[1..] == s;
    }
  }

  lemma {:induction false} SplitSepHeaderCons(a: string, b: string)
    requires NoHeaderStart(a)
    ensures SplitSep(a + SECTION_START + b, SECTION_START) == [a] + SplitSep(b, SECTION_START)
  {
    var s := a + SECTION_START + b;
    if a == [] {
      assert s == SECTION_START + b && s[..2] == SECTION_START && s[2..] == b;
    } else {
      assert s[..2] != SECTION_START by {
        if |a| == 1 {
          assert s[1] == '\n';
        } else {
          assert s[..2] == a[..2];
        }
      }
      assert s[1..] == a[1..] + SECTION_START + b;
      SplitSepHeaderCons(a[1..], b);
      assert [a[0]] + a[1..] == a;
    }
  }

  lemma {:induction false} SplitSepOfSections(secs: seq<string>)
    requires secs != []
    requires forall k :: 0 <= k < |secs| ==> NoHeaderStart(secs[k])
    ensures SplitSep(Join(SECTION_START, secs), SECTION_START) == secs
  {
    if |secs| == 1 {
      SplitSepNoHeader(secs[0]);
    } else {
      SplitSepOfSections(secs[1..]);
      SplitSepHeaderCons(secs[0], Join(SECTION_START, secs[1..]));
      assert [secs[0]] + secs[1..] == secs;
    }
  }

  lemma {:induction false} NonEmptyAll(pieces: seq<string>)
    requires forall k :: 0 <= k < |pieces| ==> pieces[k] != []
    ensures NonEmpty(pieces) == pieces
  {
    if pieces != [] {
      NonEmptyAll(pieces[1..]);
      assert [pieces[0]] + pieces[1..] == pieces;
    }
  }

  lemma SplitProfile(secs: seq<string>)
    requires secs != []
    requires forall k :: 0 <= k < |secs| ==> NoHeaderStart(secs[k])
    ensures SplitSep("\n" + ("[" + Join(SECTION_START, secs)), SECTION_START) == [""] + secs
  {
    var j := Join(SECTION_START, secs);
    assert "\n" + ("[" + j) == "" + SECTION_START + j;
    SplitSepHeaderCons("", j);
    SplitSepOfSections(secs);
  }

  /** A profile text `[s1\n[s2…` whose sections are non-empty and contain no other
      line starting with `[` is cut into exactly those sections. */
  lemma RawSectionsOfProfile(secs: seq<string>)
    requires secs != []
    requires forall k :: 0 <= k < |secs| ==> secs[k] != [] && NoHeaderStart(secs[k])
    ensures RawSections("[" + Join(SECTION_START, secs)) == secs
  {
    SplitProfile(secs);
    assert ([""] + secs)[1..] == secs;
    NonEmptyAll(secs);
  }

  lemma ParseSingle(sec: string)
    requires sec != [] && NoHeaderStart(sec) && SectionTokens(sec) != []
    ensures var rec := SectionTokens(sec);
      ParseContent("[" + sec) == Success(map[SectionKey(rec[0]) := rec[1..]])
  {
    assert RawSections("[" + sec) == [sec] by {
      assert Join(SECTION_START, [sec]) == sec;
      RawSectionsOfProfile([sec]);
    }
    var rec := SectionTokens(sec);
    assert [sec][1..] == [];
    assert FillSections(map[], [sec]) == FillSections(map[][SectionKey(rec[0]) := rec[1..]], []);
  }

  lemma HeaderLine(name: string, lines: seq<string>)
    requires IsWord(name) && name[|name| - 1] != ']'
    requires forall k :: 0 <= k < |lines| ==> Lacks(lines[k], '\n')
    ensures var rec := SectionTokens(Join("\n", [name + "]"] + lines));
      rec != [] && SectionKey(rec[0]) == name && rec[1..] == LinesArgs(lines)
  {
    assert Lacks(name + "]", '\n') by {
      assert forall i :: 0 <= i < |name| ==> (name + "]")[i] == name[i];
    }
    SectionTokensOfLines(name + "]", lines);
    HeaderKey(name);
  }

  /** A profile of one section `[name]` followed by lines parses to that name
      mapped to what the lines contribute. */
  lemma ParseOneSection(name: string, lines: seq<string>)
    requires IsWord(name) && name[|name| - 1] != ']'
    requires forall k :: 0 <= k < |lines| ==> Lacks(lines[k], '\n')
    requires NoHeaderStart(Join("\n", [name + "]"] + lines))
    ensures ParseContent("[" + Join("\n", [name + "]"] + lines)) == Success(map[name := LinesArgs(lines)])
  {
    var sec := Join("\n", [name + "]"] + lines);
    HeaderLine(name, lines);
    assert sec != [] by {
      if lines != [] {
        assert |sec| >= |name + "]"|;
      }
    }
    ParseSingle(sec);
  }
}
