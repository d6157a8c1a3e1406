/** Branch specifications `proto[:porttype]:range[:rate][:loss]`: the two
    parsers of the simulation plugin, `parse_branch` (port types `sport` and
    `dport` only) and `BranchParser` (also the direction-relative aliases
    `lport` and `rport`). Both follow one anchored regular expression, written
    here as a match on the colon-separated fields. */
module Branches {
  import opened Wrappers
  import opened Text
  import Rates

  const PROTOCOLS: seq<string> := ["tcp", "udp"]
  /** The port types of `parse_branch`. */
  const PORT_TYPES: seq<string> := ["sport", "dport"]
  /** The port types of `BranchParser`. */
  const ALIASED_PORT_TYPES: seq<string> := ["sport", "dport", "lport", "rport"]

  /** The five fields of a branch, each the matched text without its `:`;
      absent optional fields are `None`. */
  datatype Branch = Branch(protocol: string, porttype: Option<string>, range: string,
                           rate: Option<string>, loss: Option<string>)

  /** Every `ParsingError` of the two parsers, and the `TypeError` of
      `BranchParser` when the direction is not exactly one of upload and
      download. */
  datatype BranchError = NoMatch(branchStr: string) | MissingPortType(branchStr: string)
                       | NoRateOrLoss(branchStr: string) | DirectionError

  // ---------------------------------------------------------------- the field grammar

  /** `\d{1,5}`: a port. */
  predicate IsPortNum(s: string) { 1 <= |s| <= 5 && AllDigits(s) }

  /** `\d{1,5}\-\d{1,5}`: a port range. */
  predicate IsPortSpan(s: string) {
    var parts := SplitSep(s, "-");
    |parts| == 2 && IsPortNum(parts[0]) && IsPortNum(parts[1])
  }

  /** `all|\d{1,5}\-\d{1,5}|\d{1,5}`. */
  predicate IsRange(s: string) { s == "all" || IsPortNum(s) || IsPortSpan(s) }

  /** `\d+[a-z]{3,4}`: a rate. */
  predicate IsRate(s: string) {
    var d := Rates.DigitRun(s);
    1 <= d && 3 <= |s| - d <= 4 && AllLower(s[d..])
  }

  /** `\d{1,3}%`: a loss percentage. */
  predicate IsLoss(s: string) { 2 <= |s| <= 4 && s[|s| - 1] == '%' && AllDigits(s[..|s| - 1]) }

  /** The fields a branch is written with, in order. */
  function OptField(o: Option<string>): seq<string> {
    if o.Some? then [o.value] else []
  }

  function Fields(b: Branch): seq<string> {
    [b.protocol] + OptField(b.porttype) + [b.range] + OptField(b.rate) + OptField(b.loss)
  }

  /** The text of a branch: its fields joined with `:`. */
  function Render(b: Branch): string {
    Join(":", Fields(b))
  }

  /** Each field matches its group of the expression, the port type being one
      of `portTypes`. */
  predicate Grammatical(b: Branch, portTypes: seq<string>) {
    && b.protocol in PROTOCOLS
    && (b.porttype.Some? ==> b.porttype.value in portTypes)
    && IsRange(b.range)
    && (b.rate.Some? ==> IsRate(b.rate.value))
    && (b.loss.Some? ==> IsLoss(b.loss.value))
  }

  /** The optional rate and loss groups after the range. */
  function MatchTail(f: seq<string>): (r: Option<(Option<string>, Option<string>)>)
    ensures r.Some? ==>
      var (rate, loss) := r.value;
      && (rate.Some? ==> IsRate(rate.value)) && (loss.Some? ==> IsLoss(loss.value))
      && f == OptField(rate) + OptField(loss)
  {
    if f == [] then Some((None, None))
    else if |f| == 1 then
      if IsRate(f[0]) then Some((Some(f[0]), None))
      else if IsLoss(f[0]) then Some((None, Some(f[0])))
      else None
    else if |f| == 2 && IsRate(f[0]) && IsLoss(f[1]) then Some((Some(f[0]), Some(f[1])))
    else None
  }

  /** The expression applied to the colon-separated fields of the text. */
  function MatchFields(f: seq<string>, portTypes: seq<string>): (r: Option<Branch>)
    ensures r.Some? ==> Grammatical(r.value, portTypes) && Fields(r.value) == f
  {
    if |f| < 2 || f[0] !in PROTOCOLS then None
    else
      var pt := if f[1] in portTypes then Some(f[1]) else None;
      var rest := f[1 + |OptField(pt)|..];
      if rest == [] || !IsRange(rest[0]) then None
      else
        match MatchTail(rest[1..])
        case None => None
        case Some((rate, loss)) =>
          var b := Branch(f[0], pt, rest[0], rate, loss);
          assert OptField(pt) == f[1..1 + |OptField(pt)|];
          Reassemble(f, |OptField(pt)|);
          Some(b)
  }

  /** A sequence is its head, a middle, the element after it and the rest. */
  lemma Reassemble<T>(f: seq<T>, k: nat)
    requires 1 + k < |f|
    ensures f == [f[0]] + f[1..1 + k] + [f[1 + k]] + f[2 + k..]
  {
  }

  /** `regex.match(s)`: `$` also matches before one final newline. */
  function MatchBranch(s: string, portTypes: seq<string>): (r: Option<Branch>)
    ensures r.Some? ==> Grammatical(r.value, portTypes) && Rates.Anchored(s) == Render(r.value)
  {
    var t := Rates.Anchored(s);
    var f := SplitSep(t, ":");
    var r := MatchFields(f, portTypes);
    if r.Some? then
      assert Render(r.value) == t by { JoinSplitSep(t, ':'); }
      r
    else r
  }

  // ---------------------------------------------------------------- the grammar's tokens

  /** A field never holds the separator or a newline. */
  predicate Token(s: string) { s != [] && Lacks(s, ':') && Lacks(s, '\n') }

  predicate Plain(s: string) {
    forall i :: 0 <= i < |s| ==> IsDigit(s[i]) || IsLower(s[i]) || s[i] == '-' || s[i] == '%'
  }

  lemma PortSpanPlain(s: string)
    requires IsPortSpan(s)
    ensures Plain(s)
  {
    var parts := SplitSep(s, "-");
    JoinSplitSep(s, '-');
    assert s == parts[0] + "-" + parts[1];
  }

  lemma RatePlain(s: string)
    requires IsRate(s)
    ensures Plain(s)
  {
    var d := Rates.DigitRun(s);
    forall i | 0 <= i < |s|
      ensures IsDigit(s[i]) || IsLower(s[i])
    {
      if i < d {
        assert s[i] == s[..d][i];
      } else {
        assert s[i] == s[d..][i - d];
      }
    }
  }

  lemma LossPlain(s: string)
    requires IsLoss(s)
    ensures Plain(s)
  {
    forall i | 0 <= i < |s| - 1
      ensures IsDigit(s[i])
    {
      assert s[i] == s[..|s| - 1][i];
    }
  }

  /** A rate ends with a letter and a loss with `%`, so no field is both. */
  lemma LossNotRate(s: string)
    requires IsLoss(s)
    ensures !IsRate(s)
  {
  }

  /** A lowercase word other than `all` is not a range. */
  lemma WordNotRange(s: string)
    requires s != [] && AllLower(s) && s != "all"
    ensures !IsRange(s)
  {
    assert !IsDigit(s[0]);
    SplitSepNoSep(s, '-');
  }

  /** Port type names: tokens, none of them a range. */
  predicate PortNames(portTypes: seq<string>) {
    forall k :: 0 <= k < |portTypes| ==> Token(portTypes[k]) && !IsRange(portTypes[k])
  }

  lemma PortNameOk(p: string)
    requires p in ALIASED_PORT_TYPES
    ensures Token(p) && !IsRange(p)
  {
    assert p == "sport" || p == "dport" || p == "lport" || p == "rport";
    assert AllLower(p) && Lacks(p, ':') && Lacks(p, '\n');
    WordNotRange(p);
  }

  lemma PortNamesHold()
    ensures PortNames(PORT_TYPES) && PortNames(ALIASED_PORT_TYPES)
  {
    forall p | p in ALIASED_PORT_TYPES
      ensures Token(p) && !IsRange(p)
    {
      PortNameOk(p);
    }
  }

  lemma GrammaticalTokens(b: Branch, portTypes: seq<string>)
    requires Grammatical(b, portTypes) && PortNames(portTypes)
    ensures forall k :: 0 <= k < |Fields(b)| ==> Token(Fields(b)[k])
  {
    if IsPortSpan(b.range) {
      PortSpanPlain(b.range);
    }
    if b.rate.Some? {
      RatePlain(b.rate.value);
    }
    if b.loss.Some? {
      LossPlain(b.loss.value);
    }
    assert b.porttype.Some? ==> Token(b.porttype.value);
  }

  lemma {:induction false} JoinLacks(parts: seq<string>, c: char)
    requires c != ':'
    requires forall k :: 0 <= k < |parts| ==> Lacks(parts[k], c)
    ensures Lacks(Join(":", parts), c)
  {
    if |parts| > 1 {
      JoinLacks(parts[1..], c);
      LacksAppend(parts[0], ":", c);
      LacksAppend(parts[0] + ":", Join(":", parts[1..]), c);
    }
  }

  /** The field match gives back any grammatical branch from its fields. */
  lemma MatchFieldsOfFields(b: Branch, portTypes: seq<string>)
    requires Grammatical(b, portTypes) && PortNames(portTypes)
    ensures MatchFields(Fields(b), portTypes) == Some(b)
  {
    var f := Fields(b);
    var tail := OptField(b.rate) + OptField(b.loss);
    if b.porttype.Some? {
      assert f[1] == b.porttype.value;
      assert f[2..] == [b.range] + tail;
    } else {
      assert b.range !in portTypes;
      assert f[1..] == [b.range] + tail;
    }
    if b.rate.None? && b.loss.Some? {
      LossNotRate(b.loss.value);
    }
    assert MatchTail(tail) == Some((b.rate, b.loss));
  }

  /** Completeness of the match: the text of a grammatical branch, with or
      without a final newline, matches, and its groups are the branch. */
  lemma MatchBranchOfRender(b: Branch, portTypes: seq<string>, newline: bool)
    requires Grammatical(b, portTypes) && PortNames(portTypes)
    ensures MatchBranch(Render(b) + (if newline then "\n" else ""), portTypes) == Some(b)
  {
    var t := Render(b);
    var s := t + (if newline then "\n" else "");
    GrammaticalTokens(b, portTypes);
    JoinLacks(Fields(b), '\n');
    assert Rates.Anchored(s) == t by {
      if newline {
        assert s[..|s| - 1] == t;
      } else {
        assert s == t;
        assert t[|t| - 1] != '\n';
      }
    }
    SplitSepOfJoin(Fields(b), ':');
    MatchFieldsOfFields(b, portTypes);
  }

  // ---------------------------------------------------------------- parse_branch

  /** The two checks both parsers make after a match: a port type is
      required unless the range is `all`, and a rate or a loss is required. */
  function Checked(s: string, m: Branch): (r: Result<Branch, BranchError>)
    ensures r.Success? <==> (m.porttype.Some? || m.range == "all") && (m.rate.Some? || m.loss.Some?)
    ensures r.Success? ==> r.value == m
  {
    if m.porttype.None? && m.range != "all" then Failure(MissingPortType(s))
    else if m.rate.None? && m.loss.None? then Failure(NoRateOrLoss(s))
    else Success(m)
  }

  /** A branch both parsers accept: grammatical, with a port type unless the
      range is `all`, and with a rate or a loss. */
  predicate Acceptable(b: Branch, portTypes: seq<string>) {
    Grammatical(b, portTypes) && (b.porttype.Some? || b.range == "all") && (b.rate.Some? || b.loss.Some?)
  }

  /** `parse_branch(branch_str)`. */
  function ParseBranch(s: string): (r: Result<Branch, BranchError>)
    ensures r.Success? ==> Acceptable(r.value, PORT_TYPES) && Rates.Anchored(s) == Render(r.value)
    ensures r.Failure? ==> r.error in {NoMatch(s), MissingPortType(s), NoRateOrLoss(s)}
  {
    match MatchBranch(s, PORT_TYPES)
    case None => Failure(NoMatch(s))
    case Some(m) => Checked(s, m)
  }

  /** Round trip: the text of an acceptable branch parses back to it. */
  lemma ParseBranchOfRender(b: Branch, newline: bool)
    requires Acceptable(b, PORT_TYPES)
    ensures ParseBranch(Render(b) + (if newline then "\n" else "")) == Success(b)
  {
    PortNamesHold();
    MatchBranchOfRender(b, PORT_TYPES, newline);
  }

  /** The three errors: a text outside the grammar, a grammatical branch
      missing its port type, one with neither rate nor loss. */
  lemma ParseBranchErrors(b: Branch)
    requires Grammatical(b, PORT_TYPES)
    ensures b.porttype.None? && b.range != "all" ==> ParseBranch(Render(b)) == Failure(MissingPortType(Render(b)))
    ensures (b.porttype.Some? || b.range == "all") && b.rate.None? && b.loss.None? ==>
      ParseBranch(Render(b)) == Failure(NoRateOrLoss(Render(b)))
  {
    PortNamesHold();
    MatchBranchOfRender(b, PORT_TYPES, false);
    assert Render(b) + "" == Render(b);
  }

  // ---------------------------------------------------------------- BranchParser

  /** `_deduce_port_type`: `lport` is the source port on upload and the
      destination port otherwise; `rport` the reverse. */
  function DeducePortType(porttype: Option<string>, upload: bool): (r: Option<string>)
    requires porttype.Some? ==> porttype.value in ALIASED_PORT_TYPES
    ensures r.None? <==> porttype.None?
    ensures r.Some? ==> r.value in PORT_TYPES
  {
    match porttype
    case None => None
    case Some(p) =>
      if p == "sport" || p == "dport" then Some(p)
      else if p == "lport" then (if upload then Some("sport") else Some("dport"))
      else (if upload then Some("dport") else Some("sport"))
  }

  /** The aliases name opposite ends, and swapping the direction swaps them. */
  lemma DeducePortTypeAliases(upload: bool)
    ensures DeducePortType(Some("lport"), upload) != DeducePortType(Some("rport"), upload)
    ensures DeducePortType(Some("lport"), upload) == DeducePortType(Some("rport"), !upload)
    ensures DeducePortType(Some("lport"), true) == Some("sport")
    ensures DeducePortType(Some("sport"), upload) == Some("sport")
    ensures DeducePortType(Some("dport"), upload) == Some("dport")
  {
  }

  /** `_do_parse(branch_str)` for a parser whose direction flag is `upload`. */
  function ParseAliased(s: string, upload: bool): (r: Result<Branch, BranchError>)
    ensures r.Success? ==> Acceptable(r.value, PORT_TYPES)
    ensures r.Failure? ==> r.error in {NoMatch(s), MissingPortType(s), NoRateOrLoss(s)}
  {
    match MatchBranch(s, ALIASED_PORT_TYPES)
    case None => Failure(NoMatch(s))
    case Some(m) =>
      match Checked(s, m)
      case Failure(e) => Failure(e)
      case Success(m) => Success(m.(porttype := DeducePortType(m.porttype, upload)))
  }

  /** Round trip through the aliases: the text of an acceptable branch parses
      to it with its port type resolved for the direction. */
  lemma ParseAliasedOfRender(b: Branch, upload: bool, newline: bool)
    requires Acceptable(b, ALIASED_PORT_TYPES)
    ensures ParseAliased(Render(b) + (if newline then "\n" else ""), upload)
      == Success(b.(porttype := DeducePortType(b.porttype, upload)))
  {
    PortNamesHold();
    MatchBranchOfRender(b, ALIASED_PORT_TYPES, newline);
  }

  /** Without the aliases the two parsers agree: on any text whose second
      field is not `lport` or `rport`, `BranchParser` gives what
      `parse_branch` gives. */
  lemma ParseAliasedAgrees(s: string, upload: bool)
    requires var f := SplitSep(Rates.Anchored(s), ":"); |f| < 2 || f[1] !in ["lport", "rport"]
    ensures ParseAliased(s, upload) == ParseBranch(s)
  {
    var f := SplitSep(Rates.Anchored(s), ":");
    assert MatchFields(f, ALIASED_PORT_TYPES) == MatchFields(f, PORT_TYPES) by {
      if |f| >= 2 {
        assert f[1] in ALIASED_PORT_TYPES <==> f[1] in PORT_TYPES;
      }
    }
  }

  /** The dictionary keys of a parsed branch. */
  const BRANCH_KEYS: set<string> := {"protocol", "porttype", "range", "rate", "loss"}

  /** The dictionary form of a branch, as `as_dict()` hands it out. */
  function DictOf(b: Branch): (d: map<string, Option<string>>)
    ensures d.Keys == BRANCH_KEYS
  {
    map["protocol" := Some(b.protocol), "porttype" := b.porttype, "range" := Some(b.range),
        "rate" := b.rate, "loss" := b.loss]
  }

  /** The dictionary loses nothing: distinct branches have distinct
      dictionaries. */
  lemma DictOfInjective(a: Branch, b: Branch)
    requires DictOf(a) == DictOf(b)
    ensures a == b
  {
    assert DictOf(a)["protocol"] == DictOf(b)["protocol"];
    assert DictOf(a)["porttype"] == DictOf(b)["porttype"];
    assert DictOf(a)["range"] == DictOf(b)["range"];
    assert DictOf(a)["rate"] == DictOf(b)["rate"];
    assert DictOf(a)["loss"] == DictOf(b)["loss"];
  }

  /** The `TypeError` check of `BranchParser.__init__`: unless `dontcare`,
      exactly one of `download` and `upload` must be `True` (`None` is
      Python's `None`). */
  predicate DirectionOk(download: Option<bool>, upload: Option<bool>, dontcare: bool) {
    dontcare || (download == Some(true)) != (upload == Some(true))
  }

  /** What constructing a `BranchParser` yields. */
  function ParseOne(s: string, download: Option<bool>, upload: Option<bool>, dontcare: bool): (r: Result<Branch, BranchError>)
    ensures !DirectionOk(download, upload, dontcare) ==> r == Failure(DirectionError)
    ensures DirectionOk(download, upload, dontcare) ==> r == ParseAliased(s, upload == Some(true))
  {
    if !DirectionOk(download, upload, dontcare) then Failure(DirectionError)
    else ParseAliased(s, upload == Some(true))
  }

  class BranchParser {
    /** `bool(upload)`. */
    const upload: bool
    const dontcare: bool
    var branch: Option<Branch>

    constructor (upload: bool, dontcare: bool)
      ensures this.upload == upload && this.dontcare == dontcare && branch.None?
    {
      this.upload := upload;
      this.dontcare := dontcare;
      branch := None;
    }

    /** `_do_parse(branch_str)`: stores the parsed branch, or leaves the
        parser without one and reports the `ParsingError`. */
    method DoParse(s: string) returns (r: Result<(), BranchError>)
      modifies this
      ensures var p := ParseAliased(s, upload);
        && (p.Success? ==> r.Success? && branch == Some(p.value))
        && (p.Failure? ==> r == Failure(p.error) && branch == old(branch))
    {
      var m := MatchBranch(s, ALIASED_PORT_TYPES);
      if m.None? {
        return Failure(NoMatch(s));
      }
      var g := m.value;
      if g.porttype.None? && g.range != "all" {
        return Failure(MissingPortType(s));
      }
      if g.rate.None? && g.loss.None? {
        return Failure(NoRateOrLoss(s));
      }
      branch := Some(Branch(g.protocol, DeducePortType(g.porttype, upload), g.range, g.rate, g.loss));
      r := Success(());
    }

    /** `as_dict()`: the stored branch as a dictionary value; the caller's
        changes to it cannot reach the parser. */
    function AsDict(): (d: map<string, Option<string>>)
      reads this
      requires branch.Some?
      ensures d.Keys == BRANCH_KEYS
      ensures d["protocol"] == Some(branch.value.protocol) && d["range"] == Some(branch.value.range)
      ensures d["porttype"] == branch.value.porttype && d["rate"] == branch.value.rate && d["loss"] == branch.value.loss
    {
      DictOf(branch.value)
    }
  }

  /** `BranchParser(branch_str, download, upload, dontcare)`: the direction
      check, then the parse. */
  method NewBranchParser(s: string, download: Option<bool>, upload: Option<bool>, dontcare: bool)
    returns (r: Result<BranchParser, BranchError>)
    ensures var p := ParseOne(s, download, upload, dontcare);
      && (p.Failure? ==> r == Failure(p.error))
      && (p.Success? ==> r.Success? && fresh(r.value) && r.value.branch == Some(p.value)
                         && r.value.upload == (upload == Some(true)) && r.value.dontcare == dontcare)
  {
    if !DirectionOk(download, upload, dontcare) {
      return Failure(DirectionError);
    }
    var parser := new BranchParser(upload == Some(true), dontcare);
    var outcome := parser.DoParse(s);
    if outcome.Failure? {
      return Failure(outcome.error);
    }
    r := Success(parser);
  }
}
