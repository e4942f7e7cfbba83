/**
 * The execution helpers of src/robotkernel/executors.py: argument normalisation, the cell text
 * of a keyword widget, the listener list of a run, the reply and rendering decision after a
 * run, the screenshot reduction of the output log, and the variable purge before a run.
 * The Robot Framework engine, PIL, base64 and the file system are oracles (`RunOutcome`, `Env`).
 */
module Executors {
  import opened Common
  import opened Strings
  import opened Seqs
  import opened Builders

  // =======================================================================================
  // normalize_argument

  /** No word character in `s`. */
  predicate NonWord(s: string)
  {
    forall i | 0 <= i < |s| :: !IsWordChar(s[i])
  }

  /** Every character of `s` is a word character. */
  predicate AllWord(s: string)
  {
    forall i | 0 <= i < |s| :: IsWordChar(s[i])
  }

  function LeadingNonWord(s: string): (n: nat)
    ensures n <= |s| && NonWord(s[..n]) && (n == |s| || IsWordChar(s[n]))
  {
    if s == [] || IsWordChar(s[0]) then 0
    else
      var n := 1 + LeadingNonWord(s[1..]);
      assert forall i | 1 <= i < n :: s[..n][i] == s[1..][..n - 1][i - 1];
      n
  }

  function TrailingNonWord(s: string): (n: nat)
    ensures n <= |s| && NonWord(s[|s| - n..]) && (n == |s| || IsWordChar(s[|s| - n - 1]))
    ensures |s| > 0 && IsWordChar(s[0]) ==> n < |s|
  {
    if s == [] || IsWordChar(s[|s| - 1]) then 0
    else
      var m := TrailingNonWord(s[..|s| - 1]);
      TrailingStep(s[..|s| - 1], s[|s| - 1], m);
      assert s == s[..|s| - 1] + [s[|s| - 1]];
      1 + m
  }

  /** One more non-word character `c` at the end of `p` extends the trailing run by one. */
  lemma TrailingStep(p: string, c: char, m: nat)
    requires !IsWordChar(c)
    requires m <= |p| && NonWord(p[|p| - m..])
    requires m == |p| || IsWordChar(p[|p| - m - 1])
    requires |p| > 0 && IsWordChar(p[0]) ==> m < |p|
    ensures var s := p + [c];
            && NonWord(s[|s| - (1 + m)..])
            && (1 + m == |s| || IsWordChar(s[|s| - (1 + m) - 1]))
            && (IsWordChar(s[0]) ==> 1 + m < |s|)
  {
    var s := p + [c];
    assert s[|s| - (1 + m)..] == p[|p| - m..] + [c];
    assert |p| > 0 ==> s[0] == p[0];
  }

  /**
   * Where the leading run of non-word characters ends and the trailing one begins. When `s`
   * has no word character at all, both runs cover it and the bounds meet at its end.
   */
  function StripBounds(s: string): (b: (nat, nat))
    ensures b.0 <= b.1 <= |s|
    ensures NonWord(s[..b.0]) && NonWord(s[b.1..])
    ensures b.0 < b.1 ==> IsWordChar(s[b.0]) && IsWordChar(s[b.1 - 1])
    ensures b.0 == b.1 ==> b.0 == |s|
  {
    var a := LeadingNonWord(s);
    SuffixFacts(s, a);
    var n := TrailingNonWord(s[a..]);
    TrailingFacts(s, a, n);
    (a, |s| - n)
  }

  lemma SuffixFacts(s: string, a: nat)
    requires a <= |s|
    ensures a < |s| ==> s[a..][0] == s[a]
  {
  }

  lemma TrailingFacts(s: string, a: nat, n: nat)
    requires a + n <= |s|
    ensures s[a..][|s| - a - n..] == s[|s| - n..]
    ensures n < |s| - a ==> s[a..][|s| - a - n - 1] == s[|s| - n - 1]
  {
  }

  /**
   * `re.sub(r"^[^\w]*|[^\w]*$", "", name, re.U)`: the leading and the trailing run of non-word
   * characters removed. The pattern matches at most three times, so the count of 32 that
   * `re.U` passes here never takes effect.
   */
  function StripNonWord(s: string): (r: string)
    ensures |r| <= |s|
    ensures r == [] || (IsWordChar(r[0]) && IsWordChar(r[|r| - 1]))
  {
    var b := StripBounds(s);
    s[b.0..b.1]
  }

  /**
   * What is stripped: the result is a piece of `s` with only non-word characters before and
   * after it, and it is empty exactly when `s` has no word character.
   */
  lemma StripNonWordSpec(s: string)
    ensures StripNonWord(s) == [] <==> NonWord(s)
    ensures exists i | 0 <= i <= |s| ::
              OccursAt(s, StripNonWord(s), i) && NonWord(s[..i]) && NonWord(s[i + |StripNonWord(s)|..])
  {
    var b := StripBounds(s);
    var r := StripNonWord(s);
    assert r == s[b.0..b.1];
    if b.0 < b.1 {
      assert IsWordChar(s[b.0]);
    } else {
      assert s[..b.0] == s;
    }
    assert s[b.0..b.0 + |r|] == r;
    assert s[b.0 + |r|..] == s[b.1..];
    assert OccursAt(s, r, b.0);
  }

  /** The number of non-word characters in `s`. */
  function NonWordCount(s: string): (n: nat)
    ensures n <= |s|
  {
    if s == [] then 0 else (if IsWordChar(s[0]) then 0 else 1) + NonWordCount(s[1..])
  }

  /**
   * `re.sub(r"\W", "_", s, count)` for a positive `count`: the first `count` non-word characters
   * become `_`, the rest stay as they are. (For `re.sub` a count of 0 means no limit; here it
   * means no substitution. `executors.py` only ever passes 32.)
   */
  function Underscore(s: string, count: nat): (r: string)
    ensures |r| == |s|
    ensures forall k | 0 <= k < |s| ::
              r[k] == if !IsWordChar(s[k]) && NonWordCount(s[..k]) < count then '_' else s[k]
  {
    if s == [] then []
    else if count == 0 then s
    else
      var rest := Underscore(s[1..], if IsWordChar(s[0]) then count else count - 1);
      var r := [if IsWordChar(s[0]) then s[0] else '_'] + rest;
      assert forall k | 1 <= k < |s| :: s[..k][1..] == s[1..][..k - 1];
      r
  }

  /** `re.sub(r"\W", "_", s)` with no count: every non-word character becomes `_`. */
  function UnderscoreAll(s: string): (r: string)
    ensures |r| == |s| && AllWord(r)
    ensures forall k | 0 <= k < |s| :: r[k] == if IsWordChar(s[k]) then s[k] else '_'
  {
    if s == [] then [] else [if IsWordChar(s[0]) then s[0] else '_'] + UnderscoreAll(s[1..])
  }

  /** How many substitutions `executors.py` lets `re.sub` make: `re.U`, passed as `count`. */
  const SubstitutionCap := 32

  /** The identifier as `executors.py` computes it, with the substitution cap. */
  function ArgumentIdentifierAsWritten(raw: string): string
  {
    Underscore(StripNonWord(raw), SubstitutionCap)
  }

  /** The identifier as intended: `re.U` taken as the flag it was meant to be. */
  function ArgumentIdentifier(raw: string): (r: string)
    ensures AllWord(r)
    ensures r == [] <==> NonWord(raw)
  {
    StripNonWordSpec(raw);
    UnderscoreAll(StripNonWord(raw))
  }

  /** Up to the cap, the replacement is complete: `Underscore` agrees with `UnderscoreAll`. */
  lemma {:induction false} UnderscoreWithinCap(s: string, count: nat)
    requires NonWordCount(s) <= count
    ensures Underscore(s, count) == UnderscoreAll(s)
  {
    if s != [] {
      UnderscoreWithinCap(s[1..], if IsWordChar(s[0]) then count else count - 1);
    }
  }

  /** Past the cap, a non-word character survives the replacement. */
  lemma {:induction false} UnderscoreBeyondCap(s: string, count: nat)
    requires NonWordCount(s) > count
    ensures !AllWord(Underscore(s, count))
  {
    var k := SurvivingNonWord(s, count);
    assert !IsWordChar(Underscore(s, count)[k]);
  }

  /** The position of a non-word character that `Underscore` leaves in place. */
  lemma {:induction false} SurvivingNonWord(s: string, count: nat) returns (k: nat)
    requires NonWordCount(s) > count
    ensures k < |s| && !IsWordChar(s[k]) && Underscore(s, count)[k] == s[k]
  {
    if count == 0 {
      k := FirstNonWord(s);
    } else {
      var c := if IsWordChar(s[0]) then count else count - 1;
      var j := SurvivingNonWord(s[1..], c);
      k := j + 1;
      assert Underscore(s, count) == [if IsWordChar(s[0]) then s[0] else '_'] + Underscore(s[1..], c);
      assert Underscore(s, count)[k] == Underscore(s[1..], c)[j];
    }
  }

  function FirstNonWord(s: string): (k: nat)
    requires NonWordCount(s) > 0
    ensures k < |s| && !IsWordChar(s[k])
  {
    if IsWordChar(s[0]) then 1 + FirstNonWord(s[1..]) else 0
  }

  /** `n` hyphens: one non-word character each. */
  function Dashes(n: nat): (s: string)
    ensures |s| == n && NonWordCount(s) == n
  {
    if n == 0 then [] else
      var s := "-" + Dashes(n - 1);
      assert s[1..] == Dashes(n - 1);
      s
  }

  /** `${` and `}` around a name that starts and ends with a word character are stripped. */
  lemma StripBraced(inner: string)
    requires |inner| > 0 && IsWordChar(inner[0]) && IsWordChar(inner[|inner| - 1])
    ensures StripNonWord("${" + inner + "}") == inner
  {
    var raw := "${" + inner + "}";
    assert raw[1..][1..] == raw[2..] == inner + "}";
    assert LeadingNonWord(raw[2..]) == 0;
    assert LeadingNonWord(raw[1..]) == 1;
    assert LeadingNonWord(raw) == 2;
    var t := inner + "}";
    assert t[..|t| - 1] == inner;
    assert TrailingNonWord(inner) == 0;
    assert TrailingNonWord(t) == 1;
  }

  /**
   * The argument `${a` + 33 hyphens + `b}` keeps a hyphen in its identifier as written:
   * `re.sub` stops after 32 substitutions.
   */
  lemma CapCounterexample()
    ensures !AllWord(ArgumentIdentifierAsWritten("${a" + Dashes(33) + "b}"))
    ensures AllWord(ArgumentIdentifier("${a" + Dashes(33) + "b}"))
  {
    BracedDashes(Dashes(33));
    DashesCount(Dashes(33));
    UnderscoreBeyondCap("a" + Dashes(33) + "b", SubstitutionCap);
  }

  lemma BracedDashes(d: string)
    ensures StripNonWord("${a" + d + "b}") == "a" + d + "b"
  {
    var inner := "a" + d + "b";
    assert "${a" + d + "b}" == "${" + inner + "}";
    assert inner[0] == 'a' && inner[|inner| - 1] == 'b';
    StripBraced(inner);
  }

  lemma DashesCount(d: string)
    ensures NonWordCount("a" + d + "b") == NonWordCount(d)
  {
    NonWordCountAppend("a", d + "b");
    NonWordCountAppend(d, "b");
    assert "a" + d + "b" == "a" + (d + "b");
    assert NonWordCount("a") == 0 by { assert "a"[1..] == []; }
    assert NonWordCount("b") == 0 by { assert "b"[1..] == []; }
  }

  lemma {:induction false} NonWordCountAppend(a: string, b: string)
    ensures NonWordCount(a + b) == NonWordCount(a) + NonWordCount(b)
  {
    if a == [] {
      assert a + b == b;
    } else {
      assert (a + b)[0] == a[0] && (a + b)[1..] == a[1..] + b;
      NonWordCountAppend(a[1..], b);
    }
  }

  /** An argument of a keyword: the raw name, its Python identifier and its default. */
  datatype Argument = Argument(raw: string, identifier: string, default: Option<string>)

  /** `normalize_argument(name)`: split on the first `=` and turn the name into an identifier. */
  function NormalizeArgument(name: string): (r: Argument)
    ensures r.default.None? <==> '=' !in name
    ensures r.default.None? ==> r.raw == name
    ensures r.default.Some? ==> name == r.raw + "=" + r.default.value && '=' !in r.raw
    ensures r.identifier == ArgumentIdentifier(r.raw)
  {
    match SplitOnce(name, '=')
    case None => Argument(name, ArgumentIdentifier(name), None)
    case Some((n, d)) => Argument(n, ArgumentIdentifier(n), Some(d))
  }

  /**
   * Where the substitution cap of `executors.py` does not bite, the identifier is the one it
   * computes as written (and so is the identifier `NormalizeArgument` gives for that raw name).
   */
  lemma ArgumentIdentifierWithinCap(raw: string)
    requires NonWordCount(StripNonWord(raw)) <= SubstitutionCap
    ensures ArgumentIdentifier(raw) == ArgumentIdentifierAsWritten(raw)
  {
    UnderscoreWithinCap(StripNonWord(raw), SubstitutionCap);
  }

  /**
   * A Robot variable name `${name}` whose name is made of word characters normalises to the
   * identifier `name` with no default (`${list}` becomes `list`).
   */
  lemma BracedArgument(inner: string)
    requires |inner| > 0 && AllWord(inner)
    ensures NormalizeArgument("${" + inner + "}") == Argument("${" + inner + "}", inner, None)
  {
    var name := "${" + inner + "}";
    assert ArgumentIdentifier(name) == inner by {
      StripBraced(inner);
      UnderscoreAllWord(inner);
    }
    BracedHasNoDefault(inner);
    var r := NormalizeArgument(name);
    assert r.default.None? && r.raw == name && r.identifier == inner;
  }

  lemma BracedHasNoDefault(inner: string)
    requires AllWord(inner)
    ensures '=' !in "${" + inner + "}"
  {
    var name := "${" + inner + "}";
    forall i | 0 <= i < |name| ensures name[i] != '=' {
      if 2 <= i < |name| - 1 {
        assert name[i] == inner[i - 2];
      }
    }
  }

  /** A name made only of word characters is its own identifier. */
  lemma UnderscoreAllWord(s: string)
    requires AllWord(s)
    ensures UnderscoreAll(s) == s
  {
    assert forall k | 0 <= k < |s| :: UnderscoreAll(s)[k] == s[k];
  }

  // =======================================================================================
  // execute_ipywidget and inject_ipywidgets

  /** `rpa and "Tasks" or "Test Cases"` */
  function Header(rpa: Option<bool>): (h: string)
    ensures h == "Tasks" <==> rpa == Some(true)
    ensures h == "Test Cases" <==> rpa != Some(true)
  {
    if rpa == Some(true) then "Tasks" else "Test Cases"
  }

  /** `[values[a[1]] for a in arguments]`: the first missing identifier raises `KeyError`. */
  function ArgumentValues(arguments: seq<Argument>, values: map<string, string>): (r: Result<seq<string>>)
    ensures r.Ok? <==> forall i | 0 <= i < |arguments| :: arguments[i].identifier in values
    ensures r.Ok? ==> |r.value| == |arguments|
    ensures r.Ok? ==> forall i | 0 <= i < |arguments| :: r.value[i] == values[arguments[i].identifier]
    ensures r.Err? ==> exists i | 0 <= i < |arguments| ::
              && r.error == KeyError(arguments[i].identifier)
              && arguments[i].identifier !in values
              && forall j | 0 <= j < i :: arguments[j].identifier in values
  {
    if arguments == [] then Ok([])
    else if arguments[0].identifier !in values then Err(KeyError(arguments[0].identifier))
    else
      var rest := ArgumentValues(arguments[1..], values);
      assert forall i | 1 <= i < |arguments| :: arguments[i] == arguments[1..][i - 1];
      if rest.Err? then
        assert exists i | 0 <= i < |arguments| ::
                 && rest.error == KeyError(arguments[i].identifier)
                 && arguments[i].identifier !in values
                 && forall j | 0 <= j < i :: arguments[j].identifier in values
        by {
          var i :| 0 <= i < |arguments[1..]| && rest.error == KeyError(arguments[1..][i].identifier)
                   && arguments[1..][i].identifier !in values
                   && forall j | 0 <= j < i :: arguments[1..][j].identifier in values;
          assert forall j | 1 <= j < i + 1 :: arguments[j] == arguments[1..][j - 1];
        }
        Err(rest.error)
      else Ok([values[arguments[0].identifier]] + rest.value)
  }

  /** The cell text `execute_ipywidget` generates: one test or task calling the keyword. */
  function WidgetCode(rpa: Option<bool>, name: string, arguments: seq<Argument>, values: map<string, string>): (r: Result<string>)
    ensures r.Ok? <==> forall i | 0 <= i < |arguments| :: arguments[i].identifier in values
    ensures r.Err? ==> r.error == ArgumentValues(arguments, values).error
    ensures r.Ok? ==>
              r.value == "\n*** " + Header(rpa) + " ***\n\n" + name + "\n    " + name + "  "
                         + JoinWith("  ", ArgumentValues(arguments, values).value) + "\n"
  {
    var vs := ArgumentValues(arguments, values);
    if vs.Err? then Err(vs.error)
    else Ok("\n*** " + Header(rpa) + " ***\n\n" + name + "\n    " + name + "  " + JoinWith("  ", vs.value) + "\n")
  }

  /**
   * `execute_ipywidget`: generate the cell, build it into a deep copy of the suite, mark the
   * copy as tasks, and return the copy that `run_robot_suite` runs. `parse` is `get_model`.
   * The kernel's own suite is not touched (no `modifies` clause).
   */
  method ExecuteIpywidget(suite: Suite, rpa: Option<bool>, name: string, arguments: seq<Argument>,
                          values: map<string, string>, parse: string -> File)
    returns (r: Result<Suite>)
    requires suite.Valid()
    ensures r.Err? <==> WidgetCode(rpa, name, arguments, values).Err?
                        || PopulateOutcome(parse(WidgetCode(rpa, name, arguments, values).value)).Err?
    ensures r.Ok? ==>
              var file := parse(WidgetCode(rpa, name, arguments, values).value);
              && fresh(r.value) && fresh(r.value.keywords) && fresh(r.value.variables) && fresh(r.value.tests)
              && r.value.Valid()
              && r.value.rpa == Some(true)
              && r.value.keywords.items == Dedup(suite.keywords.items + SectionKeywords(file.sections))
              && r.value.variables.items == Dedup(suite.variables.items + SectionVariables(file.sections))
              && r.value.tests.items == suite.tests.items + SectionTests(file.sections)
              && r.value.imports == suite.imports + Imports(file.sections)
  {
    var code := WidgetCode(rpa, name, arguments, values);
    if code.Err? {
      return Err(code.error);
    }
    var copy := suite.Copy();
    var built := PopulateSuite(parse(code.value), copy);
    if built.Err? {
      return Err(built.error);
    }
    copy.rpa := Some(true);
    r := Ok(copy);
  }

  /** Whether `populate_suite` raises for `file`, whatever the suite holds. */
  function PopulateOutcome(file: File): Result<()>
  {
    if file.errors != [] then Err(DataError(file.errors[0]))
    else match RpaMode(Some(file))
      case Ok(_) => Ok(())
      case Err(e) => Err(e)
  }

  /**
   * One keyword widget: the keyword's name, its normalised arguments and the suite's RPA mode,
   * which chooses the header of the cell the widget runs.
   */
  datatype WidgetSpec = WidgetSpec(name: string, arguments: seq<Argument>, rpa: Option<bool>)

  /** `inject_ipywidgets`: one widget per new keyword, arguments through `normalize_argument`. */
  function WidgetSpecs(keywords: seq<Item>, rpa: Option<bool>): (r: seq<WidgetSpec>)
    ensures |r| == |keywords|
    ensures forall i | 0 <= i < |keywords| ::
              && r[i].name == keywords[i].name && r[i].rpa == rpa
              && |r[i].arguments| == |keywords[i].args|
              && forall j | 0 <= j < |keywords[i].args| :: r[i].arguments[j] == NormalizeArgument(keywords[i].args[j])
  {
    seq(|keywords|, i requires 0 <= i < |keywords| =>
      WidgetSpec(keywords[i].name,
                 seq(|keywords[i].args|, j requires 0 <= j < |keywords[i].args| => NormalizeArgument(keywords[i].args[j])),
                 rpa))
  }

  // =======================================================================================
  // process_screenshots

  /** What the file system, PIL, base64 and the helpers in utils.py answer. */
  datatype Env = Env(
    pathExists: string -> bool,              // os.path.exists
    imageMime: string -> string,             // Image.MIME[Image.open(filename).format]
    readFile: string -> seq<byte>,           // open(filename, "rb").read()
    decode: string -> Option<seq<byte>>,     // base64.b64decode(unquote(uri)); None where it raises
    dataUri: (string, seq<byte>) -> string,  // utils.data_uri(mimetype, data)
    size: seq<byte> -> (nat, nat),           // (im.width, im.height)
    toMime: Value -> (map<string, string>, map<string, string>),  // to_mime_and_metadata(value)
    renderLog: (string, Option<bool>) -> string)  // ResultWriter's log.html for an output.xml and rpa

  /** `os.path.join(a, b)` on POSIX paths. */
  function JoinPath(a: string, b: string): (r: string)
    ensures StartsWith(b, "/") ==> r == b
  {
    if StartsWith(b, "/") then b
    else if a == [] || a[|a| - 1] == '/' then a + b
    else a + "/" + b
  }

  const ImgMarker := "img src=\""

  /** `[^"]*` from the start of `s`. */
  function TakeSrc(s: string): (r: string)
    ensures '"' !in r && StartsWith(s, r) && (|r| == |s| || s[|r|] == '"')
  {
    if s == [] || s[0] == '"' then []
    else
      var rest := TakeSrc(s[1..]);
      assert s[..1 + |rest|] == [s[0]] + s[1..][..|rest|];
      [s[0]] + rest
  }

  /** `re.findall('img src="([^"]+)', xml)` */
  function ImgSrcs(xml: string): (r: seq<string>)
    ensures forall k | 0 <= k < |r| :: |r[k]| > 0 && '"' !in r[k] && Contains(xml, ImgMarker + r[k])
    decreases |xml|
  {
    if |xml| <= |ImgMarker| then []
    else if StartsWith(xml, ImgMarker) && xml[|ImgMarker|] != '"' then
      var v := TakeSrc(xml[|ImgMarker|..]);
      var rest := ImgSrcs(xml[|ImgMarker| + |v|..]);
      assert OccursAt(xml, ImgMarker + v, 0) by {
        assert xml[|ImgMarker|..][..|v|] == xml[|ImgMarker|..|ImgMarker| + |v|];
      }
      forall k | 0 <= k < |rest| ensures Contains(xml, ImgMarker + rest[k]) {
        ContainsShift(xml, ImgMarker + rest[k], |ImgMarker| + |v|);
      }
      [v] + rest
    else
      var rest := ImgSrcs(xml[1..]);
      forall k | 0 <= k < |rest| ensures Contains(xml, ImgMarker + rest[k]) {
        ContainsShift(xml, ImgMarker + rest[k], 1);
      }
      rest
  }

  /** A `data:` URI split as `spec, uri = src.split(",", 1)` and the two splits after it. */
  datatype DataHeader = DataHeader(scheme: string, mime: string, encoding: string, payload: string)

  function FormatDataUri(h: DataHeader): string
  {
    h.scheme + ":" + h.mime + ";" + h.encoding + "," + h.payload
  }

  /** The parts of a header that the three splits can give back. */
  predicate SplittableHeader(h: DataHeader)
  {
    && ':' !in h.scheme && ';' !in h.scheme && ',' !in h.scheme
    && ';' !in h.mime && ',' !in h.mime
    && ',' !in h.encoding
  }

  /** The three splits; `None` where one of the unpackings raises `ValueError`. */
  function ParseDataUri(src: string): (r: Option<DataHeader>)
    ensures r.Some? ==> FormatDataUri(r.value) == src && SplittableHeader(r.value)
  {
    match SplitOnce(src, ',')
    case None => None
    case Some((spec, uri)) =>
      match SplitOnce(spec, ';')
      case None => None
      case Some((spec2, encoding)) =>
        match SplitOnce(spec2, ':')
        case None => None
        case Some((scheme, mimetype)) =>
          var h := DataHeader(scheme, mimetype, encoding, uri);
          assert spec2 == scheme + ":" + mimetype;
          assert spec == spec2 + ";" + encoding;
          assert ',' !in spec2 + ";" + encoding;
          assert ';' !in scheme + ":" + mimetype;
          Some(h)
  }

  /** Parsing a formatted header gives the header back. */
  lemma ParseFormatRoundTrip(h: DataHeader)
    requires SplittableHeader(h)
    ensures ParseDataUri(FormatDataUri(h)) == Some(h)
  {
    var spec2 := h.scheme + ":" + h.mime;
    var spec := spec2 + ";" + h.encoding;
    assert FormatDataUri(h) == spec + [','] + h.payload;
    SplitOnceUnique(spec, ',', h.payload);
    assert spec == spec2 + [';'] + h.encoding;
    SplitOnceUnique(spec2, ';', h.encoding);
    assert spec2 == h.scheme + [':'] + h.mime;
    SplitOnceUnique(h.scheme, ':', h.mime);
  }

  /** A reference that starts with `data:` parses with the scheme `data`. */
  lemma DataScheme(h: DataHeader)
    requires SplittableHeader(h) && StartsWith(FormatDataUri(h), "data:")
    ensures h.scheme == "data"
  {
    var rest := h.mime + ";" + h.encoding + "," + h.payload;
    assert FormatDataUri(h) == h.scheme + [':'] + rest;
    SchemeBeforeColon(FormatDataUri(h), h.scheme, rest);
  }

  lemma SchemeBeforeColon(src: string, scheme: string, rest: string)
    requires src == scheme + [':'] + rest && ':' !in scheme && StartsWith(src, "data:")
    ensures scheme == "data"
  {
    SplitOnceUnique(scheme, ':', rest);
    assert src == "data" + [':'] + src[5..];
    SplitOnceUnique("data", ':', src[5..]);
  }

  /** The accept rule for inline images: base64 and an `image/` MIME type. */
  predicate AcceptsInline(h: DataHeader)
  {
    h.encoding == "base64" && StartsWith(h.mime, "image/")
  }

  /** Where `process_screenshots` looks for a referenced file, in order. */
  function Candidates(src: string, path: string, cwd: string): seq<string>
  {
    [src, JoinPath(path, src), JoinPath(cwd, src)]
  }

  datatype Source = FromFile(filename: string) | Inline(mime: string, payload: string) | Skipped

  /** An accepted `data:` URI, or `Skipped` (also when a split raises). */
  function InlineSource(src: string): (r: Source)
    ensures !r.FromFile?
    ensures r.Inline? <==> StartsWith(src, "data:") && ParseDataUri(src).Some? && AcceptsInline(ParseDataUri(src).value)
    ensures r.Inline? ==> src == "data:" + r.mime + ";base64," + r.payload && StartsWith(r.mime, "image/")
  {
    if StartsWith(src, "data:") then
      match ParseDataUri(src)
      case None => Skipped
      case Some(h) =>
        if AcceptsInline(h) then
          DataScheme(h);
          InlineShape(h);
          Inline(h.mime, h.payload)
        else Skipped
    else Skipped
  }

  lemma InlineShape(h: DataHeader)
    requires h.scheme == "data" && h.encoding == "base64"
    ensures FormatDataUri(h) == "data:" + h.mime + ";base64," + h.payload
  {
  }

  /**
   * The first existing candidate file; failing that an accepted `data:` URI; otherwise the
   * reference is skipped (`continue`).
   */
  function ResolveSource(src: string, path: string, cwd: string, pathExists: string -> bool): (r: Source)
    ensures var c := Candidates(src, path, cwd);
            r.FromFile? <==> exists k | 0 <= k < 3 :: pathExists(c[k])
    ensures var c := Candidates(src, path, cwd);
            r.FromFile? ==> exists k | 0 <= k < 3 ::
              r.filename == c[k] && pathExists(c[k]) && forall j | 0 <= j < k :: !pathExists(c[j])
    ensures var c := Candidates(src, path, cwd);
            !r.FromFile? ==> r == InlineSource(src)
  {
    var c := Candidates(src, path, cwd);
    if pathExists(c[0]) then FromFile(c[0])
    else if pathExists(c[1]) then FromFile(c[1])
    else if pathExists(c[2]) then FromFile(c[2])
    else InlineSource(src)
  }

  /** Pillow on Windows reports PNG files as `image/apng`. */
  function FixMime(mime: string): (r: string)
    ensures r != "image/apng"
    ensures mime == "image/apng" ==> r == "image/png"
    ensures mime != "image/apng" ==> r == mime
  {
    if mime == "image/apng" then "image/png" else mime
  }

  datatype Image = Image(mime: string, data: seq<byte>)

  /** The image behind a reference, or `None` when it is skipped or fails to decode. */
  function LoadImage(src: string, path: string, cwd: string, env: Env): (r: Option<Image>)
    ensures ResolveSource(src, path, cwd, env.pathExists).FromFile? ==> r.Some? && r.value.mime != "image/apng"
    ensures var s := ResolveSource(src, path, cwd, env.pathExists);
            s.FromFile? ==> r == Some(Image(FixMime(env.imageMime(s.filename)), env.readFile(s.filename)))
    ensures ResolveSource(src, path, cwd, env.pathExists).Skipped? ==> r.None?
    ensures var s := ResolveSource(src, path, cwd, env.pathExists);
            s.Inline? ==> (r.Some? <==> env.decode(s.payload).Some?) && (r.Some? ==> r.value == Image(s.mime, env.decode(s.payload).value))
  {
    match ResolveSource(src, path, cwd, env.pathExists)
    case FromFile(f) => Some(Image(FixMime(env.imageMime(f)), env.readFile(f)))
    case Inline(mime, payload) =>
      (match env.decode(payload)
       case None => None
       case Some(data) => Some(Image(mime, data)))
    case Skipped => None
  }

  function LinkPattern(src: string): string { "a href=\"" + src + "\"" }
  function WideImgPattern(src: string): string { "img src=\"" + src + "\" width=\"800px\"" }
  function ImgPattern(src: string): string { "img src=\"" + src + "\"" }

  /** The three `xml.replace` calls for one resolved reference. */
  function Rewrite(xml: string, src: string, uri: string): string
  {
    var x1 := ReplaceAll(xml, LinkPattern(src), "a");
    var x2 := ReplaceAll(x1, WideImgPattern(src), "img src=\"" + uri + "\" style=\"max-width:800px;\"");
    ReplaceAll(x2, ImgPattern(src), ImgPattern(uri))
  }

  /** The loop body of `process_screenshots` on the text. */
  function StepXml(xml: string, src: string, path: string, cwd: string, env: Env): string
  {
    match LoadImage(src, path, cwd, env)
    case None => xml
    case Some(img) => Rewrite(xml, src, env.dataUri(img.mime, img.data))
  }

  /** The text after the loop has handled `srcs`, in order. */
  function ReduceXml(xml: string, srcs: seq<string>, path: string, cwd: string, env: Env): string
  {
    if srcs == [] then xml
    else StepXml(ReduceXml(xml, srcs[..|srcs| - 1], path, cwd, env), srcs[|srcs| - 1], path, cwd, env)
  }

  /** What the front end is sent for a run: errors, results, screenshots and the log. */
  datatype Message =
    | ErrorMessage(ename: string, evalue: string, traceback: seq<string>)  // send_error
    | ExecuteResult(bundle: map<string, string>, metadata: map<string, string>)  // send_execute_result
    | ImageDisplay(mime: string, data: seq<byte>, width: nat, height: nat)  // a screenshot
    | LogButton(newDisplay: bool, log: string)                             // the "Log" button

  /** The displays the loop sends for `srcs` (none when silent). */
  function ShownImages(srcs: seq<string>, path: string, cwd: string, env: Env, silent: bool): seq<Message>
  {
    if silent || srcs == [] then []
    else
      ShownImages(srcs[..|srcs| - 1], path, cwd, env, silent) +
      match LoadImage(srcs[|srcs| - 1], path, cwd, env)
      case None => []
      case Some(img) => [ImageDisplay(img.mime, img.data, env.size(img.data).0, env.size(img.data).1)]
  }

  /** `process_screenshots`: rewrite every resolvable reference of the output log. */
  method ProcessScreenshots(xml: string, path: string, cwd: string, env: Env, silent: bool)
    returns (out: string, shown: seq<Message>)
    ensures out == ReduceXml(xml, ImgSrcs(xml), path, cwd, env)
    ensures shown == ShownImages(ImgSrcs(xml), path, cwd, env, silent)
  {
    var srcs := ImgSrcs(xml);
    out := xml;
    shown := [];
    for i := 0 to |srcs|
      invariant out == ReduceXml(xml, srcs[..i], path, cwd, env)
      invariant shown == ShownImages(srcs[..i], path, cwd, env, silent)
    {
      var src := srcs[i];
      assert srcs[..i + 1][..i] == srcs[..i];
      var img := LoadImage(src, path, cwd, env);
      if img.Some? {
        var uri := env.dataUri(img.value.mime, img.value.data);
        out := Rewrite(out, src, uri);
        if !silent {
          var (w, h) := env.size(img.value.data);
          shown := shown + [ImageDisplay(img.value.mime, img.value.data, w, h)];
        }
      }
    }
    assert srcs[..|srcs|] == srcs;
  }

  lemma ContainsPrefix(s: string, p: string, q: string)
    requires Contains(s, p + q)
    ensures Contains(s, p)
  {
    var i :| 0 <= i <= |s| && OccursAt(s, p + q, i);
    assert s[i..i + |p|] == (p + q)[..|p|];
    assert OccursAt(s, p, i);
  }

  /** A reference that occurs neither as a link nor as an image leaves the text as it is. */
  lemma RewriteAbsent(xml: string, src: string, uri: string)
    requires !Contains(xml, LinkPattern(src)) && !Contains(xml, ImgPattern(src))
    ensures Rewrite(xml, src, uri) == xml
  {
    ReplaceAbsent(xml, LinkPattern(src), "a");
    assert WideImgPattern(src) == ImgPattern(src) + " width=\"800px\"";
    if Contains(xml, WideImgPattern(src)) {
      ContainsPrefix(xml, ImgPattern(src), " width=\"800px\"");
    }
    ReplaceAbsent(xml, WideImgPattern(src), "img src=\"" + uri + "\" style=\"max-width:800px;\"");
    ReplaceAbsent(xml, ImgPattern(src), ImgPattern(uri));
  }

  /**
   * An already embedded reference whose data URI comes back unchanged, with no link and no
   * `width` attribute left around it, is a fixed point of the rewrite.
   */
  lemma RewriteEmbedded(xml: string, src: string)
    requires !Contains(xml, LinkPattern(src)) && !Contains(xml, WideImgPattern(src))
    ensures Rewrite(xml, src, src) == xml
  {
    ReplaceAbsent(xml, LinkPattern(src), "a");
    ReplaceAbsent(xml, WideImgPattern(src), "img src=\"" + src + "\" style=\"max-width:800px;\"");
    ReplaceSelf(xml, ImgPattern(src));
  }

  /** References that all fail to resolve leave the log as it is. */
  lemma {:induction false} ReduceUnresolved(xml: string, srcs: seq<string>, path: string, cwd: string, env: Env)
    requires forall k | 0 <= k < |srcs| :: LoadImage(srcs[k], path, cwd, env).None?
    ensures ReduceXml(xml, srcs, path, cwd, env) == xml
  {
    if srcs != [] {
      ReduceUnresolved(xml, srcs[..|srcs| - 1], path, cwd, env);
    }
  }

  /**
   * Reduction is idempotent on an already reduced log: when every reference is an embedded
   * data URI that re-encodes to itself, with no link and no `width` attribute left, a second
   * pass changes nothing.
   */
  lemma {:induction false} ReduceFixpoint(xml: string, srcs: seq<string>, path: string, cwd: string, env: Env)
    requires forall k | 0 <= k < |srcs| ::
               && !Contains(xml, LinkPattern(srcs[k])) && !Contains(xml, WideImgPattern(srcs[k]))
               && LoadImage(srcs[k], path, cwd, env).Some?
               && env.dataUri(LoadImage(srcs[k], path, cwd, env).value.mime, LoadImage(srcs[k], path, cwd, env).value.data) == srcs[k]
    ensures ReduceXml(xml, srcs, path, cwd, env) == xml
  {
    if srcs != [] {
      ReduceFixpoint(xml, srcs[..|srcs| - 1], path, cwd, env);
      RewriteEmbedded(xml, srcs[|srcs| - 1]);
    }
  }

  // =======================================================================================
  // run_robot_suite

  /** The listener classes a run can be configured with. */
  datatype Listener =
    | RpaBrowserConnections | SeleniumConnections | JupyterConnections | AppiumConnections
    | WhiteLibrary | KeywordsIndexer | Variables | StatusEvent | ReturnValue

  /** `listeners = kernel.listeners[:]` plus the per-run status and return-value listeners. */
  function RunListeners(base: seq<Listener>, silent: bool, widget: bool): (r: seq<Listener>)
    ensures |r| == |base| + (if !silent && !widget then 1 else 0) + (if !silent then 1 else 0)
    ensures r[..|base|] == base
    ensures r[|base|..] == (if !silent && !widget then [StatusEvent] else []) + (if !silent then [ReturnValue] else [])
    ensures StatusEvent in r[|base|..] <==> !silent && !widget
    ensures ReturnValue in r[|base|..] <==> !silent
    ensures !silent ==> r[|r| - 1] == ReturnValue
  {
    var added := (if !silent && !widget then [StatusEvent] else []) + (if !silent then [ReturnValue] else []);
    var r := base + added;
    assert r[|base|..] == added;
    assert r == (if !(silent || widget) then base + [StatusEvent] else base) + (if !silent then [ReturnValue] else []);
    r
  }

  /** A keyword's return value, as far as the rendering decision looks at it. */
  datatype Value = NoneValue | Text(text: string) | Binary(bytes: seq<byte>) | Other(repr: string)

  /** Not `None`, not `""` and not `b""`. */
  predicate Renderable(v: Value)
  {
    !v.NoneValue? && v != Text("") && v != Binary([])
  }

  /** What `suite.run` gives back: failures, captured output lines, return values, output.xml. */
  datatype RunOutcome = RunOutcome(failed: nat, stdout: seq<string>, values: seq<Value>, outputXml: string)

  /** `return_values`: filled by the return-value listener only when it is attached. */
  function CollectedValues(listeners: seq<Listener>, produced: seq<Value>): (r: seq<Value>)
    ensures ReturnValue !in listeners ==> r == []
  {
    if ReturnValue in listeners then produced else []
  }

  /** The return value shown after a run, if any. */
  function RenderedValue(failed: nat, returnValues: seq<Value>, silent: bool): (r: Option<Value>)
    ensures r.Some? <==> failed == 0 && returnValues != [] && Renderable(returnValues[|returnValues| - 1]) && !silent
    ensures r.Some? ==> r.value == returnValues[|returnValues| - 1]
  {
    if failed != 0 then None
    else if returnValues != [] && Renderable(returnValues[|returnValues| - 1]) && !silent then
      Some(returnValues[|returnValues| - 1])
    else None
  }

  /** A silent run attaches no return-value listener and so renders nothing. */
  lemma SilentRunRendersNothing(base: seq<Listener>, widget: bool, outcome: RunOutcome)
    requires ReturnValue !in base
    ensures RenderedValue(outcome.failed, CollectedValues(RunListeners(base, true, widget), outcome.values), true).None?
    ensures CollectedValues(RunListeners(base, true, widget), outcome.values) == []
  {
    assert RunListeners(base, true, widget) == base;
  }

  /** The execute reply to the front end. */
  datatype Reply =
    | ExecuteOk(executionCount: nat)
    | ExecuteError(ename: string, evalue: string, traceback: seq<string>)

  const ReportUrl := "\"reportURL\":\"report.html\""
  const NullReportUrl := "\"reportURL\":null"

  /**
   * The messages up to the screenshots: the error on failure, else the rendered value's MIME
   * bundle, which is sent only when `toMime` gives a non-empty one.
   */
  function VerdictMessages(outcome: RunOutcome, returnValues: seq<Value>, silent: bool,
                           toMime: Value -> (map<string, string>, map<string, string>)): (r: seq<Message>)
    ensures outcome.failed != 0 ==> r == if silent then [] else [ErrorMessage("", "", outcome.stdout)]
    ensures outcome.failed == 0 && RenderedValue(0, returnValues, silent).None? ==> r == []
    ensures outcome.failed == 0 && RenderedValue(0, returnValues, silent).Some? ==>
              var v := returnValues[|returnValues| - 1];
              && (toMime(v).0 == map[] ==> r == [])
              && (toMime(v).0 != map[] ==> r == [ExecuteResult(toMime(v).0, toMime(v).1)])
  {
    if outcome.failed != 0 then (if silent then [] else [ErrorMessage("", "", outcome.stdout)])
    else match RenderedValue(outcome.failed, returnValues, silent)
      case None => []
      case Some(v) =>
        var (bundle, metadata) := toMime(v);
        if bundle != map[] then [ExecuteResult(bundle, metadata)] else []
  }

  /** The reply of `run_robot_suite`: an error with the captured output on failure, else ok. */
  function RunReply(outcome: RunOutcome, executionCount: nat): Reply
  {
    if outcome.failed != 0 then ExecuteError("", "", outcome.stdout) else ExecuteOk(executionCount)
  }

  /**
   * The messages `run_robot_suite` sends with the listeners `ran`: the verdict, the screenshots
   * and, unless silent, the log button over the log written from the reduced output. A silent
   * run sends nothing; otherwise the log button comes last and an error comes first.
   */
  function RunMessages(ran: seq<Listener>, silent: bool, widget: bool, rpa: Option<bool>, outcome: RunOutcome,
                       env: Env, path: string, cwd: string): (r: seq<Message>)
    ensures silent ==> r == []
    ensures !silent ==> |r| >= 1 && r[|r| - 1].LogButton? && r[|r| - 1].newDisplay == widget
    ensures !silent && outcome.failed != 0 ==> r[0] == ErrorMessage("", "", outcome.stdout)
  {
    var xml := ReduceXml(outcome.outputXml, ImgSrcs(outcome.outputXml), path, cwd, env);
    VerdictMessages(outcome, CollectedValues(ran, outcome.values), silent, env.toMime)
    + ShownImages(ImgSrcs(outcome.outputXml), path, cwd, env, silent)
    + (if silent then [] else [LogButton(widget, ReplaceAll(env.renderLog(xml, rpa), ReportUrl, NullReportUrl))])
  }

  /**
   * `run_robot_suite` after `suite.run` has produced `outcome`: the reply is an error with the
   * captured output as traceback exactly when something failed; screenshots are reduced either
   * way; the log button is shown unless silent, with the report link nulled out.
   */
  method RunRobotSuite(kernelListeners: seq<Listener>, silent: bool, widget: bool, rpa: Option<bool>,
                       outcome: RunOutcome, env: Env, path: string, cwd: string, executionCount: nat)
    returns (reply: Reply, messages: seq<Message>, listeners: seq<Listener>, xml: string)
    ensures listeners == RunListeners(kernelListeners, silent, widget)
    ensures reply.ExecuteError? <==> outcome.failed != 0
    ensures reply == RunReply(outcome, executionCount)
    ensures xml == ReduceXml(outcome.outputXml, ImgSrcs(outcome.outputXml), path, cwd, env)
    ensures messages == RunMessages(listeners, silent, widget, rpa, outcome, env, path, cwd)
  {
    listeners := kernelListeners;
    if !(silent || widget) {
      listeners := listeners + [StatusEvent];
    }
    if !silent {
      listeners := listeners + [ReturnValue];
    }
    var returnValues := CollectedValues(listeners, outcome.values);
    messages := VerdictMessages(outcome, returnValues, silent, env.toMime);
    var shown;
    xml, shown := ProcessScreenshots(outcome.outputXml, path, cwd, env, silent);
    messages := messages + shown;
    var log := ReplaceAll(env.renderLog(xml, rpa), ReportUrl, NullReportUrl);
    if !silent {
      messages := messages + [LogButton(widget, log)];
    }
    if outcome.failed != 0 {
      reply := ExecuteError("", "", outcome.stdout);
    } else {
      reply := ExecuteOk(executionCount);
    }
  }

  // =======================================================================================
  // execute_robot

  /** `listener.variables.pop(variable.name, None)` for every suite variable. */
  method PurgeSuiteVariables(cache: map<string, string>, variables: seq<Item>) returns (r: map<string, string>)
    ensures forall k :: k in r <==> k in cache && k !in Names(variables)
    ensures forall k | k in r :: r[k] == cache[k]
  {
    r := cache;
    for i := 0 to |variables|
      invariant forall k :: k in r <==> k in cache && k !in Names(variables[..i])
      invariant forall k | k in r :: r[k] == cache[k]
    {
      assert Names(variables[..i + 1]) == Names(variables[..i]) + [variables[i].name];
      r := r - {variables[i].name};
    }
    assert variables[..|variables|] == variables;
  }

  /**
   * `execute_robot`: purge the suite's variables from the variables listener's cache, then run
   * the tests, or, with no tests, offer the new keywords as widgets and reply ok.
   */
  method ExecuteRobot(suite: Suite, listeners: seq<Listener>, cache: map<string, string>, newKeywords: seq<Item>,
                      silent: bool, outcome: RunOutcome, env: Env, path: string, cwd: string, executionCount: nat)
    returns (reply: Reply, newCache: map<string, string>, messages: seq<Message>, widgets: seq<WidgetSpec>)
    ensures Variables in listeners ==>
              forall k :: k in newCache <==> k in cache && k !in Names(suite.variables.items)
    ensures Variables !in listeners ==> newCache == cache
    ensures forall k | k in newCache :: newCache[k] == cache[k]
    ensures suite.tests.items == [] ==>
              reply == ExecuteOk(executionCount) && messages == [] && widgets == WidgetSpecs(newKeywords, suite.rpa)
    ensures suite.tests.items != [] ==>
              && widgets == []
              && (reply.ExecuteError? <==> outcome.failed != 0)
              && reply == RunReply(outcome, executionCount)
              && messages == RunMessages(RunListeners(listeners, silent, false), silent, false, suite.rpa,
                                         outcome, env, path, cwd)
  {
    newCache := cache;
    for i := 0 to |listeners|
      invariant Variables in listeners[..i] ==>
                  forall k :: k in newCache <==> k in cache && k !in Names(suite.variables.items)
      invariant Variables !in listeners[..i] ==> newCache == cache
      invariant forall k | k in newCache :: newCache[k] == cache[k]
    {
      assert listeners[..i + 1] == listeners[..i] + [listeners[i]];
      if listeners[i] == Variables {
        newCache := PurgeSuiteVariables(newCache, suite.variables.items);
      }
    }
    assert listeners[..|listeners|] == listeners;
    messages := [];
    widgets := [];
    if suite.tests.items != [] {
      var ran, xml;
      reply, messages, ran, xml := RunRobotSuite(listeners, silent, false, suite.rpa, outcome, env, path, cwd, executionCount);
    } else {
      widgets := WidgetSpecs(newKeywords, suite.rpa);
      reply := ExecuteOk(executionCount);
    }
  }
}
