/** `fit.ini.FitIni`: the line-by-line parser `buildIni` and the argument checks and I/O
    fallback of `loadFromFile(path, arg)`. Reading the file is not modelled: the lines the
    reader yields, or the I/O failure it reports, are a parameter. */
module FitIni {
  import opened Wrappers
  import opened JavaText
  import opened IniSection
  import opened IniOptions
  import opened IniDocument

  predicate StartsWith(s: string, p: string)
  {
    |p| <= |s| && s[..|p|] == p
  }

  predicate EndsWith(s: string, p: string)
  {
    |p| <= |s| && s[|s| - |p|..] == p
  }

  /** `Stream.of(";", "#", prefix).distinct()`, in that order. */
  function CommentPrefixes(prefix: string): (r: seq<string>)
    ensures |r| >= 2 && r[..2] == [";", "#"] && prefix in r && Distinct(r)
  {
    if prefix == ";" || prefix == "#" then [";", "#"] else [";", "#", prefix]
  }

  /** The first prefix of the list that the line starts with. */
  function FirstPrefix(line: string, prefixes: seq<string>): (r: Option<string>)
    ensures r.None? <==> forall i :: 0 <= i < |prefixes| ==> !StartsWith(line, prefixes[i])
    ensures r.Some? ==> exists i :: 0 <= i < |prefixes| && prefixes[i] == r.value
                                    && StartsWith(line, r.value)
                                    && forall j :: 0 <= j < i ==> !StartsWith(line, prefixes[j])
  {
    if prefixes == [] then None
    else if StartsWith(line, prefixes[0]) then Some(prefixes[0])
    else
      var r := FirstPrefix(line, prefixes[1..]);
      assert r.Some? ==> exists i :: 0 <= i < |prefixes| - 1 && prefixes[1..][i] == r.value
                                    && StartsWith(line, r.value)
                                    && forall j :: 0 <= j < i ==> !StartsWith(line, prefixes[1..][j]);
      r
  }

  /** The position of the first `c` in `s`. */
  function IndexOfChar(s: string, c: char): (r: nat)
    requires c in s
    ensures r < |s| && s[r] == c && c !in s[..r]
  {
    if s[0] == c then 0 else 1 + IndexOfChar(s[1..], c)
  }

  /** What a line is, in the order `buildIni` tests it. */
  datatype LineKind = Header(name: string) | CommentLine(text: string) | Pair(key: string, value: string) | Unknown

  /** `line.startsWith("[") && line.endsWith("]")`. */
  predicate IsHeader(line: string)
    ensures IsHeader(line) ==> |line| >= 2
  {
    if StartsWith(line, "[") && EndsWith(line, "]") then
      assert line[0] == line[..1][0] && line[|line| - 1] == line[|line| - 1..][0];
      true
    else false
  }

  function Classify(line: string, prefixes: seq<string>, trimKey: bool, trimValue: bool): LineKind
  {
    if IsHeader(line) then Header(line[1..|line| - 1])
    else match FirstPrefix(line, prefixes)
      case Some(p) => CommentLine(line[|p|..])
      case None =>
        if '=' in line then PairOf(line, trimKey, trimValue)
        else Unknown
  }

  /** `line.split("=", 2)`: key and value either side of the first `=`, each trimmed when
      the options ask for it. */
  function PairOf(line: string, trimKey: bool, trimValue: bool): LineKind
    requires '=' in line
  {
    var k := IndexOfChar(line, '=');
    Pair(TrimIf(trimKey, line[..k]), TrimIf(trimValue, line[k + 1..]))
  }

  /** `String.trim` when the option asks for it. */
  function TrimIf(trim: bool, s: string): string
  {
    if trim then Trim(s) else s
  }

  /** The parser's state: what has been stored in the document so far, the section being
      filled, and its name (none before the first header). */
  datatype ParseState = ParseState(
    defaultSection: SectionValue,
    sections: seq<(string, SectionValue)>,
    current: SectionValue,
    currentName: Option<string>)

  const Start := ParseState(Empty, [], Empty, None)

  /** Closing the current section: before the first header it becomes the default section,
      afterwards it is put under its name (replacing an earlier section of that name). */
  function Store(st: ParseState): ParseState
  {
    match st.currentName
    case None => st.(defaultSection := st.current)
    case Some(n) => st.(sections := Put(st.sections, n, st.current))
  }

  /** What the options say to do with an unrecognised line. */
  function UnknownLine(current: SectionValue, line: string, option: LineOption): SectionValue
  {
    match option
    case Drop => current
    case Keep => AddCommentOf(current, line, false)
    case AsMultiLine => AppendToLastOf(current, "\n" + line)
    case AsMultiLineCombined => AppendToLastOf(current, line)
    case ForceToComment => AddCommentOf(current, line, true)
  }

  /** What a line that is not a header does to the open section. */
  function Apply(current: SectionValue, kind: LineKind, line: string, o: Options): SectionValue
    requires o.unknownLineOption.Some?
  {
    match kind
    case Header(_) => current
    case CommentLine(text) => if o.dropComment then current else AddCommentOf(current, text, true)
    case Pair(key, value) => SetItemOf(current, key, value)
    case Unknown => UnknownLine(current, line, o.unknownLineOption.value)
  }

  /** One iteration of the loop of `buildIni`, with the comment prefixes already listed: a
      header stores the open section and opens an empty one under the new name. */
  function Step(st: ParseState, line: string, prefixes: seq<string>, o: Options): ParseState
    requires o.unknownLineOption.Some?
  {
    match Classify(line, prefixes, o.trimKey, o.trimValue)
    case Header(name) => Store(st).(current := Empty, currentName := Some(name))
    case kind => st.(current := Apply(st.current, kind, line, o))
  }

  /** The loop over a list of lines, from a given state. */
  function Run(st: ParseState, lines: seq<string>, o: Options): ParseState
    requires o.commentPrefix.Some? && o.unknownLineOption.Some?
  {
    if lines == [] then st
    else Step(Run(st, lines[..|lines| - 1], o), lines[|lines| - 1], CommentPrefixes(o.commentPrefix.value), o)
  }

  /** The loop one line further: one more `Step`. */
  lemma RunSnoc(lines: seq<string>, i: nat, o: Options)
    requires o.commentPrefix.Some? && o.unknownLineOption.Some? && i < |lines|
    ensures Run(Start, lines[..i + 1], o)
            == Step(Run(Start, lines[..i], o), lines[i], CommentPrefixes(o.commentPrefix.value), o)
  {
    assert lines[..i + 1][..i] == lines[..i];
  }

  /** `buildIni(lines, arg)`: the loop, then the last section stored; the document keeps the
      prefix of `new Ini()`. */
  function BuildOf(lines: seq<string>, o: Options): IniValue
    requires o.commentPrefix.Some? && o.unknownLineOption.Some?
  {
    var st := Store(Run(Start, lines, o));
    IniValue(st.defaultSection, st.sections, DEFAULT_COMMENT_PREFIX)
  }

  /** The checks `loadFromFile(path, arg)` makes before it reads anything. */
  predicate ValidOptions(o: Options)
  {
    o.commentPrefix.Some? && o.commentPrefix.value != [] && o.unknownLineOption.Some?
  }

  /** `loadFromFile(path, arg)`, with `read` the lines of the file or the I/O failure. An
      empty or missing comment prefix, or a missing line option, is rejected first; a read
      failure gives an empty document when `ignoreFileIoError` is set. The result carries the
      option's comment prefix. */
  function LoadOf(read: Result<seq<string>>, o: Options): Result<IniValue>
  {
    if !ValidOptions(o) then Err(IllegalArgument)
    else match read
      case Err(e) =>
        if o.ignoreFileIoError then Ok(IniValue(Empty, [], o.commentPrefix.value)) else Err(e)
      case Ok(lines) => Ok(BuildOf(lines, o).(commentPrefix := o.commentPrefix.value))
  }

  // ------------------------------------------------------------ the methods

  /** The inner loop of `buildIni` over the comment prefixes. */
  method MatchCommentPrefix(line: string, prefixes: seq<string>) returns (found: Option<string>)
    ensures found == FirstPrefix(line, prefixes)
  {
    var i := 0;
    while i < |prefixes|
      invariant 0 <= i <= |prefixes|
      invariant FirstPrefix(line, prefixes) == FirstPrefix(line, prefixes[i..])
    {
      if StartsWith(line, prefixes[i]) {
        return Some(prefixes[i]);
      }
      assert prefixes[i..][1..] == prefixes[i + 1..];
      i := i + 1;
    }
    return None;
  }

  /** The parser state held by the document under construction and the open section. */
  function StateOf(ini: Ini, sec: Section, secName: Option<string>): ParseState
    reads ini, ini.Objects(), sec
  {
    var c := ini.Contents();
    ParseState(c.defaultSection, c.sections, sec.Value(), secName)
  }

  /** A header line stores the open section and opens an empty one under the bracketed name. */
  lemma StepHeader(st: ParseState, line: string, prefixes: seq<string>, o: Options)
    requires o.unknownLineOption.Some? && IsHeader(line)
    ensures Step(st, line, prefixes, o) == Store(st).(current := Empty, currentName := Some(line[1..|line| - 1]))
  {
  }

  /** Any other line changes the open section alone. */
  lemma StepOther(st: ParseState, line: string, prefixes: seq<string>, o: Options)
    requires o.unknownLineOption.Some? && !IsHeader(line)
    ensures Step(st, line, prefixes, o)
            == st.(current := Apply(st.current, Classify(line, prefixes, o.trimKey, o.trimValue), line, o))
  {
  }

  /** Storing the open section into the document (the header branch, and the end). */
  method StoreSection(ini: Ini, sec: Section, secName: Option<string>)
    requires ini.Valid() && sec !in ini.Objects()
    modifies ini
    ensures ini.Valid() && ini.commentPrefix == old(ini.commentPrefix)
    ensures StateOf(ini, sec, secName) == Store(old(StateOf(ini, sec, secName)))
  {
    ghost var values := SectionValues(ini.sections);
    if secName.None? {
      ini.defaultSection := sec;
      assert SectionValues(ini.sections) == values;
    } else {
      SectionValuesPut(ini.sections, secName.value, sec);
      ghost var put := Put(values, secName.value, sec.Value());
      ghost var ss := Put(ini.sections, secName.value, sec);
      var done := ini.SetSection(secName, Some(sec));
      SectionValuesFrame(ss);
    }
  }

  /** Sections whose objects are unchanged have unchanged values. */
  twostate lemma SectionValuesFrame(ss: seq<(string, Section)>)
    requires forall j :: 0 <= j < |ss| ==> unchanged(ss[j].1)
    ensures SectionValues(ss) == old(SectionValues(ss))
  {
  }

  /** The tests of the loop body after the header test, in their order: a listed comment
      prefix, then an `=`, else an unknown line. */
  method ReadLineKind(line: string, prefixes: seq<string>, trimKey: bool, trimValue: bool)
    returns (kind: LineKind)
    requires !IsHeader(line)
    ensures kind == Classify(line, prefixes, trimKey, trimValue) && !kind.Header?
  {
    var prefix := MatchCommentPrefix(line, prefixes);
    if prefix.Some? {
      kind := CommentLine(line[|prefix.value|..]);
    } else if '=' in line {
      kind := PairOf(line, trimKey, trimValue);
    } else {
      kind := Unknown;
    }
  }

  /** The non-header branches of the loop body: they change the open section only. */
  method SectionStep(sec: Section, line: string, prefixes: seq<string>, o: Options)
    requires o.unknownLineOption.Some? && !IsHeader(line)
    modifies sec
    ensures sec.Value() == Apply(old(sec.Value()), Classify(line, prefixes, o.trimKey, o.trimValue), line, o)
  {
    var kind := ReadLineKind(line, prefixes, o.trimKey, o.trimValue);
    ApplyToSection(sec, kind, line, o);
  }

  /** What the loop body does to the open section for a line of the given kind. */
  method ApplyToSection(sec: Section, kind: LineKind, line: string, o: Options)
    requires o.unknownLineOption.Some? && !kind.Header?
    modifies sec
    ensures sec.Value() == Apply(old(sec.Value()), kind, line, o)
  {
    var done;
    match kind {
      case CommentLine(text) =>
        if !o.dropComment {
          done := sec.AddComment(Some(text), true);
        }
      case Pair(key, value) =>
        done := sec.SetItem(Some(key), Some(value));
      case Unknown =>
        match o.unknownLineOption.value {
          case Drop =>
          case Keep =>
            done := sec.AddComment(Some(line), false);
          case AsMultiLine =>
            done := sec.AppendToLast(Some("\n" + line));
          case AsMultiLineCombined =>
            done := sec.AppendToLast(Some(line));
          case ForceToComment =>
            done := sec.AddComment(Some(line), true);
        }
    }
  }

  /** One iteration of the loop body of `buildIni`. */
  method ParseLine(ini: Ini, sec: Section, secName: Option<string>, line: string, prefixes: seq<string>,
                   o: Options)
    returns (next: Section, nextName: Option<string>)
    requires o.unknownLineOption.Some? && ini.Valid() && sec !in ini.Objects()
    modifies ini, sec
    ensures ini.Valid() && ini.commentPrefix == old(ini.commentPrefix)
    ensures next !in ini.Objects() && (next == sec || fresh(next))
    ensures StateOf(ini, next, nextName) == Step(old(StateOf(ini, sec, secName)), line, prefixes, o)
  {
    ghost var st := StateOf(ini, sec, secName);
    if IsHeader(line) {
      StepHeader(st, line, prefixes, o);
      StoreSection(ini, sec, secName);
      next := new Section();
      nextName := Some(line[1..|line| - 1]);
    } else {
      StepOther(st, line, prefixes, o);
      ghost var c := ini.Contents();
      SectionStep(sec, line, prefixes, o);
      SectionValuesFrame(ini.sections);
      assert ini.Contents() == c;
      next, nextName := sec, secName;
    }
  }

  /** `buildIni(lines, arg)`. */
  method BuildIni(lines: seq<string>, arg: LoadOption) returns (ini: Ini)
    requires arg.commentPrefix.Some? && arg.unknownLineOption.Some?
    ensures fresh(ini) && ini.Valid() && ini.Contents() == BuildOf(lines, arg.Value())
  {
    var o := arg.Value();
    ini := new Ini();
    var sec := new Section();
    var secName: Option<string> := None;
    var prefixes := CommentPrefixes(arg.commentPrefix.value);
    var i := 0;
    while i < |lines|
      invariant 0 <= i <= |lines|
      invariant fresh(ini) && fresh(sec) && ini.Valid() && sec !in ini.Objects()
      invariant ini.commentPrefix == DEFAULT_COMMENT_PREFIX
      invariant StateOf(ini, sec, secName) == Run(Start, lines[..i], o)
    {
      RunSnoc(lines, i, o);
      sec, secName := ParseLine(ini, sec, secName, lines[i], prefixes, o);
      i := i + 1;
    }
    assert lines[..i] == lines;
    StoreSection(ini, sec, secName);
  }

  /** `loadFromFile(path, arg)`: the checks, then `buildIni` over what was read, then the
      option's comment prefix. */
  method LoadFromFile(read: Result<seq<string>>, arg: LoadOption) returns (r: Result<Ini>)
    ensures r.Err? <==> LoadOf(read, arg.Value()).Err?
    ensures r.Err? ==> r.error == LoadOf(read, arg.Value()).error
    ensures r.Ok? ==> fresh(r.value) && r.value.Valid() && r.value.Contents() == LoadOf(read, arg.Value()).value
  {
    if arg.commentPrefix.None? || arg.commentPrefix.value == [] {
      return Err(IllegalArgument);
    }
    if arg.unknownLineOption.None? {
      return Err(IllegalArgument);
    }
    var ini;
    match read {
      case Err(e) =>
        if !arg.ignoreFileIoError {
          return Err(e);
        }
        ini := new Ini();
      case Ok(lines) =>
        ini := BuildIni(lines, arg);
    }
    var done := ini.SetCommentPrefix(arg.commentPrefix);
    return Ok(ini);
  }
}
