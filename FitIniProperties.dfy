/** What `buildIni` and `loadFromFile` promise: how each kind of line lands in the
    document, and that loading the lines `Ini.toList` prints gives the document back when no
    printed line can be mistaken for another kind of line. */
module FitIniProperties {
  import opened Wrappers
  import opened JavaText
  import opened IniSection
  import opened IniOptions
  import opened IniDocument
  import opened FitIni

  // ------------------------------------------------------- single steps

  /** A header stores the open section under the rule of `Store` (in the default section
      before the first header, under its name afterwards) and opens an empty section. */
  lemma HeaderStep(st: ParseState, name: string, prefixes: seq<string>, o: Options)
    requires o.unknownLineOption.Some? && Distinct(Names(st.sections))
    ensures var r := Step(st, "[" + name + "]", prefixes, o);
      && r.current == Empty && r.currentName == Some(name)
      && (st.currentName.None? ==> r.defaultSection == st.current && r.sections == st.sections)
      && (st.currentName.Some? ==>
            r.defaultSection == st.defaultSection
            && Distinct(Names(r.sections))
            && Find(r.sections, st.currentName.value) == Some(st.current))
  {
    var line := "[" + name + "]";
    assert line[..1] == "[" && line[|line| - 1..] == "]";
    assert line[1..|line| - 1] == name;
    if st.currentName.Some? {
      PutFind(st.sections, st.currentName.value, st.current, "");
    }
  }

  /** A header naming a section that is already stored replaces that section where it
      stands: the order of the names does not change. */
  lemma RepeatedHeaderReplaces(st: ParseState, name: string, prefixes: seq<string>, o: Options)
    requires o.unknownLineOption.Some? && Distinct(Names(st.sections))
    requires st.currentName.Some? && Find(st.sections, st.currentName.value).Some?
    ensures var r := Step(st, "[" + name + "]", prefixes, o);
      && Names(r.sections) == Names(st.sections)
      && Find(r.sections, st.currentName.value) == Some(st.current)
  {
    HeaderStep(st, name, prefixes, o);
    PutFind(st.sections, st.currentName.value, st.current, "");
  }

  /** A key/value line sets the key's value in the open section; a key seen before keeps
      its single record and takes the later value. */
  lemma PairStep(st: ParseState, line: string, prefixes: seq<string>, o: Options)
    requires o.unknownLineOption.Some?
    requires Classify(line, prefixes, o.trimKey, o.trimValue).Pair?
    ensures var kind := Classify(line, prefixes, o.trimKey, o.trimValue);
      var r := Step(st, line, prefixes, o);
      && r.defaultSection == st.defaultSection && r.sections == st.sections
      && r.currentName == st.currentName
      && Get(r.current, kind.key) == Some(kind.value)
      && (kind.key in st.current.entries <==> r.current.records == st.current.records)
  {
    var kind := Classify(line, prefixes, o.trimKey, o.trimValue);
    SetItemGet(st.current, kind.key, kind.value, "");
  }

  /** A key/value line is split at its first `=`: without trimming, key, `=` and value
      give the line back, and the key holds no `=`. */
  lemma PairSplitsAtFirstEquals(line: string, prefixes: seq<string>)
    requires Classify(line, prefixes, false, false).Pair?
    ensures var kind := Classify(line, prefixes, false, false);
      kind.key + "=" + kind.value == line && '=' !in kind.key
  {
    var k := IndexOfChar(line, '=');
    assert line[..k] + "=" + line[k + 1..] == line;
  }

  /** Headers are recognised before comments, and comments before key/value pairs. */
  lemma ClassifyPrecedence(line: string, prefixes: seq<string>, trimKey: bool, trimValue: bool)
    ensures IsHeader(line) ==> Classify(line, prefixes, trimKey, trimValue).Header?
    ensures !IsHeader(line) && FirstPrefix(line, prefixes).Some? ==>
              Classify(line, prefixes, trimKey, trimValue).CommentLine?
    ensures Classify(line, prefixes, trimKey, trimValue).Pair? ==> '=' in line
    ensures Classify(line, prefixes, trimKey, trimValue).Unknown? <==>
              !IsHeader(line) && FirstPrefix(line, prefixes).None? && '=' !in line
  {
  }

  /** Lines without a header all land in the default section: nothing is stored under a
      name. */
  lemma {:induction false} NoHeaderNoSections(lines: seq<string>, o: Options)
    requires o.commentPrefix.Some? && o.unknownLineOption.Some?
    requires forall i :: 0 <= i < |lines| ==> !IsHeader(lines[i])
    ensures Run(Start, lines, o).currentName.None? && Run(Start, lines, o).sections == []
    ensures BuildOf(lines, o).sections == []
    ensures BuildOf(lines, o).defaultSection == Run(Start, lines, o).current
  {
    if lines != [] {
      var init := lines[..|lines| - 1];
      NoHeaderNoSections(init, o);
      assert !IsHeader(lines[|lines| - 1]);
    }
  }

  /** The loop over two runs of lines is the loop over the second from where the first
      left off. */
  lemma {:induction false} RunAppend(st: ParseState, a: seq<string>, b: seq<string>, o: Options)
    requires o.commentPrefix.Some? && o.unknownLineOption.Some?
    ensures Run(st, a + b, o) == Run(Run(st, a, o), b, o)
  {
    if b == [] {
      assert a + b == a;
    } else {
      var b' := b[..|b| - 1];
      assert (a + b)[..|a + b| - 1] == a + b';
      assert (a + b)[|a + b| - 1] == b[|b| - 1];
      RunAppend(st, a, b', o);
    }
  }

  // ------------------------------------------------------------ round trip

  /** No blanks at either end, so trimming keeps the text. */
  predicate Unpadded(s: string)
  {
    s == [] || (!IsSpace(s[0]) && !IsSpace(s[|s| - 1]))
  }

  /** Text that starts with neither `[` nor one of the comment prefixes `;` and `#`. */
  predicate Plain(s: string)
  {
    s == [] || (s[0] != '[' && s[0] != ';' && s[0] != '#')
  }

  /** A record whose printed line reads back as that record. */
  predicate LoadableRecord(v: SectionValue, r: Record)
  {
    match r.recordType
    case KeyValue =>
      '=' !in r.content && Plain(r.content) && Unpadded(r.content) && Unpadded(Str(Get(v, r.content)))
    case Comment => true
    case Other => '=' !in r.content && Plain(r.content)
  }

  /** A well-formed section every record of which reads back. */
  predicate Loadable(v: SectionValue)
  {
    WellFormed(v) && forall i :: 0 <= i < |v.records| ==> LoadableRecord(v, v.records[i])
  }

  /** A document whose printed text reads back: the comment prefix is one `buildIni`
      always recognises, the names are distinct and every section is loadable. */
  predicate LoadableIni(iv: IniValue)
  {
    && (iv.commentPrefix == ";" || iv.commentPrefix == "#")
    && Loadable(iv.defaultSection)
    && Distinct(Names(iv.sections))
    && forall i :: 0 <= i < |iv.sections| ==> Loadable(iv.sections[i].1)
  }

  /** Options that read printed text back: a prefix `buildIni` always recognises,
      comments kept, and other lines kept as they are. Trimming may be on or off. */
  predicate ReadBackOptions(o: Options)
  {
    && o.commentPrefix.Some? && (o.commentPrefix.value == ";" || o.commentPrefix.value == "#")
    && !o.dropComment && o.unknownLineOption == Some(Keep)
  }

  /** The line kind a loadable record prints as. */
  function KindOf(v: SectionValue, r: Record): LineKind
  {
    match r.recordType
    case KeyValue => Pair(r.content, Str(Get(v, r.content)))
    case Comment => CommentLine(r.content)
    case Other => Unknown
  }

  /** A line that does not start with a comment prefix is not a comment. */
  lemma NoPrefix(line: string, p: string)
    requires p == ";" || p == "#"
    requires line != [] && line[0] != ';' && line[0] != '#'
    ensures FirstPrefix(line, CommentPrefixes(p)).None?
  {
    var prefixes := CommentPrefixes(p);
    forall i | 0 <= i < |prefixes|
      ensures !StartsWith(line, prefixes[i])
    {
      assert prefixes[i] == ";" || prefixes[i] == "#";
      assert |prefixes[i]| == 1;
    }
  }

  /** A line that does not start with `[` is not a header. */
  lemma NotHeader(line: string)
    requires line != [] && line[0] != '['
    ensures !IsHeader(line)
  {
  }

  /** Each loadable record's line is classified as the record's kind. */
  lemma ClassifyLine(v: SectionValue, r: Record, p: string, trimKey: bool, trimValue: bool)
    requires p == ";" || p == "#"
    requires LoadableRecord(v, r)
    ensures Classify(Line(v, r, p), CommentPrefixes(p), trimKey, trimValue) == KindOf(v, r)
  {
    match r.recordType
    case KeyValue => ClassifyKeyValue(r.content, Str(Get(v, r.content)), p, trimKey, trimValue);
    case Comment => ClassifyComment(r.content, p, trimKey, trimValue);
    case Other => ClassifyOther(r.content, p, trimKey, trimValue);
  }

  /** A printed key/value line splits back into its key and value. */
  lemma ClassifyKeyValue(key: string, value: string, p: string, trimKey: bool, trimValue: bool)
    requires p == ";" || p == "#"
    requires '=' !in key && Plain(key) && Unpadded(key) && Unpadded(value)
    ensures Classify(key + "=" + value, CommentPrefixes(p), trimKey, trimValue) == Pair(key, value)
  {
    var line := key + "=" + value;
    assert line[0] == if key == [] then '=' else key[0];
    NotHeader(line);
    NoPrefix(line, p);
    FirstEquals(key, value);
    assert Classify(line, CommentPrefixes(p), trimKey, trimValue) == PairOf(line, trimKey, trimValue);
    PairOfPrinted(key, value, trimKey, trimValue);
  }

  /** Splitting a printed pair at its first `=` gives the key and the value, and trimming
      them changes nothing. */
  lemma PairOfPrinted(key: string, value: string, trimKey: bool, trimValue: bool)
    requires '=' !in key && Unpadded(key) && Unpadded(value)
    ensures '=' in key + "=" + value
    ensures PairOf(key + "=" + value, trimKey, trimValue) == Pair(key, value)
  {
    var line := key + "=" + value;
    FirstEquals(key, value);
    assert line[..|key|] == key && line[|key| + 1..] == value;
    TrimNoSpace(key);
    TrimNoSpace(value);
    assert TrimIf(trimKey, key) == key && TrimIf(trimValue, value) == value;
  }

  /** The first `=` of a printed key/value line is the one after the key. */
  lemma FirstEquals(key: string, value: string)
    requires '=' !in key
    ensures '=' in key + "=" + value && IndexOfChar(key + "=" + value, '=') == |key|
  {
    var line := key + "=" + value;
    assert line[|key|] == '=';
    var k := IndexOfChar(line, '=');
    assert line[..|key|] == key;
  }

  /** A printed comment line reads back as the comment's text. */
  lemma ClassifyComment(text: string, p: string, trimKey: bool, trimValue: bool)
    requires p == ";" || p == "#"
    ensures Classify(p + text, CommentPrefixes(p), trimKey, trimValue) == CommentLine(text)
  {
    var line := p + text;
    assert line[..1] == p;
    assert !IsHeader(line) by {
      assert line[..1] != "[";
    }
    if p == "#" {
      assert !StartsWith(line, ";") by {
        assert line[..1] != ";";
      }
    }
    assert FirstPrefix(line, CommentPrefixes(p)) == Some(p);
    assert line[|p|..] == text;
  }

  /** Printed other text is neither a header, a comment nor a pair. */
  lemma ClassifyOther(text: string, p: string, trimKey: bool, trimValue: bool)
    requires p == ";" || p == "#"
    requires '=' !in text && Plain(text)
    ensures Classify(text, CommentPrefixes(p), trimKey, trimValue) == Unknown
  {
    var prefixes := CommentPrefixes(p);
    if text == [] {
      assert !StartsWith(text, "[");
      assert forall i :: 0 <= i < |prefixes| ==> !StartsWith(text, prefixes[i]);
    } else {
      NotHeader(text);
      NoPrefix(text, p);
    }
  }

  /** A section rebuilt from its first `k` records: those records, and the map restricted
      to the keys they name. */
  function Partial(v: SectionValue, k: nat): SectionValue
    requires k <= |v.records|
  {
    SectionValue(map key | key in v.entries && Record(key, KeyValue) in v.records[..k] :: v.entries[key],
                 v.records[..k])
  }

  /** One more key/value record: a key the first `k` records do not name is set. */
  lemma PartialKeyValue(v: SectionValue, k: nat)
    requires WellFormed(v) && k < |v.records| && v.records[k].recordType == KeyValue
    ensures var key := v.records[k].content;
      && key in v.entries && key !in Partial(v, k).entries
      && Partial(v, k + 1) == SetItemOf(Partial(v, k), key, v.entries[key])
  {
    var r := v.records[k];
    var key := r.content;
    assert r == Record(key, KeyValue);
    assert v.records[..k + 1] == v.records[..k] + [r];
    forall j | 0 <= j < k
      ensures v.records[..k][j] != r
    {
      assert v.records[j].recordType != KeyValue || v.records[j].content != key;
    }
    assert r !in v.records[..k];
    var next := SetItemOf(Partial(v, k), key, v.entries[key]);
    assert next.entries == Partial(v, k + 1).entries;
  }

  /** One more comment or other record: the map does not change. */
  lemma PartialOther(v: SectionValue, k: nat)
    requires k < |v.records| && v.records[k].recordType != KeyValue
    ensures Partial(v, k + 1)
         == AddCommentOf(Partial(v, k), v.records[k].content, v.records[k].recordType == Comment)
  {
    var r := v.records[k];
    assert v.records[..k + 1] == v.records[..k] + [r];
    var next := AddCommentOf(Partial(v, k), r.content, r.recordType == Comment);
    assert next.entries == Partial(v, k + 1).entries;
  }

  /** Reading one more printed record line rebuilds one more record. */
  lemma PartialStep(st: ParseState, v: SectionValue, k: nat, o: Options)
    requires ReadBackOptions(o)
    requires Loadable(v) && k < |v.records| && st.current == Partial(v, k)
    ensures Step(st, Line(v, v.records[k], o.commentPrefix.value), CommentPrefixes(o.commentPrefix.value), o)
         == st.(current := Partial(v, k + 1))
  {
    var r := v.records[k];
    ClassifyLine(v, r, o.commentPrefix.value, o.trimKey, o.trimValue);
    if r.recordType == KeyValue {
      PartialKeyValue(v, k);
    } else {
      PartialOther(v, k);
    }
  }

  /** Reading the printed lines of a loadable section into an empty open section rebuilds
      the section. */
  lemma {:induction false} SectionReadBack(st: ParseState, v: SectionValue, k: nat, o: Options)
    requires ReadBackOptions(o)
    requires Loadable(v) && k <= |v.records| && st.current == Empty
    ensures Run(st, ToListOf(v, o.commentPrefix.value)[..k], o) == st.(current := Partial(v, k))
  {
    var lines := ToListOf(v, o.commentPrefix.value);
    if k == 0 {
      assert lines[..0] == [];
      assert Partial(v, 0).entries == map[];
    } else {
      var prev := Run(st, lines[..k - 1], o);
      SectionReadBack(st, v, k - 1, o);
      assert prev == st.(current := Partial(v, k - 1));
      RunPrefix(st, lines, k, o);
      assert lines[k - 1] == Line(v, v.records[k - 1], o.commentPrefix.value);
      PartialStep(prev, v, k - 1, o);
    }
  }

  /** The loop over the first `k` lines is one step after the loop over the first `k - 1`. */
  lemma RunPrefix(st: ParseState, lines: seq<string>, k: nat, o: Options)
    requires o.commentPrefix.Some? && o.unknownLineOption.Some?
    requires 0 < k <= |lines|
    ensures Run(st, lines[..k], o)
         == Step(Run(st, lines[..k - 1], o), lines[k - 1], CommentPrefixes(o.commentPrefix.value), o)
  {
    assert lines[..k][..k - 1] == lines[..k - 1];
  }

  /** All of a loadable section's records rebuild the section itself. */
  lemma PartialAll(v: SectionValue)
    requires WellFormed(v)
    ensures Partial(v, |v.records|) == v
  {
    assert v.records[..|v.records|] == v.records;
  }

  /** The printed lines of a loadable section, read into an empty open section. */
  lemma SectionLinesReadBack(st: ParseState, v: SectionValue, o: Options)
    requires ReadBackOptions(o)
    requires Loadable(v) && st.current == Empty
    ensures Run(st, ToListOf(v, o.commentPrefix.value), o) == st.(current := v)
  {
    var lines := ToListOf(v, o.commentPrefix.value);
    SectionReadBack(st, v, |v.records|, o);
    assert lines[..|v.records|] == lines;
    PartialAll(v);
  }

  /** Reading the printed named sections after whatever was stored so far appends them,
      in order, to the stored sections. */
  lemma {:induction false} SectionsReadBack(st: ParseState, ss: seq<(string, SectionValue)>, o: Options)
    requires ReadBackOptions(o)
    requires forall i :: 0 <= i < |ss| ==> Loadable(ss[i].1)
    requires Distinct(Names(Store(st).sections + ss))
    ensures var r := Store(Run(st, SectionsLines(ss, o.commentPrefix.value), o));
      r.defaultSection == Store(st).defaultSection && r.sections == Store(st).sections + ss
    decreases |ss|
  {
    var p := o.commentPrefix.value;
    if ss == [] {
      assert Store(st).sections + ss == Store(st).sections;
    } else {
      var st2 := FirstSectionReadBack(st, ss, o);
      forall i | 0 <= i < |ss| - 1
        ensures Loadable(ss[1..][i].1)
      {
        assert ss[1..][i] == ss[i + 1];
      }
      SectionsReadBack(st2, ss[1..], o);
    }
  }

  /** Reading the first printed named section puts it after the sections stored so far,
      in the state the rest of the lines start from. */
  lemma FirstSectionReadBack(st: ParseState, ss: seq<(string, SectionValue)>, o: Options)
    returns (st2: ParseState)
    requires ReadBackOptions(o) && ss != [] && Loadable(ss[0].1)
    requires Distinct(Names(Store(st).sections + ss))
    ensures Run(st, SectionsLines(ss, o.commentPrefix.value), o) == Run(st2, SectionsLines(ss[1..], o.commentPrefix.value), o)
    ensures Store(st2).sections + ss[1..] == Store(st).sections + ss
    ensures Store(st2).defaultSection == Store(st).defaultSection
  {
    var p := o.commentPrefix.value;
    var name, v := ss[0].0, ss[0].1;
    var block := ["[" + name + "]"] + ToListOf(v, p);
    SectionBlockReadBack(st, name, v, o);
    st2 := Store(st).(current := v, currentName := Some(name));
    RunAppend(st, block, SectionsLines(ss[1..], p), o);
    PutFresh(Store(st).sections, ss);
  }

  /** A header line and the printed lines of a loadable section: the section read back is
      open under that name. */
  lemma SectionBlockReadBack(st: ParseState, name: string, v: SectionValue, o: Options)
    requires ReadBackOptions(o) && Loadable(v)
    ensures Run(st, ["[" + name + "]"] + ToListOf(v, o.commentPrefix.value), o)
         == Store(st).(current := v, currentName := Some(name))
  {
    var header := "[" + name + "]";
    HeaderOpens(st, name, o);
    RunAppend(st, [header], ToListOf(v, o.commentPrefix.value), o);
    assert Run(st, [header], o) == Step(st, header, CommentPrefixes(o.commentPrefix.value), o) by {
      assert [header][..0] == [];
    }
    SectionLinesReadBack(Store(st).(current := Empty, currentName := Some(name)), v, o);
  }

  /** Putting the first of a list of sections whose names are new appends it. */
  lemma PutFresh(acc: seq<(string, SectionValue)>, ss: seq<(string, SectionValue)>)
    requires ss != [] && Distinct(Names(acc + ss))
    ensures Put(acc, ss[0].0, ss[0].1) + ss[1..] == acc + ss
  {
    var name := ss[0].0;
    forall j | 0 <= j < |acc|
      ensures acc[j].0 != name
    {
      assert Names(acc + ss)[j] == acc[j].0 && Names(acc + ss)[|acc|] == name;
    }
    assert Put(acc, name, ss[0].1) == acc + [ss[0]];
    assert ss == [ss[0]] + ss[1..];
  }

  /** The step of a printed header line. */
  lemma HeaderOpens(st: ParseState, name: string, o: Options)
    requires o.commentPrefix.Some? && o.unknownLineOption.Some?
    ensures Step(st, "[" + name + "]", CommentPrefixes(o.commentPrefix.value), o)
         == Store(st).(current := Empty, currentName := Some(name))
  {
    var line := "[" + name + "]";
    assert line[..1] == "[" && line[|line| - 1..] == "]";
    assert line[1..|line| - 1] == name;
  }

  /** Loading the text `toList` prints for a loadable document, with options that keep
      comments and other lines and use the document's prefix, gives the document back. */
  lemma LoadToListRoundTrip(iv: IniValue, o: Options)
    requires LoadableIni(iv) && ReadBackOptions(o) && o.commentPrefix.value == iv.commentPrefix
    ensures LoadOf(Ok(IniToList(iv)), o) == Ok(iv)
  {
    var p := iv.commentPrefix;
    var head, body := ToListOf(iv.defaultSection, p), SectionsLines(iv.sections, p);
    var st := Start.(current := iv.defaultSection);
    assert Run(Start, IniToList(iv), o) == Run(st, body, o) by {
      RunAppend(Start, head, body, o);
      SectionLinesReadBack(Start, iv.defaultSection, o);
    }
    var r := Store(Run(st, body, o));
    assert r.defaultSection == iv.defaultSection && r.sections == iv.sections by {
      assert Store(st).sections + iv.sections == iv.sections;
      SectionsReadBack(st, iv.sections, o);
    }
    assert BuildOf(IniToList(iv), o) == IniValue(r.defaultSection, r.sections, DEFAULT_COMMENT_PREFIX);
  }

  // ------------------------------------------------------------ loadFromFile

  /** `loadFromFile` checks its options before reading: invalid options fail the same way
      whatever the file holds. */
  lemma InvalidOptionsRejected(read: Result<seq<string>>, o: Options)
    requires !ValidOptions(o)
    ensures LoadOf(read, o) == Err(IllegalArgument)
  {
  }

  /** A read failure gives an empty document carrying the option's prefix when
      `ignoreFileIoError` is set, and is passed on otherwise. */
  lemma ReadFailure(e: Exception, o: Options)
    requires ValidOptions(o)
    ensures o.ignoreFileIoError ==> LoadOf(Err(e), o) == Ok(IniValue(Empty, [], o.commentPrefix.value))
    ensures !o.ignoreFileIoError ==> LoadOf(Err(e), o) == Err(e)
  {
  }

  /** A successful load carries the option's comment prefix, not the default one. */
  lemma LoadedPrefix(lines: seq<string>, o: Options)
    requires ValidOptions(o)
    ensures LoadOf(Ok(lines), o).Ok? && LoadOf(Ok(lines), o).value.commentPrefix == o.commentPrefix.value
  {
  }
}
