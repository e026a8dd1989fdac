/** `fit.ini.Ini`: a default section plus named sections kept in a `LinkedHashMap`, so
    insertion order is part of the state. The map is a sequence of (name, section) pairs
    with distinct names: `Put` replaces in place or appends, `Delete` removes the entry. */
module IniDocument {
  import opened Wrappers
  import opened IniSection
  import IniOptions

  // ------------------------------------------------- insertion-ordered maps

  function Names<T>(ss: seq<(string, T)>): (r: seq<string>)
    ensures |r| == |ss| && forall i :: 0 <= i < |ss| ==> r[i] == ss[i].0
  {
    seq(|ss|, i requires 0 <= i < |ss| => ss[i].0)
  }

  predicate Distinct(names: seq<string>)
  {
    forall i, j :: 0 <= i < j < |names| ==> names[i] != names[j]
  }

  /** The position of the entry with this name; `None` when there is none. */
  function IndexOf<T>(ss: seq<(string, T)>, name: string): (r: Option<nat>)
    ensures r.Some? ==> r.value < |ss| && ss[r.value].0 == name
    ensures r.None? <==> forall j :: 0 <= j < |ss| ==> ss[j].0 != name
  {
    if ss == [] then None
    else if ss[0].0 == name then Some(0)
    else match IndexOf(ss[1..], name)
      case None => None
      case Some(i) => Some(i + 1)
  }

  /** `get(name)`. */
  function Find<T>(ss: seq<(string, T)>, name: string): Option<T>
  {
    match IndexOf(ss, name)
    case None => None
    case Some(i) => Some(ss[i].1)
  }

  /** `put(name, x)`: an existing entry keeps its position and takes the new value; a new
      name goes to the end. */
  function Put<T>(ss: seq<(string, T)>, name: string, x: T): seq<(string, T)>
  {
    match IndexOf(ss, name)
    case None => ss + [(name, x)]
    case Some(i) => ss[i := (name, x)]
  }

  /** `remove(name)`. */
  function Delete<T>(ss: seq<(string, T)>, name: string): seq<(string, T)>
  {
    match IndexOf(ss, name)
    case None => ss
    case Some(i) => ss[..i] + ss[i + 1..]
  }

  /** With distinct names, the entry at position `i` is the one `Find` returns. */
  lemma FindAt<T>(ss: seq<(string, T)>, i: nat)
    requires Distinct(Names(ss)) && i < |ss|
    ensures Find(ss, ss[i].0) == Some(ss[i].1)
  {
    var j := IndexOf(ss, ss[i].0).value;
    assert Names(ss)[j] == Names(ss)[i];
  }

  /** After `put`, the name maps to the new value and every other name is unaffected;
      names stay distinct, and the count grows by one exactly when the name is new. */
  lemma PutFind<T>(ss: seq<(string, T)>, name: string, x: T, other: string)
    requires Distinct(Names(ss))
    ensures Distinct(Names(Put(ss, name, x)))
    ensures Find(Put(ss, name, x), name) == Some(x)
    ensures other != name ==> Find(Put(ss, name, x), other) == Find(ss, other)
    ensures Find(ss, name).Some? ==> Names(Put(ss, name, x)) == Names(ss)
    ensures Find(ss, name).None? ==> Names(Put(ss, name, x)) == Names(ss) + [name]
  {
    var r := Put(ss, name, x);
    assert Names(r) == if Find(ss, name).Some? then Names(ss) else Names(ss) + [name];
    assert Find(r, name) == Some(x) by {
      FindAt(r, if Find(ss, name).Some? then IndexOf(ss, name).value else |ss|);
    }
    if other != name {
      match IndexOf(ss, other)
      case None =>
        assert IndexOf(r, other).None?;
      case Some(j) =>
        FindAt(r, j);
    }
  }

  /** Removing the entry at position `i` keeps the other entries in order, and their names
      stay distinct from each other and from the removed one. */
  lemma RemoveAt<T>(ss: seq<(string, T)>, i: nat)
    requires Distinct(Names(ss)) && i < |ss|
    ensures var r := ss[..i] + ss[i + 1..];
      && |r| == |ss| - 1
      && (forall j :: 0 <= j < |r| ==> r[j] == if j < i then ss[j] else ss[j + 1])
      && Distinct(Names(r))
      && forall j :: 0 <= j < |r| ==> r[j].0 != ss[i].0
  {
    var r := ss[..i] + ss[i + 1..];
    assert forall j :: 0 <= j < |r| ==> r[j] == if j < i then ss[j] else ss[j + 1];
    forall a, b | 0 <= a < b < |r|
      ensures Names(r)[a] != Names(r)[b]
    {
      var a', b' := if a < i then a else a + 1, if b < i then b else b + 1;
      assert Names(ss)[a'] != Names(ss)[b'];
    }
    forall j | 0 <= j < |r|
      ensures r[j].0 != ss[i].0
    {
      var j' := if j < i then j else j + 1;
      assert Names(ss)[j'] != Names(ss)[i];
    }
  }

  /** After `remove`, the name is gone and every other name is unaffected. */
  lemma DeleteFind<T>(ss: seq<(string, T)>, name: string, other: string)
    requires Distinct(Names(ss))
    ensures Distinct(Names(Delete(ss, name)))
    ensures Find(Delete(ss, name), name) == None
    ensures other != name ==> Find(Delete(ss, name), other) == Find(ss, other)
    ensures |Delete(ss, name)| == if Find(ss, name).Some? then |ss| - 1 else |ss|
  {
    match IndexOf(ss, name)
    case None =>
    case Some(i) =>
      var r := Delete(ss, name);
      assert r == ss[..i] + ss[i + 1..];
      RemoveAt(ss, i);
      assert IndexOf(r, name).None?;
      if other != name {
        RemoveAtFind(ss, i, other);
      }
  }

  /** Removing the entry at position `i` leaves every other name's entry as it was. */
  lemma RemoveAtFind<T>(ss: seq<(string, T)>, i: nat, other: string)
    requires Distinct(Names(ss)) && i < |ss| && other != ss[i].0
    ensures Find(ss[..i] + ss[i + 1..], other) == Find(ss, other)
  {
    var r := ss[..i] + ss[i + 1..];
    RemoveAt(ss, i);
    match IndexOf(ss, other)
    case None =>
      assert IndexOf(r, other).None?;
    case Some(j) =>
      var j' := if j < i then j else j - 1;
      assert r[j'] == ss[j];
      FindAt(r, j');
  }

  /** `rename(old, new)` on the map: the section moves to the new name (to the end, unless
      the new name already had a position, which it keeps), the old name is gone, and every
      other name is unaffected. */
  lemma RenameFind<T>(ss: seq<(string, T)>, oldName: string, newName: string, other: string)
    requires Distinct(Names(ss)) && oldName != newName && Find(ss, oldName).Some?
    ensures var r := Put(Delete(ss, oldName), newName, Find(ss, oldName).value);
      && Distinct(Names(r))
      && Find(r, newName) == Find(ss, oldName)
      && Find(r, oldName) == None
      && (other != oldName && other != newName ==> Find(r, other) == Find(ss, other))
  {
    var d := Delete(ss, oldName);
    DeleteFind(ss, oldName, other);
    DeleteFind(ss, oldName, newName);
    PutFind(d, newName, Find(ss, oldName).value, other);
    PutFind(d, newName, Find(ss, oldName).value, oldName);
  }

  /** Copying the entries of a map with distinct names one by one in order: each `put`
      appends, and the copy's names are those of the copied prefix. */
  lemma CopyStep<T, U>(ss: seq<(string, T)>, i: nat, cs: seq<(string, U)>, x: U)
    requires Distinct(Names(ss)) && i < |ss| && Names(cs) == Names(ss[..i])
    ensures Put(cs, ss[i].0, x) == cs + [(ss[i].0, x)]
    ensures Names(cs + [(ss[i].0, x)]) == Names(ss[..i + 1])
    ensures Distinct(Names(cs + [(ss[i].0, x)]))
  {
    forall j | 0 <= j < |cs|
      ensures cs[j].0 != ss[i].0
    {
      assert cs[j].0 == Names(ss[..i])[j] == Names(ss)[j];
    }
    assert IndexOf(cs, ss[i].0).None?;
    var r := cs + [(ss[i].0, x)];
    assert Names(r) == Names(ss[..i + 1]);
    forall a, b | 0 <= a < b < |r|
      ensures Names(r)[a] != Names(r)[b]
    {
      assert Names(r)[a] == Names(ss)[a] && Names(r)[b] == Names(ss)[b];
    }
  }

  // ------------------------------------------------------------- documents

  /** The state of an `Ini`: default section, named sections in order, comment prefix. */
  datatype IniValue = IniValue(defaultSection: SectionValue, sections: seq<(string, SectionValue)>, commentPrefix: string)

  /** The lines of the named sections: a `[name]` header, then the section's lines. */
  function SectionsLines(ss: seq<(string, SectionValue)>, commentPrefix: string): seq<string>
  {
    if ss == [] then []
    else ["[" + ss[0].0 + "]"] + ToListOf(ss[0].1, commentPrefix) + SectionsLines(ss[1..], commentPrefix)
  }

  /** `toList()`: the default section's lines, then each named section in order. */
  function IniToList(v: IniValue): seq<string>
  {
    ToListOf(v.defaultSection, v.commentPrefix) + SectionsLines(v.sections, v.commentPrefix)
  }

  /** Adding a section at the end adds its header and lines at the end of the text. */
  lemma {:induction false} SectionsLinesAppend(ss: seq<(string, SectionValue)>, name: string, v: SectionValue, p: string)
    ensures SectionsLines(ss + [(name, v)], p) == SectionsLines(ss, p) + ["[" + name + "]"] + ToListOf(v, p)
  {
    if ss != [] {
      assert (ss + [(name, v)])[1..] == ss[1..] + [(name, v)];
      SectionsLinesAppend(ss[1..], name, v, p);
    }
  }

  /** The text has one header per named section and one line per record. */
  lemma {:induction false} SectionsLinesLength(ss: seq<(string, SectionValue)>, p: string)
    ensures |SectionsLines(ss, p)| == |ss| + TotalRecords(ss)
  {
    if ss != [] {
      SectionsLinesLength(ss[1..], p);
    }
  }

  function TotalRecords(ss: seq<(string, SectionValue)>): nat
  {
    if ss == [] then 0 else |ss[0].1.records| + TotalRecords(ss[1..])
  }

  /** The section values behind a sequence of section references. */
  function SectionValues(ss: seq<(string, Section)>): (r: seq<(string, SectionValue)>)
    reads set i | 0 <= i < |ss| :: ss[i].1
    ensures |r| == |ss| && forall i :: 0 <= i < |ss| ==> r[i] == (ss[i].0, ss[i].1.Value())
  {
    if ss == [] then [] else [(ss[0].0, ss[0].1.Value())] + SectionValues(ss[1..])
  }

  /** Putting a reference puts its value. */
  lemma SectionValuesPut(ss: seq<(string, Section)>, name: string, s: Section)
    ensures SectionValues(Put(ss, name, s)) == Put(SectionValues(ss), name, s.Value())
    ensures Names(SectionValues(ss)) == Names(ss)
  {
    var vs := SectionValues(ss);
    assert forall j :: 0 <= j < |ss| ==> vs[j].0 == ss[j].0;
    assert IndexOf(vs, name) == IndexOf(ss, name) by {
      IndexOfSameNames(ss, vs, name);
    }
  }

  lemma {:induction false} IndexOfSameNames<T, U>(ss: seq<(string, T)>, us: seq<(string, U)>, name: string)
    requires |ss| == |us| && forall j :: 0 <= j < |ss| ==> ss[j].0 == us[j].0
    ensures IndexOf(ss, name) == IndexOf(us, name)
  {
    if ss != [] && ss[0].0 != name {
      IndexOfSameNames(ss[1..], us[1..], name);
    }
  }

  /** The loop of `Ini.clone`: each section, in order, cloned and put under its name. */
  method CloneSections(sections: seq<(string, Section)>) returns (copies: seq<(string, Section)>)
    requires Distinct(Names(sections))
    ensures Names(copies) == Names(sections) && SectionValues(copies) == SectionValues(sections)
    ensures fresh(SectionObjects(copies))
  {
    copies := [];
    var i := 0;
    while i < |sections|
      invariant 0 <= i <= |sections| && |copies| == i
      invariant Names(copies) == Names(sections[..i])
      invariant forall j :: 0 <= j < i ==> fresh(copies[j].1)
      invariant forall j :: 0 <= j < i ==> copies[j].1.Value() == sections[j].1.Value()
    {
      var s := sections[i].1.Clone();
      CopyStep(sections, i, copies, s);
      copies := Put(copies, sections[i].0, s);
      i := i + 1;
    }
    assert sections[..i] == sections;
    assert SectionValues(copies) == SectionValues(sections);
    assert fresh(SectionObjects(copies)) by {
      forall o | o in SectionObjects(copies)
        ensures fresh(o)
      {
        var j :| 0 <= j < |copies| && copies[j].1 == o;
      }
    }
  }

  /** One more section of a document printed: its header and lines follow the text so far. */
  lemma SectionsLinesSnoc(ss: seq<(string, Section)>, i: nat, p: string)
    requires i < |ss|
    ensures SectionsLines(SectionValues(ss[..i + 1]), p)
            == SectionsLines(SectionValues(ss[..i]), p) + ["[" + ss[i].0 + "]"] + ToListOf(ss[i].1.Value(), p)
  {
    assert SectionValues(ss[..i + 1]) == SectionValues(ss[..i]) + [(ss[i].0, ss[i].1.Value())];
    SectionsLinesAppend(SectionValues(ss[..i]), ss[i].0, ss[i].1.Value(), p);
  }

  /** The loop of `Ini.toList` over the named sections: a header line, then the lines of the
      section, for each entry in order. */
  method SectionsToList(ss: seq<(string, Section)>, commentPrefix: string) returns (lines: seq<string>)
    ensures lines == SectionsLines(SectionValues(ss), commentPrefix)
  {
    lines := [];
    var i := 0;
    while i < |ss|
      invariant 0 <= i <= |ss|
      invariant lines == SectionsLines(SectionValues(ss[..i]), commentPrefix)
    {
      var body := ss[i].1.ToList(Some(commentPrefix));
      SectionsLinesSnoc(ss, i, commentPrefix);
      lines := lines + ["[" + ss[i].0 + "]"] + body;
      i := i + 1;
    }
    assert ss[..i] == ss;
  }

  /** The section objects a sequence of entries refers to. */
  ghost function SectionObjects(ss: seq<(string, Section)>): set<Section>
  {
    set i | 0 <= i < |ss| :: ss[i].1
  }

  // ------------------------------------------------------------- the class

  class Ini {
    var sections: seq<(string, Section)>
    var defaultSection: Section
    var commentPrefix: string

    /** The objects whose state the document's contents depend on. */
    ghost function Objects(): set<object>
      reads this
    {
      {defaultSection} + SectionObjects(sections)
    }

    /** The map's keys are distinct. */
    ghost predicate Valid()
      reads this
    {
      Distinct(Names(sections))
    }

    function Contents(): IniValue
      reads this, Objects()
    {
      IniValue(defaultSection.Value(), SectionValues(sections), commentPrefix)
    }

    /** `new Ini()`: an empty default section, no named sections, prefix `;`. */
    constructor()
      ensures Valid() && fresh(defaultSection)
      ensures Contents() == IniValue(Empty, [], IniOptions.DEFAULT_COMMENT_PREFIX)
    {
      sections := [];
      defaultSection := new Section();
      commentPrefix := IniOptions.DEFAULT_COMMENT_PREFIX;
    }

    /** `getSection(name)`: the section stored under the name (a null name as the empty
        one), and null exactly when no section has that name. */
    function GetSection(name: JString): (r: Option<Section>)
      reads this
      ensures r.None? <==> KeyOf(name) !in Names(sections)
      ensures r.Some? ==> exists i :: 0 <= i < |sections| && sections[i] == (KeyOf(name), r.value)
    {
      Find(sections, KeyOf(name))
    }

    /** `contains(sectionName)`: whether the name is one of the section names. */
    function Contains(name: JString): (r: bool)
      reads this
      ensures r <==> KeyOf(name) in Names(sections)
    {
      GetSection(name).Some?
    }

    /** `getSectionNames()`: the names in insertion order, each naming a section. */
    function GetSectionNames(): (r: seq<string>)
      reads this
      ensures |r| == Count()
      ensures forall i :: 0 <= i < |r| ==> Contains(Some(r[i]))
    {
      Names(sections)
    }

    /** `getOrDefault(name, def)`: the section stored under the name, or `def`. */
    function GetOrDefault(name: JString, def: Option<Section>): (r: Option<Section>)
      reads this
      ensures Contains(name) ==> r.Some? && (exists i :: 0 <= i < |sections| && sections[i] == (KeyOf(name), r.value))
      ensures !Contains(name) ==> r == def
    {
      match GetSection(name)
      case Some(s) => Some(s)
      case None => def
    }

    /** `count()`: named sections only. */
    function Count(): nat
      reads this
    {
      |sections|
    }

    /** `setSection(name, section)`; a null section throws before anything changes. */
    method SetSection(name: JString, section: Option<Section>) returns (r: Result<()>)
      requires Valid()
      modifies this
      ensures Valid() && defaultSection == old(defaultSection) && commentPrefix == old(commentPrefix)
      ensures section.None? ==> r == Err(NullPointer) && sections == old(sections)
      ensures section.Some? ==> r == Ok(()) && sections == Put(old(sections), KeyOf(name), section.value)
    {
      if section.None? {
        return Err(NullPointer);
      }
      PutFind(sections, KeyOf(name), section.value, "");
      sections := Put(sections, KeyOf(name), section.value);
      return Ok(());
    }

    /** `setCommentPrefix(p)`; null throws. */
    method SetCommentPrefix(p: JString) returns (r: Result<()>)
      modifies this
      ensures p.None? ==> r == Err(NullPointer) && commentPrefix == old(commentPrefix)
      ensures p.Some? ==> r == Ok(()) && commentPrefix == p.value
      ensures sections == old(sections) && defaultSection == old(defaultSection)
    {
      if p.None? {
        return Err(NullPointer);
      }
      commentPrefix := p.value;
      return Ok(());
    }

    /** `getOrAdd(name)`: the existing section, or a new empty one put at the end. */
    method GetOrAdd(name: JString) returns (s: Section)
      requires Valid()
      modifies this
      ensures Valid() && defaultSection == old(defaultSection) && commentPrefix == old(commentPrefix)
      ensures GetSection(name) == Some(s)
      ensures old(GetSection(name)).Some? ==> s == old(GetSection(name)).value && sections == old(sections)
      ensures old(GetSection(name)).None? ==>
        fresh(s) && s.Value() == Empty && sections == old(sections) + [(KeyOf(name), s)]
    {
      var n := KeyOf(name);
      var found := Find(sections, n);
      if found.Some? {
        return found.value;
      }
      s := new Section();
      PutFind(sections, n, s, n);
      sections := Put(sections, n, s);
    }

    /** `getEntry(name, key, def)`: def when the section or the key is missing. */
    function GetEntry(name: JString, key: JString, def: JString): JString
      reads this, Objects()
    {
      match GetSection(name)
      case None => def
      case Some(s) =>
        assert s in Objects() by {
          var i := IndexOf(sections, KeyOf(name)).value;
          assert sections[i].1 == s;
        }
        match s.GetItem(key)
        case None => def
        case Some(v) => Some(v)
    }

    /** `setEntry(name, key, value)` is `getOrAdd(name).setItem(key, value)`: the section is
        added even when the null value then throws. */
    method SetEntry(name: JString, key: JString, value: JString) returns (r: Result<()>)
      requires Valid()
      modifies this, Objects()
      ensures Valid() && defaultSection == old(defaultSection) && commentPrefix == old(commentPrefix)
      ensures GetSection(name).Some?
      ensures old(GetSection(name)).Some? ==> sections == old(sections)
      ensures old(GetSection(name)).None? ==>
        |sections| == |old(sections)| + 1 && sections[..|old(sections)|] == old(sections)
      ensures var s := GetSection(name).value;
        && (value.None? ==> r == Err(NullPointer) && s.Value() == old(if GetSection(name).Some? then GetSection(name).value.Value() else Empty))
        && (value.Some? ==> r == Ok(()) && s.Value() == SetItemOf(old(if GetSection(name).Some? then GetSection(name).value.Value() else Empty), KeyOf(key), value.value))
        && forall o :: o in old(Objects()) && o != s ==> unchanged(o)
    {
      ghost var before := if GetSection(name).Some? then GetSection(name).value.Value() else Empty;
      var s := GetOrAdd(name);
      assert s.Value() == before;
      r := s.SetItem(key, value);
      assert GetSection(name) == Some(s);
    }

    /** `remove(sectionName)`: true when the section existed. */
    method Remove(name: JString) returns (removed: bool)
      requires Valid()
      modifies this
      ensures Valid() && defaultSection == old(defaultSection) && commentPrefix == old(commentPrefix)
      ensures removed <==> old(GetSection(name)).Some?
      ensures sections == Delete(old(sections), KeyOf(name))
    {
      var n := KeyOf(name);
      removed := Find(sections, n).Some?;
      DeleteFind(sections, n, n);
      sections := Delete(sections, n);
    }

    /** `rename(oldName, newName)`: remove the old entry, then put the section under the new
        name. True when the names differ and the old one exists. */
    method Rename(oldName: JString, newName: JString) returns (renamed: bool)
      requires Valid()
      modifies this
      ensures Valid() && defaultSection == old(defaultSection) && commentPrefix == old(commentPrefix)
      ensures renamed <==> KeyOf(oldName) != KeyOf(newName) && old(GetSection(oldName)).Some?
      ensures renamed ==> sections == Put(Delete(old(sections), KeyOf(oldName)), KeyOf(newName), old(GetSection(oldName)).value)
      ensures !renamed ==> sections == old(sections)
    {
      var o, n := KeyOf(oldName), KeyOf(newName);
      var found := Find(sections, o);
      if o != n && found.Some? {
        RenameFind(sections, o, n, o);
        sections := Delete(sections, o);
        sections := Put(sections, n, found.value);
        return true;
      }
      return false;
    }

    /** `clone()`: a new document whose default and named sections are fresh copies. */
    method Clone() returns (c: Ini)
      requires Valid()
      ensures fresh(c) && c.Valid() && fresh(c.Objects())
      ensures c.Contents() == Contents()
    {
      var d := defaultSection.Clone();
      var copies := CloneSections(sections);
      c := new Ini.Of(d, copies, commentPrefix);
    }

    /** A document over the given sections; `clone` fills a `new Ini()` with these. */
    constructor Of(d: Section, ss: seq<(string, Section)>, prefix: string)
      ensures defaultSection == d && sections == ss && commentPrefix == prefix
    {
      defaultSection := d;
      sections := ss;
      commentPrefix := prefix;
    }

    /** `clear(includingDefault)`: every named section object is emptied and the map
        emptied; the default section is emptied only when asked. `clear()` passes true. */
    method Clear(includingDefault: bool)
      modifies this, Objects()
      ensures Valid() && sections == [] && defaultSection == old(defaultSection) && commentPrefix == old(commentPrefix)
      ensures includingDefault ==> defaultSection.Value() == Empty
      ensures forall i :: 0 <= i < |old(sections)| ==> old(sections)[i].1.Value() == Empty
      ensures !includingDefault && (forall i :: 0 <= i < |old(sections)| ==> old(sections)[i].1 != defaultSection)
              ==> defaultSection.Value() == old(defaultSection.Value())
    {
      if includingDefault {
        defaultSection.Clear();
      }
      var i := 0;
      while i < |sections|
        invariant 0 <= i <= |sections| && sections == old(sections) && defaultSection == old(defaultSection)
        invariant forall j :: 0 <= j < i ==> sections[j].1.Value() == Empty
        invariant includingDefault ==> defaultSection.Value() == Empty
        invariant forall o :: o in old(Objects()) && o !in (set j | 0 <= j < i :: sections[j].1) && o != (if includingDefault then defaultSection else this) ==> unchanged(o)
        modifies set j | 0 <= j < |sections| :: sections[j].1
      {
        sections[i].1.Clear();
        i := i + 1;
      }
      sections := [];
    }

    /** `removeAllComments()`: the default section and then every named section drop their
        comment and text records. A section object stored under two names, or also the
        default one, is filtered more than once, which changes nothing more. */
    method RemoveAllComments()
      modifies Objects()
      ensures defaultSection.Value() == RemoveAllCommentsOf(old(defaultSection.Value()))
      ensures forall j :: 0 <= j < |sections| ==>
        sections[j].1.Value() == RemoveAllCommentsOf(old(sections[j].1.Value()))
    {
      defaultSection.RemoveAllComments();
      var i := 0;
      while i < |sections|
        invariant 0 <= i <= |sections|
        invariant defaultSection.Value() == RemoveAllCommentsOf(old(defaultSection.Value()))
        invariant forall j :: 0 <= j < i ==>
          sections[j].1.Value() == RemoveAllCommentsOf(old(sections[j].1.Value()))
        invariant forall j :: i <= j < |sections| ==>
          sections[j].1.Value() == old(sections[j].1.Value()) ||
          sections[j].1.Value() == RemoveAllCommentsOf(old(sections[j].1.Value()))
      {
        var s := sections[i].1;
        RemoveAllCommentsKeepsKeyValues(old(s.Value()));
        s.RemoveAllComments();
        i := i + 1;
      }
    }

    /** `toList()`. */
    method ToList() returns (lines: seq<string>)
      ensures lines == IniToList(Contents())
    {
      var head := defaultSection.ToList(Some(commentPrefix));
      var rest := SectionsToList(sections, commentPrefix);
      lines := head + rest;
    }
  }
}
