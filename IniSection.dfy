/** `fit.ini.Section`: one block of an INI document. A section keeps a key -> value map
    and, beside it, the ordered list of records (key/value lines, comments, other text)
    that `toList` prints. The two are updated separately, and `remove` and `rename`
    touch only the map, so a section can hold records whose key is gone. */
module IniSection {
  import opened Wrappers

  /** `Section.RecordType`. */
  datatype RecordType = KeyValue | Comment | Other

  /** `Section.Record`: a key (for key/value records) or a line of text. */
  datatype Record = Record(content: string, recordType: RecordType)

  /** The state of a section: its map and its record list. */
  datatype SectionValue = SectionValue(entries: map<string, string>, records: seq<Record>)

  const Empty := SectionValue(map[], [])

  /** Every method maps a null key or name to the empty string. */
  function KeyOf(key: JString): string
  {
    if key.Some? then key.value else ""
  }

  /** Java string concatenation of a reference that may be null: null prints as "null". */
  function Str(s: JString): string
  {
    if s.Some? then s.value else "null"
  }

  /** `entries.get(key)`. */
  function Get(v: SectionValue, key: string): JString
  {
    if key in v.entries then Some(v.entries[key]) else None
  }

  // ------------------------------------------------------ the operations

  /** `setItem`: a new key appends a key/value record; a known key only gets a new value. */
  function SetItemOf(v: SectionValue, key: string, value: string): SectionValue
  {
    SectionValue(v.entries[key := value],
                 if key in v.entries then v.records else v.records + [Record(key, KeyValue)])
  }

  /** `remove`: drops the key from the map only; its record stays. */
  function RemoveOf(v: SectionValue, key: string): SectionValue
  {
    SectionValue(v.entries - {key}, v.records)
  }

  /** `rename`: moves the value to the new key in the map only; records are untouched. */
  function RenameOf(v: SectionValue, oldName: string, newName: string): SectionValue
  {
    if oldName != newName && oldName in v.entries then
      SectionValue((v.entries - {oldName})[newName := v.entries[oldName]], v.records)
    else v
  }

  /** `addComment(content, isComment)`: a Comment record, or an Other record. */
  function AddCommentOf(v: SectionValue, content: string, isComment: bool): SectionValue
  {
    SectionValue(v.entries, v.records + [Record(content, if isComment then Comment else Other)])
  }

  /** `appendToLast`: an empty section gets an Other record; after a key/value record the
      value of that key is extended (a removed key comes back as "null" + content);
      otherwise the last record's text is extended. */
  function AppendToLastOf(v: SectionValue, content: string): SectionValue
  {
    if v.records == [] then AddCommentOf(v, content, false)
    else
      var last := v.records[|v.records| - 1];
      if last.recordType == KeyValue then
        SectionValue(v.entries[last.content := Str(Get(v, last.content)) + content], v.records)
      else
        SectionValue(v.entries, v.records[|v.records| - 1 := Record(last.content + content, last.recordType)])
  }

  /** The key/value records of a list, in order. */
  function KeyValueRecords(records: seq<Record>): seq<Record>
  {
    if records == [] then []
    else if records[|records| - 1].recordType == KeyValue then
      KeyValueRecords(records[..|records| - 1]) + [records[|records| - 1]]
    else KeyValueRecords(records[..|records| - 1])
  }

  /** `getComments()`: the text of every comment and other record, in record order. */
  function CommentsOf(records: seq<Record>): seq<string>
  {
    if records == [] then []
    else if records[|records| - 1].recordType == KeyValue then CommentsOf(records[..|records| - 1])
    else CommentsOf(records[..|records| - 1]) + [records[|records| - 1].content]
  }

  /** `removeAllComments`: keeps the key/value records; the map is untouched. */
  function RemoveAllCommentsOf(v: SectionValue): SectionValue
  {
    SectionValue(v.entries, KeyValueRecords(v.records))
  }

  /** The line `toList` prints for one record. */
  function Line(v: SectionValue, r: Record, commentPrefix: string): string
  {
    match r.recordType
    case KeyValue => r.content + "=" + Str(Get(v, r.content))
    case Comment => commentPrefix + r.content
    case Other => r.content
  }

  /** `toList(commentPrefix)`: one line per record, in record order. */
  function ToListOf(v: SectionValue, commentPrefix: string): seq<string>
  {
    seq(|v.records|, i requires 0 <= i < |v.records| => Line(v, v.records[i], commentPrefix))
  }

  // --------------------------------------------------- well-formed sections

  /** Every key of the map has a key/value record. */
  predicate Covered(v: SectionValue)
  {
    forall k :: k in v.entries ==> Record(k, KeyValue) in v.records
  }

  /** Every key/value record names a key of the map. */
  predicate Recorded(v: SectionValue)
  {
    forall i :: 0 <= i < |v.records| && v.records[i].recordType == KeyValue ==> v.records[i].content in v.entries
  }

  /** No key has two key/value records. */
  predicate UniqueKeys(v: SectionValue)
  {
    forall i, j :: 0 <= i < j < |v.records| && v.records[i].recordType == KeyValue && v.records[j].recordType == KeyValue
      ==> v.records[i].content != v.records[j].content
  }

  /** Map and records agree: `toList` prints each key exactly once, with its value. */
  predicate WellFormed(v: SectionValue)
  {
    Covered(v) && Recorded(v) && UniqueKeys(v)
  }

  // ------------------------------------------------------------- lemmas

  /** `getItem` after `setItem` sees the new value; other keys keep theirs. */
  lemma SetItemGet(v: SectionValue, key: string, value: string, other: string)
    ensures Get(SetItemOf(v, key, value), key) == Some(value)
    ensures other != key ==> Get(SetItemOf(v, key, value), other) == Get(v, other)
    ensures key in v.entries <==> SetItemOf(v, key, value).records == v.records
  {
    if key !in v.entries {
      assert |SetItemOf(v, key, value).records| == |v.records| + 1;
    }
  }

  lemma SetItemKeepsWellFormed(v: SectionValue, key: string, value: string)
    requires WellFormed(v)
    ensures WellFormed(SetItemOf(v, key, value))
  {
    var r := SetItemOf(v, key, value);
    if key !in v.entries {
      assert Record(key, KeyValue) !in v.records;
      forall i, j | 0 <= i < j < |r.records| && r.records[i].recordType == KeyValue && r.records[j].recordType == KeyValue
        ensures r.records[i].content != r.records[j].content
      {
        if j == |v.records| {
          assert v.records[i] == Record(r.records[i].content, KeyValue);
        }
      }
    }
  }

  lemma AddCommentKeepsWellFormed(v: SectionValue, content: string, isComment: bool)
    requires WellFormed(v)
    ensures WellFormed(AddCommentOf(v, content, isComment))
  {
    var r := AddCommentOf(v, content, isComment);
    assert forall i :: 0 <= i < |v.records| ==> r.records[i] == v.records[i];
  }

  /** Appending to the last record never changes which keys exist or which records there are. */
  lemma AppendToLastKeepsWellFormed(v: SectionValue, content: string)
    requires WellFormed(v)
    ensures WellFormed(AppendToLastOf(v, content))
  {
    if v.records == [] {
      AddCommentKeepsWellFormed(v, content, false);
    } else {
      var last := v.records[|v.records| - 1];
      var r := AppendToLastOf(v, content);
      if last.recordType != KeyValue {
        forall k | k in r.entries
          ensures Record(k, KeyValue) in r.records
        {
          var i :| 0 <= i < |v.records| && v.records[i] == Record(k, KeyValue);
          assert r.records[i] == v.records[i];
        }
      }
    }
  }

  /** After a key/value record, `appendToLast` extends that key's value. */
  lemma AppendToLastExtendsValue(v: SectionValue, content: string)
    requires WellFormed(v) && v.records != [] && v.records[|v.records| - 1].recordType == KeyValue
    ensures var k := v.records[|v.records| - 1].content;
      k in v.entries && Get(AppendToLastOf(v, content), k) == Some(v.entries[k] + content)
  {
  }

  lemma {:induction false} KeyValueRecordsFilter(records: seq<Record>)
    ensures forall r :: r in KeyValueRecords(records) <==> r in records && r.recordType == KeyValue
    ensures |KeyValueRecords(records)| <= |records|
    ensures KeyValueRecords(KeyValueRecords(records)) == KeyValueRecords(records)
  {
    if records != [] {
      var init := records[..|records| - 1];
      KeyValueRecordsFilter(init);
      assert records == init + [records[|records| - 1]];
      var k := KeyValueRecords(init);
      if records[|records| - 1].recordType == KeyValue {
        assert (k + [records[|records| - 1]])[..|k|] == k;
      }
    }
  }

  /** Filtering keeps a subsequence: two records in the result keep their original order. */
  lemma {:induction false} KeyValueRecordsOrder(records: seq<Record>, i: nat, j: nat)
    requires i < j < |KeyValueRecords(records)|
    ensures exists a, b :: 0 <= a < b < |records| && records[a] == KeyValueRecords(records)[i]
                           && records[b] == KeyValueRecords(records)[j]
  {
    var init := records[..|records| - 1];
    var k := KeyValueRecords(init);
    if records[|records| - 1].recordType == KeyValue && j == |k| {
      KeyValueRecordsFilter(init);
      assert k[i] in init;
      var a :| 0 <= a < |init| && init[a] == k[i];
      assert records[a] == k[i];
      assert records[|records| - 1] == KeyValueRecords(records)[j];
    } else {
      KeyValueRecordsOrder(init, i, j);
      var a, b :| 0 <= a < b < |init| && init[a] == k[i] && init[b] == k[j];
      assert records[a] == init[a] && records[b] == init[b];
    }
  }

  /** `removeAllComments` leaves exactly the key/value records, changes no value, and
      doing it twice is doing it once. */
  lemma RemoveAllCommentsKeepsKeyValues(v: SectionValue)
    ensures var r := RemoveAllCommentsOf(v);
      && r.entries == v.entries
      && (forall rec :: rec in r.records <==> rec in v.records && rec.recordType == KeyValue)
      && RemoveAllCommentsOf(r) == r
  {
    KeyValueRecordsFilter(v.records);
  }

  lemma RemoveAllCommentsKeepsWellFormed(v: SectionValue)
    requires WellFormed(v)
    ensures WellFormed(RemoveAllCommentsOf(v))
  {
    var r := RemoveAllCommentsOf(v);
    KeyValueRecordsFilter(v.records);
    forall i | 0 <= i < |r.records| && r.records[i].recordType == KeyValue
      ensures r.records[i].content in r.entries
    {
      assert r.records[i] in v.records;
    }
    forall i, j | 0 <= i < j < |r.records| && r.records[i].recordType == KeyValue && r.records[j].recordType == KeyValue
      ensures r.records[i].content != r.records[j].content
    {
      KeyValueRecordsOrder(v.records, i, j);
    }
  }

  /** In a well-formed section every key/value line carries the key's current value, and
      each key of the map is printed on exactly one line. */
  lemma ToListOfWellFormed(v: SectionValue, commentPrefix: string)
    requires WellFormed(v)
    ensures |ToListOf(v, commentPrefix)| == |v.records|
    ensures forall i :: 0 <= i < |v.records| && v.records[i].recordType == KeyValue ==>
      v.records[i].content in v.entries &&
      ToListOf(v, commentPrefix)[i] == v.records[i].content + "=" + v.entries[v.records[i].content]
    ensures forall k :: k in v.entries ==>
      exists i :: 0 <= i < |v.records| && v.records[i] == Record(k, KeyValue)
    ensures forall i, j ::
      (0 <= i < j < |v.records| && v.records[i].recordType == KeyValue && v.records[j].recordType == KeyValue)
      ==> v.records[i].content != v.records[j].content
  {
  }

  /** A comment or text added is the last of `getComments()`; key/value records are not
      comments, and `removeAllComments` leaves none. */
  lemma {:induction false} CommentsAfterUpdates(v: SectionValue, content: string, isComment: bool, key: string, value: string)
    ensures CommentsOf(AddCommentOf(v, content, isComment).records) == CommentsOf(v.records) + [content]
    ensures CommentsOf(SetItemOf(v, key, value).records) == CommentsOf(v.records)
    ensures CommentsOf(RemoveAllCommentsOf(v).records) == []
  {
    var rs := v.records + [Record(content, if isComment then Comment else Other)];
    assert rs[..|rs| - 1] == v.records;
    var ks := v.records + [Record(key, KeyValue)];
    assert ks[..|ks| - 1] == v.records;
    NoCommentsAmongKeyValues(v.records);
  }

  lemma {:induction false} NoCommentsAmongKeyValues(records: seq<Record>)
    ensures CommentsOf(KeyValueRecords(records)) == []
  {
    if records != [] {
      var init := records[..|records| - 1];
      NoCommentsAmongKeyValues(init);
      if records[|records| - 1].recordType == KeyValue {
        var k := KeyValueRecords(init) + [records[|records| - 1]];
        assert k[..|k| - 1] == KeyValueRecords(init);
      }
    }
  }

  /** `setItem` of a new key adds one to `count()`; `remove` of a present key takes one
      away; otherwise the count stays. */
  lemma CountAfterUpdates(v: SectionValue, key: string, value: string)
    ensures |SetItemOf(v, key, value).entries| == if key in v.entries then |v.entries| else |v.entries| + 1
    ensures |RemoveOf(v, key).entries| == if key in v.entries then |v.entries| - 1 else |v.entries|
  {
    assert SetItemOf(v, key, value).entries.Keys == v.entries.Keys + {key};
    assert RemoveOf(v, key).entries.Keys == v.entries.Keys - {key};
  }

  /** `remove` leaves a stale record: the removed key is printed as `key=null`. */
  lemma RemoveLeavesStaleLine()
    ensures var v := SetItemOf(Empty, "k", "v");
      && WellFormed(v)
      && !WellFormed(RemoveOf(v, "k"))
      && ToListOf(RemoveOf(v, "k"), ";") == ["k=null"]
  {
    var v := SetItemOf(Empty, "k", "v");
    var w := RemoveOf(v, "k");
    assert v.records == [Record("k", KeyValue)] && v.entries == map["k" := "v"];
    assert w.entries == map[] && w.records[0].content !in w.entries;
    assert Line(w, w.records[0], ";") == "k" + "=" + "null" == "k=null";
  }

  /** Setting a removed key again appends a second record, so the line appears twice. */
  lemma RemoveThenSetPrintsTwice()
    ensures var v := SetItemOf(RemoveOf(SetItemOf(Empty, "k", "v"), "k"), "k", "w");
      ToListOf(v, ";") == ["k=w", "k=w"] && !UniqueKeys(v)
  {
    var v := SetItemOf(RemoveOf(SetItemOf(Empty, "k", "v"), "k"), "k", "w");
    assert v.records == [Record("k", KeyValue), Record("k", KeyValue)] && v.entries == map["k" := "w"];
    assert Line(v, v.records[0], ";") == "k" + "=" + "w" == "k=w";
    assert ToListOf(v, ";") == [Line(v, v.records[0], ";"), Line(v, v.records[1], ";")];
  }

  /** `rename` moves the value but not the record: the new key is never printed and the
      old key is printed as `key=null`. */
  lemma RenameLeavesStaleLine()
    ensures var v := RenameOf(SetItemOf(Empty, "k", "v"), "k", "n");
      && Get(v, "n") == Some("v") && Get(v, "k") == None
      && !Covered(v) && ToListOf(v, ";") == ["k=null"]
  {
    var v := RenameOf(SetItemOf(Empty, "k", "v"), "k", "n");
    assert v.records == [Record("k", KeyValue)] && v.entries == map["n" := "v"];
    assert Record("n", KeyValue) !in v.records;
    assert Line(v, v.records[0], ";") == "k" + "=" + "null" == "k=null";
  }

  /** A successful rename moves the value and keeps every other key. */
  lemma RenameMovesValue(v: SectionValue, oldName: string, newName: string, other: string)
    requires oldName != newName && oldName in v.entries
    requires other != oldName && other != newName
    ensures Get(RenameOf(v, oldName, newName), newName) == Get(v, oldName)
    ensures Get(RenameOf(v, oldName, newName), oldName) == None
    ensures Get(RenameOf(v, oldName, newName), other) == Get(v, other)
  {
  }

  // -------------------------------------------------------------- the class

  class Section {
    var entries: map<string, string>
    var records: seq<Record>

    function Value(): SectionValue
      reads this
    {
      SectionValue(entries, records)
    }

    constructor()
      ensures Value() == Empty
    {
      entries := map[];
      records := [];
    }

    /** `getItem`: the value of the key, or null. */
    function GetItem(key: JString): JString
      reads this
    {
      Get(Value(), KeyOf(key))
    }

    /** `contains(key)`: whether the map has the key; since no value is null, exactly when
        `getItem` finds one. */
    function Contains(key: JString): (r: bool)
      reads this
      ensures r <==> GetItem(key).Some?
    {
      KeyOf(key) in entries
    }

    /** `getOrDefault(key, def)`: the value, or `def` when `getItem` finds none. */
    function GetOrDefault(key: JString, def: JString): (r: JString)
      reads this
      ensures Contains(key) ==> r == GetItem(key)
      ensures !Contains(key) ==> r == def
    {
      match GetItem(key)
      case Some(v) => Some(v)
      case None => def
    }

    /** `getComments()`. */
    function GetComments(): seq<string>
      reads this
    {
      CommentsOf(records)
    }

    /** `getKeys()`: the keys of the map, in no particular order. */
    function GetKeys(): (r: set<string>)
      reads this
      ensures forall k :: k in r <==> Contains(Some(k))
    {
      entries.Keys
    }

    /** `count()`: the number of keys, not of records. */
    function Count(): nat
      reads this
    {
      |entries|
    }

    /** `setItem(key, value)`; a null value throws before anything changes. */
    method SetItem(key: JString, value: JString) returns (r: Result<()>)
      modifies this
      ensures value.None? ==> r == Err(NullPointer) && Value() == old(Value())
      ensures value.Some? ==> r == Ok(()) && Value() == SetItemOf(old(Value()), KeyOf(key), value.value)
    {
      if value.None? {
        return Err(NullPointer);
      }
      var k := KeyOf(key);
      if k !in entries {
        records := records + [Record(k, KeyValue)];
      }
      entries := entries[k := value.value];
      return Ok(());
    }

    /** `remove(key)`: true when the key was present. */
    method Remove(key: JString) returns (removed: bool)
      modifies this
      ensures removed <==> KeyOf(key) in old(entries)
      ensures Value() == RemoveOf(old(Value()), KeyOf(key))
    {
      var k := KeyOf(key);
      removed := k in entries;
      entries := entries - {k};
    }

    /** `rename(oldName, newName)`: true when the names differ and the old key exists. */
    method Rename(oldName: JString, newName: JString) returns (renamed: bool)
      modifies this
      ensures renamed <==> KeyOf(oldName) != KeyOf(newName) && KeyOf(oldName) in old(entries)
      ensures Value() == RenameOf(old(Value()), KeyOf(oldName), KeyOf(newName))
    {
      var o, n := KeyOf(oldName), KeyOf(newName);
      if o != n && o in entries {
        var value := entries[o];
        entries := (entries - {o})[n := value];
        return true;
      }
      return false;
    }

    /** `clone`: a new section with the same map and a copy of every record. */
    method Clone() returns (s: Section)
      ensures fresh(s) && s.Value() == Value()
    {
      s := new Section();
      s.entries := entries;
      var i := 0;
      while i < |records|
        invariant 0 <= i <= |records|
        invariant s.entries == entries && s.records == records[..i]
      {
        s.records := s.records + [Record(records[i].content, records[i].recordType)];
        i := i + 1;
      }
    }

    /** `clear`. */
    method Clear()
      modifies this
      ensures Value() == Empty
    {
      entries := map[];
      records := [];
    }

    /** `appendToLast(content)`; null content throws before anything changes. */
    method AppendToLast(content: JString) returns (r: Result<()>)
      modifies this
      ensures content.None? ==> r == Err(NullPointer) && Value() == old(Value())
      ensures content.Some? ==> r == Ok(()) && Value() == AppendToLastOf(old(Value()), content.value)
    {
      if content.None? {
        return Err(NullPointer);
      }
      if records == [] {
        r := AddComment(content, false);
        return;
      }
      var last := records[|records| - 1];
      if last.recordType == KeyValue {
        var value := if last.content in entries then Some(entries[last.content]) else None;
        entries := entries[last.content := Str(value) + content.value];
      } else {
        records := records[|records| - 1 := Record(last.content + content.value, last.recordType)];
      }
      return Ok(());
    }

    /** `addComment(content, isComment)`; null content throws. */
    method AddComment(content: JString, isComment: bool) returns (r: Result<()>)
      modifies this
      ensures content.None? ==> r == Err(NullPointer) && Value() == old(Value())
      ensures content.Some? ==> r == Ok(()) && Value() == AddCommentOf(old(Value()), content.value, isComment)
    {
      if content.None? {
        return Err(NullPointer);
      }
      records := records + [Record(content.value, if isComment then Comment else Other)];
      return Ok(());
    }

    /** `removeAllComments`. */
    method RemoveAllComments()
      modifies this
      ensures Value() == RemoveAllCommentsOf(old(Value()))
    {
      records := KeyValueRecords(records);
    }

    /** `toList(commentPrefix)`; a null prefix counts as empty. */
    method ToList(commentPrefix: JString) returns (lines: seq<string>)
      ensures lines == ToListOf(Value(), KeyOf(commentPrefix))
    {
      var prefix := KeyOf(commentPrefix);
      lines := [];
      var i := 0;
      while i < |records|
        invariant 0 <= i <= |records| && |lines| == i
        invariant forall j :: 0 <= j < i ==> lines[j] == Line(Value(), records[j], prefix)
      {
        var record := records[i];
        var line;
        if record.recordType == KeyValue {
          line := record.content + "=" + Str(if record.content in entries then Some(entries[record.content]) else None);
        } else if record.recordType == Comment {
          line := prefix + record.content;
        } else {
          line := record.content;
        }
        lines := lines + [line];
        i := i + 1;
      }
    }
  }
}
