/** The structured log line of src/observability.rs, and an RFC 8259 reader for it. */
module JsonLine {
  import opened Wrappers
  import opened OrderedMap
  import Domain

  type Fields = seq<Entry<string>>

  datatype LogLevel = Info | Warn | Error

  /** Details are held as they are stored, that is, after redaction. */
  datatype LogRecord = LogRecord(
    level: LogLevel, eventType: string, reason: string,
    backend: Option<Domain.BackendKind>, isDelete: bool, details: Fields)

  const CORE_FIELDS := ["schema_version", "level", "event_type", "reason", "backend", "action"]

  function LevelText(level: LogLevel): string {
    match level
    case Info => "info"
    case Warn => "warn"
    case Error => "error"
  }

  function BackendText(backend: Domain.BackendKind): string {
    match backend
    case Docker => "docker"
    case Podman => "podman"
    case Custom(_) => "custom"
  }

  function WithDetail(r: LogRecord, key: string, stored: string): LogRecord {
    r.(details := Insert(r.details, key, stored))
  }

  // ---------- the field map ----------

  function CoreFields(r: LogRecord): Fields {
    var base := Insert(Insert(Insert(Insert([], "schema_version", "1.0"), "level", LevelText(r.level)),
                              "event_type", r.eventType), "reason", r.reason);
    var withBackend := if r.backend.Some? then Insert(base, "backend", BackendText(r.backend.value)) else base;
    if r.isDelete then Insert(withBackend, "action", "delete") else withBackend
  }

  function AddDetails(fields: Fields, details: Fields): Fields {
    if details == [] then fields
    else
      var rest := AddDetails(fields, details[..|details| - 1]);
      var last := details[|details| - 1];
      if last.key in CORE_FIELDS then rest else Insert(rest, last.key, last.value)
  }

  function KvMap(r: LogRecord): Fields {
    AddDetails(CoreFields(r), r.details)
  }

  method ToKvMap(r: LogRecord) returns (fields: Fields)
    ensures fields == KvMap(r)
  {
    fields := Insert([], "schema_version", "1.0");
    fields := Insert(fields, "level", LevelText(r.level));
    fields := Insert(fields, "event_type", r.eventType);
    fields := Insert(fields, "reason", r.reason);
    if r.backend.Some? {
      fields := Insert(fields, "backend", BackendText(r.backend.value));
    }
    if r.isDelete {
      fields := Insert(fields, "action", "delete");
    }
    for i := 0 to |r.details|
      invariant fields == AddDetails(CoreFields(r), r.details[..i])
    {
      assert r.details[..i + 1][..i] == r.details[..i];
      if r.details[i].key in CORE_FIELDS {
        continue;
      }
      fields := Insert(fields, r.details[i].key, r.details[i].value);
    }
    assert r.details[..|r.details|] == r.details;
  }

  /** What a core field must hold. */
  function CoreValue(r: LogRecord, key: string): Option<string> {
    if key == "schema_version" then Some("1.0")
    else if key == "level" then Some(LevelText(r.level))
    else if key == "event_type" then Some(r.eventType)
    else if key == "reason" then Some(r.reason)
    else if key == "backend" then (if r.backend.Some? then Some(BackendText(r.backend.value)) else None)
    else if key == "action" then (if r.isDelete then Some("delete") else None)
    else None
  }

  lemma CoreLookup(r: LogRecord, key: string)
    ensures Lookup(CoreFields(r), key) == CoreValue(r, key)
    ensures Sorted(CoreFields(r))
  {
    hide Insert, Lookup;
    var f0 := InsertedCore([], "schema_version", "1.0", key);
    var f1 := InsertedCore(f0, "level", LevelText(r.level), key);
    var f2 := InsertedCore(f1, "event_type", r.eventType, key);
    var f3 := InsertedCore(f2, "reason", r.reason, key);
    LookupOutside<string>([], key);
    if r.backend.Some? {
      var f4 := InsertedCore(f3, "backend", BackendText(r.backend.value), key);
      if r.isDelete {
        var f5 := InsertedCore(f4, "action", "delete", key);
      }
    } else if r.isDelete {
      var f5 := InsertedCore(f3, "action", "delete", key);
    }
  }

  lemma InsertedCore(fields: Fields, name: string, value: string, key: string) returns (more: Fields)
    requires Sorted(fields)
    ensures more == Insert(fields, name, value) && Sorted(more)
    ensures Lookup(more, key) == if key == name then Some(value) else Lookup(fields, key)
  {
    more := Insert(fields, name, value);
    LookupInsert(fields, name, value, key);
    InsertKeepsSorted(fields, name, value);
  }

  lemma {:induction false} LookupAppended(details: Fields, e: Entry<string>, key: string)
    requires Sorted(details + [e])
    ensures Lookup(details + [e], key) == if key == e.key then Some(e.value) else Lookup(details, key)
  {
    var all := details + [e];
    if details != [] {
      assert all[1..] == details[1..] + [e];
      LookupAppended(details[1..], e, key);
      assert Less(all[0].key, all[|details|].key);
      LessIsStrict(e.key);
    }
  }

  lemma {:induction false} DetailLookup(fields: Fields, details: Fields, key: string)
    requires Sorted(fields) && Sorted(details)
    ensures Sorted(AddDetails(fields, details))
    ensures Lookup(AddDetails(fields, details), key)
            == if key in CORE_FIELDS || Lookup(details, key).None? then Lookup(fields, key)
               else Lookup(details, key)
  {
    hide Lookup, Insert, Less;
    if details == [] {
      LookupOutside(details, key);
    } else {
      var front, last := details[..|details| - 1], details[|details| - 1];
      DetailLookup(fields, front, key);
      assert details == front + [last];
      LookupAppended(front, last, key);
      AddOne(AddDetails(fields, front), last, key);
    }
  }

  lemma AddOne(fields: Fields, e: Entry<string>, key: string)
    requires Sorted(fields)
    ensures Sorted(Insert(fields, e.key, e.value))
    ensures Lookup(Insert(fields, e.key, e.value), key) == if key == e.key then Some(e.value) else Lookup(fields, key)
  {
    LookupInsert(fields, e.key, e.value, key);
    InsertKeepsSorted(fields, e.key, e.value);
  }

  /** The map in full: core fields come from the record alone, absent ones stay absent, and
      every other key is looked up in the details. */
  lemma FieldsAreExact(r: LogRecord, key: string)
    requires Sorted(r.details)
    ensures Sorted(KvMap(r))
    ensures Lookup(KvMap(r), key) == if key in CORE_FIELDS then CoreValue(r, key) else Lookup(r.details, key)
  {
    CoreLookup(r, key);
    DetailLookup(CoreFields(r), r.details, key);
    assert key !in CORE_FIELDS ==> CoreValue(r, key).None? by {
      assert CORE_FIELDS[0] == "schema_version" && CORE_FIELDS[1] == "level" && CORE_FIELDS[2] == "event_type";
      assert CORE_FIELDS[3] == "reason" && CORE_FIELDS[4] == "backend" && CORE_FIELDS[5] == "action";
    }
  }

  function WithDetails(r: LogRecord, added: seq<(string, string)>): LogRecord {
    if added == [] then r
    else
      var last := added[|added| - 1];
      WithDetail(WithDetails(r, added[..|added| - 1]), last.0, last.1)
  }

  /** No sequence of added details, whatever their keys, changes a core field. */
  lemma {:induction false} DetailsNeverTouchCore(r: LogRecord, added: seq<(string, string)>, key: string)
    requires Sorted(r.details) && key in CORE_FIELDS
    ensures Sorted(WithDetails(r, added).details)
    ensures Lookup(KvMap(WithDetails(r, added)), key) == Lookup(KvMap(r), key) == CoreValue(r, key)
  {
    FieldsAreExact(r, key);
    if added != [] {
      var front, last := added[..|added| - 1], added[|added| - 1];
      DetailsNeverTouchCore(r, front, key);
      InsertKeepsSorted(WithDetails(r, front).details, last.0, last.1);
      SameCore(r, added, key);
    }
    FieldsAreExact(WithDetails(r, added), key);
    SameCore(r, added, key);
  }

  lemma {:induction false} SameCore(r: LogRecord, added: seq<(string, string)>, key: string)
    ensures CoreValue(WithDetails(r, added), key) == CoreValue(r, key)
  {
    if added != [] {
      SameCore(r, added[..|added| - 1], key);
    }
  }

  // ---------- printing ----------

  function HexDigit(n: nat): char
    requires n < 16
  {
    if n < 10 then '0' + n as char else 'a' + (n - 10) as char
  }

  function EscapeChar(c: char): string {
    if c == '\\' then "\\\\"
    else if c == '"' then "\\\""
    else if c == '\U{8}' then "\\b"
    else if c == '\U{C}' then "\\f"
    else if c == '\n' then "\\n"
    else if c == '\r' then "\\r"
    else if c == '\t' then "\\t"
    else if c < ' ' then "\\u00" + [HexDigit(c as int / 16), HexDigit(c as int % 16)]
    else [c]
  }

  function Escape(s: string): string {
    if s == [] then [] else EscapeChar(s[0]) + Escape(s[1..])
  }

  lemma {:induction false} EscapeMore(s: string, c: char)
    ensures Escape(s + [c]) == Escape(s) + EscapeChar(c)
  {
    if s == [] {
      assert (s + [c])[1..] == [];
      assert EscapeChar(c) + [] == EscapeChar(c);
    } else {
      assert (s + [c])[1..] == s[1..] + [c];
      EscapeMore(s[1..], c);
    }
  }

  method EscapeJson(value: string) returns (escaped: string)
    ensures escaped == Escape(value)
  {
    escaped := "";
    for i := 0 to |value|
      invariant escaped == Escape(value[..i])
    {
      assert value[..i + 1] == value[..i] + [value[i]];
      EscapeMore(value[..i], value[i]);
      escaped := escaped + EscapeChar(value[i]);
    }
    assert value[..|value|] == value;
  }

  function Member(e: Entry<string>): string {
    "\"" + Escape(e.key) + "\":\"" + Escape(e.value) + "\""
  }

  function JoinMembers(fields: Fields): string {
    if fields == [] then []
    else if |fields| == 1 then Member(fields[0])
    else Member(fields[0]) + "," + JoinMembers(fields[1..])
  }

  function Line(fields: Fields): string {
    "{" + JoinMembers(fields) + "}"
  }

  lemma {:induction false} JoinMore(fields: Fields, e: Entry<string>)
    ensures JoinMembers(fields + [e]) == if fields == [] then Member(e) else JoinMembers(fields) + "," + Member(e)
  {
    hide Member;
    if |fields| <= 1 {
      assert |fields| == 1 ==> (fields + [e])[1..] == [e];
    } else {
      assert (fields + [e])[1..] == fields[1..] + [e];
      JoinMore(fields[1..], e);
      assert JoinMembers(fields + [e])
             == Member(fields[0]) + "," + (JoinMembers(fields[1..]) + "," + Member(e));
    }
  }

  lemma NothingJoined()
    ensures JoinMembers([]) == []
  {
  }

  lemma MemberIs(e: Entry<string>)
    ensures Member(e) == "\"" + Escape(e.key) + "\":\"" + Escape(e.value) + "\""
  {
  }

  method ToJsonLine(r: LogRecord) returns (line: string)
    ensures line == Line(KvMap(r))
  {
    hide KvMap, Escape, Member, JoinMembers;
    var fields := ToKvMap(r);
    var joined := "";
    NothingJoined();
    for i := 0 to |fields|
      invariant joined == JoinMembers(fields[..i])
    {
      assert i > 0 ==> fields[..i] != [];
      var key := EscapeJson(fields[i].key);
      var value := EscapeJson(fields[i].value);
      var member := "\"" + key + "\":\"" + value + "\"";
      assert fields[..i + 1] == fields[..i] + [fields[i]];
      JoinMore(fields[..i], fields[i]);
      MemberIs(fields[i]);
      joined := if i == 0 then member else joined + "," + member;
    }
    assert fields[..|fields|] == fields;
    line := "{" + joined + "}";
  }

  // ---------- reading, after RFC 8259 ----------

  datatype Decoded = Decoded(text: string, rest: string)

  function HexValue(c: char): Option<nat> {
    if '0' <= c <= '9' then Some(c as int - '0' as int)
    else if 'a' <= c <= 'f' then Some(c as int - 'a' as int + 10)
    else if 'A' <= c <= 'F' then Some(c as int - 'A' as int + 10)
    else None
  }

  /** The code unit of four hexadecimal digits. */
  function HexUnit(s: string): (u: Option<nat>)
    ensures u.Some? ==> |s| >= 4 && u.value < 0x10000
  {
    if |s| < 4 then None
    else
      var (a, b, c, d) := (HexValue(s[0]), HexValue(s[1]), HexValue(s[2]), HexValue(s[3]));
      if a.None? || b.None? || c.None? || d.None? then None
      else Some(((a.value * 16 + b.value) * 16 + c.value) * 16 + d.value)
  }

  datatype Unescaped = Unescaped(c: char, length: nat)

  /** One escape sequence at the start of `s`, as in section 7; a surrogate pair is one
      character, a lone surrogate is none. */
  function Unescape(s: string): (u: Option<Unescaped>)
    ensures u.Some? ==> 2 <= u.value.length <= |s|
  {
    if |s| < 2 || s[0] != '\\' then None
    else
      match s[1]
      case '"' => Some(Unescaped('"', 2))
      case '\\' => Some(Unescaped('\\', 2))
      case '/' => Some(Unescaped('/', 2))
      case 'b' => Some(Unescaped('\U{8}', 2))
      case 'f' => Some(Unescaped('\U{C}', 2))
      case 'n' => Some(Unescaped('\n', 2))
      case 'r' => Some(Unescaped('\r', 2))
      case 't' => Some(Unescaped('\t', 2))
      case 'u' =>
        var unit := HexUnit(s[2..]);
        if unit.None? then None
        else if unit.value < 0xD800 || unit.value > 0xDFFF then Some(Unescaped(unit.value as char, 6))
        else if unit.value > 0xDBFF || |s| < 12 || s[6] != '\\' || s[7] != 'u' then None
        else
          var low := HexUnit(s[8..]);
          if low.None? || low.value < 0xDC00 || low.value > 0xDFFF then None
          else
            Some(Unescaped((0x10000 + (unit.value - 0xD800) * 0x400 + (low.value - 0xDC00)) as char, 12))
      case _ => None
  }

  /** The characters up to the closing quote. Control characters must be escaped. */
  function DecodeString(s: string): (d: Option<Decoded>)
    ensures d.Some? ==> |d.value.rest| < |s|
  {
    if s == [] || s[0] < ' ' then None
    else if s[0] == '"' then Some(Decoded([], s[1..]))
    else
      var (c, length) :=
        if s[0] == '\\' then
          (var u := Unescape(s); if u.None? then (' ', 0) else (u.value.c, u.value.length))
        else (s[0], 1);
      if length == 0 then None
      else
        var more := DecodeString(s[length..]);
        if more.None? then None else Some(Decoded([c] + more.value.text, more.value.rest))
  }

  /** Members of an object of strings, up to the brace that ends the input. */
  function DecodeMembers(s: string): Option<Fields>
    decreases |s|
  {
    if s == [] || s[0] != '"' then None
    else
      var key := DecodeString(s[1..]);
      if key.None? || |key.value.rest| < 2 || key.value.rest[..2] != ":\"" then None
      else
        var value := DecodeString(key.value.rest[2..]);
        if value.None? || value.value.rest == [] then None
        else
          var entry := Entry(key.value.text, value.value.text);
          if value.value.rest == "}" then Some([entry])
          else if value.value.rest[0] != ',' then None
          else
            var more := DecodeMembers(value.value.rest[1..]);
            if more.None? then None else Some([entry] + more.value)
  }

  function DecodeLine(line: string): Option<Fields> {
    if line == "{}" then Some([])
    else if line == [] || line[0] != '{' then None
    else DecodeMembers(line[1..])
  }

  // ---------- round trip ----------

  lemma HexRoundTrip(n: nat)
    requires n < 16
    ensures HexValue(HexDigit(n)) == Some(n)
  {
  }

  lemma UnescapeControl(c: char, tail: string)
    requires |EscapeChar(c)| == 6
    ensures Unescape(EscapeChar(c) + tail) == Some(Unescaped(c, 6))
  {
    var high, low := HexDigit(c as int / 16), HexDigit(c as int % 16);
    var s := EscapeChar(c) + tail;
    assert EscapeChar(c) == ['\\', 'u', '0', '0', high, low];
    assert s[2] == '0' && s[3] == '0' && s[4] == high && s[5] == low;
    HexRoundTrip(c as int / 16);
    HexRoundTrip(c as int % 16);
    assert HexUnit(s[2..]) == Some(c as int);
  }

  lemma UnescapeEscaped(c: char, tail: string)
    requires |EscapeChar(c)| > 1
    ensures Unescape(EscapeChar(c) + tail) == Some(Unescaped(c, |EscapeChar(c)|))
  {
    var e := EscapeChar(c);
    if |e| == 6 {
      UnescapeControl(c, tail);
    } else {
      assert (e + tail)[0] == e[0] && (e + tail)[1] == e[1];
    }
  }

  lemma DecodeEscapedChar(c: char, tail: string)
    ensures
      var more := DecodeString(tail);
      DecodeString(EscapeChar(c) + tail)
      == if more.None? then None else Some(Decoded([c] + more.value.text, more.value.rest))
  {
    hide Unescape, EscapeChar;
    var e := EscapeChar(c);
    assert (e + tail)[|e|..] == tail;
    EscapeShape(c);
    assert (e + tail)[0] == e[0];
    if |e| > 1 {
      UnescapeEscaped(c, tail);
    }
  }

  lemma EscapeShape(c: char)
    ensures EscapeChar(c) != []
    ensures |EscapeChar(c)| == 1 ==> EscapeChar(c) == [c] && c >= ' ' && c != '"' && c != '\\'
    ensures |EscapeChar(c)| > 1 ==> EscapeChar(c)[0] == '\\'
  {
  }

  lemma {:induction false} DecodeEscaped(s: string, tail: string)
    ensures DecodeString(Escape(s) + "\"" + tail) == Some(Decoded(s, tail))
  {
    if s == [] {
      assert Escape(s) + "\"" + tail == "\"" + tail;
      assert ("\"" + tail)[1..] == tail;
    } else {
      assert Escape(s) + "\"" + tail == EscapeChar(s[0]) + (Escape(s[1..]) + "\"" + tail);
      DecodeEscaped(s[1..], tail);
      DecodeEscapedChar(s[0], Escape(s[1..]) + "\"" + tail);
      assert [s[0]] + s[1..] == s;
    }
  }

  lemma DecodeMember(e: Entry<string>, tail: string)
    requires tail != []
    ensures DecodeMembers(Member(e) + tail)
            == if tail == "}" then Some([e])
               else if tail[0] != ',' then None
               else if DecodeMembers(tail[1..]).None? then None
               else Some([e] + DecodeMembers(tail[1..]).value)
  {
    hide Escape, DecodeString;
    var afterKey := ":\"" + (Escape(e.value) + "\"" + tail);
    MemberText(e, tail);
    DecodeEscaped(e.key, afterKey);
    DecodeEscaped(e.value, tail);
    MembersStep("\"" + (Escape(e.key) + "\"" + afterKey), Decoded(e.key, afterKey), Decoded(e.value, tail));
  }

  lemma MemberText(e: Entry<string>, tail: string)
    ensures Member(e) + tail
            == "\"" + (Escape(e.key) + "\"" + (":\"" + (Escape(e.value) + "\"" + tail)))
  {
    hide Escape;
  }

  lemma MembersStep(s: string, key: Decoded, value: Decoded)
    requires s != [] && s[0] == '"' && DecodeString(s[1..]) == Some(key)
    requires |key.rest| >= 2 && key.rest[..2] == ":\"" && DecodeString(key.rest[2..]) == Some(value)
    requires value.rest != []
    ensures DecodeMembers(s)
            == if value.rest == "}" then Some([Entry(key.text, value.text)])
               else if value.rest[0] != ',' then None
               else if DecodeMembers(value.rest[1..]).None? then None
               else Some([Entry(key.text, value.text)] + DecodeMembers(value.rest[1..]).value)
  {
    hide DecodeString;
  }

  lemma {:induction false} DecodeJoined(fields: Fields)
    requires fields != []
    ensures DecodeMembers(JoinMembers(fields) + "}") == Some(fields)
  {
    hide Member, DecodeMembers;
    if |fields| == 1 {
      DecodeMember(fields[0], "}");
      assert fields == [fields[0]];
    } else {
      var tail := "," + (JoinMembers(fields[1..]) + "}");
      assert JoinMembers(fields) + "}" == Member(fields[0]) + tail;
      assert tail[1..] == JoinMembers(fields[1..]) + "}";
      DecodeJoined(fields[1..]);
      DecodeMember(fields[0], tail);
      assert fields == [fields[0]] + fields[1..];
    }
  }

  /** Reading a printed line gives back exactly the fields, whatever characters they hold. */
  lemma LineRoundTrip(fields: Fields)
    ensures DecodeLine(Line(fields)) == Some(fields)
  {
    hide DecodeMembers, JoinMembers;
    if fields == [] {
      NothingJoined();
    } else {
      DecodeJoined(fields);
      assert Line(fields)[1..] == JoinMembers(fields) + "}";
      BeginsWithQuote(fields);
    }
  }

  lemma BeginsWithQuote(fields: Fields)
    requires fields != []
    ensures JoinMembers(fields) != [] && JoinMembers(fields)[0] == '"'
  {
    hide Escape;
    assert Member(fields[0])[0] == '"';
  }

  predicate NoControls(s: string) {
    forall i :: 0 <= i < |s| ==> s[i] >= ' '
  }

  lemma {:induction false} EscapedHasNoControls(s: string)
    ensures NoControls(Escape(s))
  {
    if s != [] {
      EscapedHasNoControls(s[1..]);
    }
  }

  lemma {:induction false} JoinedHasNoControls(fields: Fields)
    ensures NoControls(JoinMembers(fields))
  {
    hide Escape;
    if fields != [] {
      EscapedHasNoControls(fields[0].key);
      EscapedHasNoControls(fields[0].value);
      JoinedHasNoControls(fields[1..]);
    }
  }

  /** The whole record is one line: no character below U+0020 is printed. */
  lemma LineIsOneLine(fields: Fields)
    ensures NoControls(Line(fields))
  {
    JoinedHasNoControls(fields);
  }

  /** The core fields as they are spelled. */
  lemma CoreFieldsAreSpelled(r: LogRecord)
    requires Sorted(r.details)
    ensures Lookup(KvMap(r), "schema_version") == Some("1.0")
    ensures Lookup(KvMap(r), "level")
            == Some(match r.level case Info => "info" case Warn => "warn" case Error => "error")
    ensures Lookup(KvMap(r), "event_type") == Some(r.eventType)
    ensures Lookup(KvMap(r), "reason") == Some(r.reason)
    ensures Lookup(KvMap(r), "backend")
            == match r.backend
               case None => None
               case Some(Docker) => Some("docker")
               case Some(Podman) => Some("podman")
               case Some(Custom(_)) => Some("custom")
    ensures Lookup(KvMap(r), "action") == if r.isDelete then Some("delete") else None
  {
    hide KvMap, Lookup;
    FieldsAreExact(r, "schema_version");
    FieldsAreExact(r, "level");
    FieldsAreExact(r, "event_type");
    FieldsAreExact(r, "reason");
    FieldsAreExact(r, "backend");
    FieldsAreExact(r, "action");
  }
}
