/** The TOML subset of src/config.rs: scanner and parser as the source has them, each loop
    against the function that says what it reads. */
module Toml {
  import opened Wrappers
  import opened Text

  const I64_MIN: int := -0x8000_0000_0000_0000
  const I64_MAX: int := 0x7FFF_FFFF_FFFF_FFFF

  type i64 = x: int | I64_MIN <= x <= I64_MAX

  datatype TomlValue =
    | Boolean(b: bool)
    | Integer(i: i64)
    | Str(s: string)
    | Array(vs: seq<TomlValue>)

  datatype ConfigError =
    | ParseError(line: nat, key: Option<string>)
    | UnknownKey
    | ValidationError

  // ---------- the quote and escape automaton ----------

  datatype Scan = Plain | Quoted | Escaped

  function Next(st: Scan, c: char): Scan {
    match st
    case Plain => if c == '"' then Quoted else Plain
    case Quoted => if c == '\\' then Escaped else if c == '"' then Plain else Quoted
    case Escaped => Quoted
  }

  function After(st: Scan, s: string): Scan {
    if s == [] then st else Next(After(st, s[..|s| - 1]), s[|s| - 1])
  }

  /** Character i is a `c` outside every string. */
  predicate PlainAt(s: string, i: nat, c: char)
    requires i < |s|
  {
    s[i] == c && After(Plain, s[..i]) == Plain
  }

  predicate NoPlain(s: string, c: char) {
    forall i :: 0 <= i < |s| ==> !PlainAt(s, i, c)
  }

  // ---------- comments ----------

  /** Where the comment begins, or the end of the line. */
  function CommentStart(line: string): (k: nat)
    ensures k <= |line|
    ensures k < |line| ==> PlainAt(line, k, '#')
    ensures forall i :: 0 <= i < k ==> !PlainAt(line, i, '#')
  {
    if line == [] then 0
    else
      var front := line[..|line| - 1];
      var k := CommentStart(front);
      assert forall i :: 0 <= i < |front| ==> PlainAt(line, i, '#') == PlainAt(front, i, '#') by {
        assert forall i :: 0 <= i < |front| ==> line[..i] == front[..i];
      }
      if k < |front| then k else if PlainAt(line, |front|, '#') then |front| else |line|
  }

  method StripComment(line: string) returns (out: string)
    ensures out == line[..CommentStart(line)]
  {
    out := "";
    var inString, escaped := false, false;
    for i := 0 to |line|
      invariant out == line[..i]
      invariant After(Plain, line[..i]) == if !inString then Plain else if escaped then Escaped else Quoted
      invariant !inString ==> !escaped
      invariant forall k :: 0 <= k < i ==> !PlainAt(line, k, '#')
    {
      var c := line[i];
      assert line[..i + 1][..i] == line[..i];
      if inString {
        out := out + [c];
        if escaped {
          escaped := false;
        } else if c == '\\' {
          escaped := true;
        } else if c == '"' {
          inString := false;
        }
        continue;
      }
      if c == '"' {
        inString := true;
        out := out + [c];
      } else if c == '#' {
        assert PlainAt(line, i, '#');
        return;
      } else {
        out := out + [c];
      }
    }
    assert line[..|line|] == line;
  }

  // ---------- strings ----------

  function UnescapedChar(c: char): char {
    match c
    case 'n' => '\n'
    case 'r' => '\r'
    case 't' => '\t'
    case _ => c
  }

  /** Text read so far and whether a backslash is pending. */
  function Unescape(s: string): (string, bool) {
    if s == [] then ([], false)
    else
      var (out, escaped) := Unescape(s[..|s| - 1]);
      var c := s[|s| - 1];
      if escaped then (out + [UnescapedChar(c)], false)
      else if c == '\\' then (out, true)
      else (out + [c], false)
  }

  function ParseStringValue(raw: string): Option<string> {
    if |raw| < 2 || raw[|raw| - 1] != '"' then None
    else
      var (out, escaped) := Unescape(raw[1..|raw| - 1]);
      if escaped then None else Some(out)
  }

  method ParseString(raw: string) returns (r: Option<string>)
    ensures r == ParseStringValue(raw)
  {
    if |raw| < 2 || raw[|raw| - 1] != '"' {
      return None;
    }
    var chars := raw[1..|raw| - 1];
    var out := "";
    var escaped := false;
    for i := 0 to |chars|
      invariant (out, escaped) == Unescape(chars[..i])
    {
      var c := chars[i];
      assert chars[..i + 1][..i] == chars[..i];
      if escaped {
        out := out + [UnescapedChar(c)];
        escaped := false;
        continue;
      }
      if c == '\\' {
        escaped := true;
      } else {
        out := out + [c];
      }
    }
    assert chars[..|chars|] == chars;
    return if escaped then None else Some(out);
  }

  // ---------- values ----------

  datatype Pieces = Pieces(tokens: seq<string>, current: string)

  /** The text cut at its plain commas. */
  function CutAtCommas(s: string): (p: Pieces)
    ensures |p.current| <= |s|
    ensures forall k :: 0 <= k < |p.tokens| ==> |p.tokens[k]| <= |s|
  {
    if s == [] then Pieces([], [])
    else
      var front, c := s[..|s| - 1], s[|s| - 1];
      var p := CutAtCommas(front);
      if c == ',' && After(Plain, front) == Plain then Pieces(p.tokens + [p.current], [])
      else p.(current := p.current + [c])
  }

  function AsciiLower(s: string): string {
    seq(|s|, i requires 0 <= i < |s| => if 'A' <= s[i] <= 'Z' then (s[i] as int + 32) as char else s[i])
  }

  predicate AllShorter(tokens: seq<string>, bound: nat) {
    forall k :: 0 <= k < |tokens| ==> |tokens[k]| < bound
  }

  function ValueOf(raw: string): Option<TomlValue>
    decreases |raw|, 2, 0
  {
    var t := Trim(raw);
    if t == [] then None
    else if t[0] == '"' then
      var s := ParseStringValue(t);
      if s.None? then None else Some(Str(s.value))
    else if AsciiLower(t) == "true" then Some(Boolean(true))
    else if AsciiLower(t) == "false" then Some(Boolean(false))
    else if t[0] == '[' then
      var vs := ArrayOf(t);
      if vs.None? then None else Some(Array(vs.value))
    else
      var n := ParseInt(t, I64_MIN, I64_MAX);
      if n.None? then None else Some(Integer(n.value))
  }

  function ArrayOf(raw: string): Option<seq<TomlValue>>
    requires raw != [] && raw[0] == '['
    decreases |raw|, 1, 0
  {
    if raw[|raw| - 1] != ']' then None else ElementsOf(raw[1..|raw| - 1])
  }

  /** What stands between the brackets. */
  function ElementsOf(inner: string): Option<seq<TomlValue>>
    decreases |inner| + 1, 1, 0
  {
    if After(Plain, inner) != Plain then None
    else
      var p := CutAtCommas(inner);
      ValuesOf(p.tokens + [p.current], |inner| + 1)
  }

  /** The values of the non-blank tokens, if all of them have one. */
  function ValuesOf(tokens: seq<string>, ghost bound: nat): Option<seq<TomlValue>>
    requires AllShorter(tokens, bound)
    decreases bound, 0, |tokens|
  {
    if tokens == [] then Some([])
    else
      var before := ValuesOf(tokens[..|tokens| - 1], bound);
      var token := Trim(tokens[|tokens| - 1]);
      if before.None? then None
      else if token == [] then before
      else
        var v := ValueOf(token);
        if v.None? then None else Some(before.value + [v.value])
  }

  lemma {:induction false} ValuesFailEarly(tokens: seq<string>, k: nat, bound: nat)
    requires AllShorter(tokens, bound) && k <= |tokens|
    requires ValuesOf(tokens[..k], bound).None?
    ensures ValuesOf(tokens, bound).None?
    decreases |tokens|
  {
    if k < |tokens| {
      var front := tokens[..|tokens| - 1];
      assert front[..k] == tokens[..k];
      ValuesFailEarly(front, k, bound);
    } else {
      assert tokens[..k] == tokens;
    }
  }

  lemma {:induction false} BoundIsIrrelevant(tokens: seq<string>, b: nat, c: nat)
    requires AllShorter(tokens, b) && AllShorter(tokens, c)
    ensures ValuesOf(tokens, b) == ValuesOf(tokens, c)
  {
    if tokens != [] {
      BoundIsIrrelevant(tokens[..|tokens| - 1], b, c);
    }
  }

  method ParseValue(raw: string) returns (r: Option<TomlValue>)
    ensures r == ValueOf(raw)
    decreases |raw|, 1
  {
    var t := Trim(raw);
    if t == [] {
      return None;
    }
    if t[0] == '"' {
      var s := ParseString(t);
      return if s.None? then None else Some(Str(s.value));
    }
    if AsciiLower(t) == "true" {
      return Some(Boolean(true));
    }
    if AsciiLower(t) == "false" {
      return Some(Boolean(false));
    }
    if t[0] == '[' {
      var vs := ParseArray(t);
      return if vs.None? then None else Some(Array(vs.value));
    }
    var n := ParseInt(t, I64_MIN, I64_MAX);
    r := if n.None? then None else Some(Integer(n.value));
  }

  lemma CutStep(s: string, i: nat)
    requires i < |s|
    ensures After(Plain, s[..i + 1]) == Next(After(Plain, s[..i]), s[i])
    ensures
      var p := CutAtCommas(s[..i]);
      CutAtCommas(s[..i + 1])
      == if s[i] == ',' && After(Plain, s[..i]) == Plain then Pieces(p.tokens + [p.current], [])
         else p.(current := p.current + [s[i]])
  {
    assert s[..i + 1][..i] == s[..i];
  }

  lemma CutNothing(bound: nat)
    ensures CutAtCommas([]) == Pieces([], []) && After(Plain, []) == Plain
    ensures ValuesOf([], bound) == Some([])
  {
  }

  method ParseArray(raw: string) returns (r: Option<seq<TomlValue>>)
    requires raw != [] && raw[0] == '['
    ensures r == ArrayOf(raw)
    decreases |raw|, 0
  {
    if raw[|raw| - 1] != ']' {
      return None;
    }
    r := ParseElements(raw[1..|raw| - 1]);
  }

  /** Cuts and parses in one pass; a bad token ends it at once, before the text behind it
      has been looked at. */
  method ParseElements(inner: string) returns (r: Option<seq<TomlValue>>)
    ensures r == ElementsOf(inner)
    decreases |inner| + 1, 0
  {
    ghost var bound := |inner| + 1;
    hide ValueOf, ValuesOf, CutAtCommas, After;
    CutNothing(bound);
    assert inner[..0] == [];
    var values: seq<TomlValue> := [];
    var current := "";
    var inString, escaped := false, false;
    for i := 0 to |inner|
      invariant current == CutAtCommas(inner[..i]).current
      invariant After(Plain, inner[..i]) == if !inString then Plain else if escaped then Escaped else Quoted
      invariant !inString ==> !escaped
      invariant AllShorter(CutAtCommas(inner[..i]).tokens, bound)
      invariant ValuesOf(CutAtCommas(inner[..i]).tokens, bound) == Some(values)
    {
      var c := inner[i];
      CutStep(inner, i);
      if inString {
        current := current + [c];
        if escaped {
          escaped := false;
        } else if c == '\\' {
          escaped := true;
        } else if c == '"' {
          inString := false;
        }
        continue;
      }
      if c == '"' {
        inString := true;
        current := current + [c];
      } else if c == ',' {
        ghost var before := CutAtCommas(inner[..i]).tokens;
        var token := Trim(current);
        ValuesMore(before, current, bound);
        if token != [] {
          var v := ParseValue(token);
          if v.None? {
            BadTokenFails(inner, i + 1);
            return None;
          }
          values := values + [v.value];
        }
        current := "";
      } else {
        current := current + [c];
      }
    }
    assert inner[..|inner|] == inner;
    if inString {
      return None;
    }
    var token := Trim(current);
    ValuesMore(CutAtCommas(inner).tokens, current, bound);
    if token != [] {
      var v := ParseValue(token);
      if v.None? {
        return None;
      }
      values := values + [v.value];
    }
    return Some(values);
  }

  lemma ValuesMore(tokens: seq<string>, token: string, bound: nat)
    requires AllShorter(tokens, bound) && |token| < bound
    ensures AllShorter(tokens + [token], bound)
    ensures
      var before := ValuesOf(tokens, bound);
      ValuesOf(tokens + [token], bound)
      == if before.None? then None
         else if Trim(token) == [] then before
         else if ValueOf(Trim(token)).None? then None
         else Some(before.value + [ValueOf(Trim(token)).value])
  {
    hide ValueOf;
    assert (tokens + [token])[..|tokens|] == tokens;
  }

  lemma {:induction false} CutIsOnline(s: string, k: nat)
    requires k <= |s|
    ensures CutAtCommas(s[..k]).tokens <= CutAtCommas(s).tokens
    decreases |s|
  {
    if k < |s| {
      assert s[..|s| - 1][..k] == s[..k];
      CutIsOnline(s[..|s| - 1], k);
    } else {
      assert s[..k] == s;
    }
  }

  lemma BadTokenFails(inner: string, k: nat)
    requires k <= |inner|
    requires ValuesOf(CutAtCommas(inner[..k]).tokens, |inner| + 1).None?
    ensures ElementsOf(inner).None?
  {
    hide ValueOf, ValuesOf, CutAtCommas, After;
    CutIsOnline(inner, k);
    var p := CutAtCommas(inner);
    MoreTokensStillFail(CutAtCommas(inner[..k]).tokens, p.tokens + [p.current], |inner| + 1);
  }

  lemma MoreTokensStillFail(tokens: seq<string>, all: seq<string>, bound: nat)
    requires AllShorter(all, bound) && tokens <= all
    requires AllShorter(tokens, bound) && ValuesOf(tokens, bound).None?
    ensures ValuesOf(all, bound).None?
  {
    assert all[..|tokens|] == tokens;
    ValuesFailEarly(all, |tokens|, bound);
  }

  // ---------- lines and documents ----------

  datatype Parsed =
    | Nothing
    | Section(parts: seq<string>)
    | KeyValue(key: string, value: TomlValue)
    | Malformed

  function TrimAll(parts: seq<string>): seq<string> {
    seq(|parts|, i requires 0 <= i < |parts| => Trim(parts[i]))
  }

  function LineOf(raw: string): Parsed {
    var line := Trim(raw[..CommentStart(raw)]);
    if line == [] then Nothing
    else if line[0] == '[' then
      if line[|line| - 1] != ']' then Malformed
      else
        var section := Trim(line[1..|line| - 1]);
        if section == [] then Malformed else Section(TrimAll(Split(section, '.')))
    else if Free(line, '=') then Malformed
    else
      var i := FirstIndex(line, '=');
      var key := Trim(line[..i]);
      if key == [] then Malformed
      else
        var value := ValueOf(Trim(line[i + 1..]));
        if value.None? then Malformed else KeyValue(key, value.value)
  }

  function Join(parts: seq<string>): string {
    if parts == [] then []
    else if |parts| == 1 then parts[0]
    else parts[0] + "." + Join(parts[1..])
  }

  function FullKey(section: seq<string>, key: string): string {
    if section == [] then key else Join(section) + "." + key
  }

  datatype Reading = Reading(section: seq<string>, entries: map<string, TomlValue>)

  function ReadLine(r: Reading, p: Parsed, lineNo: nat): Result<Reading, ConfigError> {
    match p
    case Nothing => Ok(r)
    case Section(parts) => Ok(r.(section := parts))
    case Malformed => Err(ParseError(lineNo, None))
    case KeyValue(key, value) =>
      var full := FullKey(r.section, key);
      if full in r.entries then Err(ParseError(lineNo, Some(full)))
      else Ok(r.(entries := r.entries[full := value]))
  }

  function ReadAll(ps: seq<Parsed>): Result<Reading, ConfigError> {
    if ps == [] then Ok(Reading([], map[]))
    else
      var before := ReadAll(ps[..|ps| - 1]);
      if before.Err? then before else ReadLine(before.value, ps[|ps| - 1], |ps|)
  }

  function StripCr(s: string): string {
    if s != [] && s[|s| - 1] == '\r' then s[..|s| - 1] else s
  }

  /** `str::lines`. */
  function Lines(s: string): seq<string> {
    if s == [] then []
    else if Free(s, '\n') then [s]
    else
      var i := FirstIndex(s, '\n');
      [StripCr(s[..i])] + Lines(s[i + 1..])
  }

  function ParsedLines(lines: seq<string>): seq<Parsed> {
    seq(|lines|, i requires 0 <= i < |lines| => LineOf(lines[i]))
  }

  function Entries(input: string): Result<map<string, TomlValue>, ConfigError> {
    match ReadAll(ParsedLines(Lines(input)))
    case Ok(r) => Ok(r.entries)
    case Err(error) => Err(error)
  }

  lemma {:induction false} ReadingFailsEarly(ps: seq<Parsed>, k: nat)
    requires k <= |ps| && ReadAll(ps[..k]).Err?
    ensures ReadAll(ps) == ReadAll(ps[..k])
    decreases |ps|
  {
    if k < |ps| {
      assert ps[..|ps| - 1][..k] == ps[..k];
      ReadingFailsEarly(ps[..|ps| - 1], k);
    } else {
      assert ps[..k] == ps;
    }
  }

  /** One line: comment, surrounding space, then header or assignment. */
  method ParseLine(raw: string) returns (p: Parsed)
    ensures p == LineOf(raw)
  {
    hide ValueOf, Split;
    var stripped := StripComment(raw);
    var line := Trim(stripped);
    if line == [] {
      return Nothing;
    }
    if line[0] == '[' {
      if line[|line| - 1] != ']' {
        return Malformed;
      }
      var section := Trim(line[1..|line| - 1]);
      return if section == [] then Malformed else Section(TrimAll(Split(section, '.')));
    }
    if Free(line, '=') {
      return Malformed;
    }
    var at := FirstIndex(line, '=');
    var key := Trim(line[..at]);
    if key == [] {
      return Malformed;
    }
    var value := ParseValue(Trim(line[at + 1..]));
    p := if value.None? then Malformed else KeyValue(key, value.value);
  }

  lemma ReadStep(ps: seq<Parsed>, i: nat)
    requires i < |ps|
    ensures ReadAll(ps[..i + 1])
            == if ReadAll(ps[..i]).Err? then ReadAll(ps[..i]) else ReadLine(ReadAll(ps[..i]).value, ps[i], i + 1)
  {
    assert ps[..i + 1][..i] == ps[..i];
  }

  method ParseTomlSubset(input: string) returns (r: Result<map<string, TomlValue>, ConfigError>)
    ensures r == Entries(input)
  {
    hide LineOf, Join;
    var lines := Lines(input);
    ghost var all := ParsedLines(lines);
    var entries: map<string, TomlValue> := map[];
    var section: seq<string> := [];
    for i := 0 to |lines|
      invariant ReadAll(all[..i]) == Ok(Reading(section, entries))
    {
      ReadStep(all, i);
      var lineNo := i + 1;
      var parsed := ParseLine(lines[i]);
      match parsed {
        case Nothing =>
        case Section(parts) => section := parts;
        case Malformed =>
          ReadingFailsEarly(all, i + 1);
          return Err(ParseError(lineNo, None));
        case KeyValue(key, value) =>
          var full := FullKey(section, key);
          if full in entries {
            ReadingFailsEarly(all, i + 1);
            return Err(ParseError(lineNo, Some(full)));
          }
          entries := entries[full := value];
      }
    }
    assert all[..|lines|] == all;
    r := Ok(entries);
  }

  // ---------- what the grammar comes to ----------

  /** The escapes by name; any other character behind a backslash stands for itself. */
  lemma EscapesMean(c: char)
    ensures ParseStringValue("\"\\" + [c] + "\"")
            == Some([if c == 'n' then '\n' else if c == 'r' then '\r' else if c == 't' then '\t' else c])
  {
    var raw := "\"\\" + [c] + "\"";
    var pair := ['\\', c];
    assert raw[1..|raw| - 1] == pair;
    assert pair[..1] == ['\\'] && ['\\'][..0] == [];
    assert Unescape([]) == ([], false);
    assert Unescape(['\\']) == ([], true);
    var nothing: string := [];
    assert nothing + [UnescapedChar(c)] == [UnescapedChar(c)];
    assert Unescape(pair) == ([UnescapedChar(c)], false);
    assert raw[|raw| - 1] == '"';
    assert ParseStringValue(raw) == Some([UnescapedChar(c)]);
  }

  /** Truth values in any letter case. */
  lemma TruthInAnyCase()
    ensures ValueOf("true") == ValueOf("True") == ValueOf("TRUE") == Some(Boolean(true))
    ensures ValueOf("false") == ValueOf("False") == ValueOf("FALSE") == Some(Boolean(false))
  {
    TrimTight("true");
    TrimTight("True");
    TrimTight("TRUE");
    TrimTight("false");
    TrimTight("False");
    TrimTight("FALSE");
    assert AsciiLower("True") == AsciiLower("TRUE") == AsciiLower("true") == "true";
    assert AsciiLower("False") == AsciiLower("FALSE") == AsciiLower("false") == "false";
  }

  /** A comma behind the last element changes nothing. */
  lemma TrailingCommaIsIgnored(inner: string)
    requires After(Plain, inner) == Plain
    ensures ElementsOf(inner + ",") == ElementsOf(inner)
  {
    hide ValueOf, ValuesOf;
    var p, n := CutAtCommas(inner), |inner| + 2;
    CutStep(inner + ",", |inner|);
    assert (inner + ",")[..|inner|] == inner && (inner + ",")[..|inner| + 1] == inner + ",";
    ValuesMore(p.tokens + [p.current], [], n);
    BoundIsIrrelevant(p.tokens + [p.current], |inner| + 1, n);
    NothingTrims();
  }

  lemma NothingTrims()
    ensures Trim([]) == []
  {
  }

  function SectionOf(ps: seq<Parsed>): seq<string> {
    if ps == [] then []
    else if ps[|ps| - 1].Section? then ps[|ps| - 1].parts
    else SectionOf(ps[..|ps| - 1])
  }

  /** The key of line i in full. */
  function KeyAt(ps: seq<Parsed>, i: nat): string
    requires i < |ps| && ps[i].KeyValue?
  {
    FullKey(SectionOf(ps[..i]), ps[i].key)
  }

  /** A key given twice is refused, wherever and in whatever section: what is read has every
      key once, with the value of its line. */
  lemma {:induction false} NoKeyTwice(ps: seq<Parsed>, i: nat)
    requires ReadAll(ps).Ok? && i < |ps| && ps[i].KeyValue?
    ensures KeyAt(ps, i) in ReadAll(ps).value.entries
    ensures ReadAll(ps).value.entries[KeyAt(ps, i)] == ps[i].value
    ensures forall j :: 0 <= j < i && ps[j].KeyValue? ==> KeyAt(ps, j) != KeyAt(ps, i)
    decreases |ps|
  {
    hide FullKey;
    var n := |ps| - 1;
    var front := ps[..n];
    SectionIsRead(front);
    if i < n {
      NoKeyTwice(front, i);
      assert front[..i] == ps[..i];
      forall j | 0 <= j < i && ps[j].KeyValue? ensures KeyAt(ps, j) != KeyAt(ps, i) {
        assert front[..j] == ps[..j];
        assert KeyAt(front, j) == KeyAt(ps, j);
      }
    } else {
      forall j | 0 <= j < i && ps[j].KeyValue? ensures KeyAt(ps, j) != KeyAt(ps, i) {
        NoKeyTwice(front, j);
        assert front[..j] == ps[..j];
      }
    }
  }

  lemma {:induction false} SectionIsRead(ps: seq<Parsed>)
    requires ReadAll(ps).Ok?
    ensures ReadAll(ps).value.section == SectionOf(ps)
  {
    hide FullKey;
    if ps != [] {
      SectionIsRead(ps[..|ps| - 1]);
    }
  }
}
