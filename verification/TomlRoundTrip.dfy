/** A printer for documents of the TOML subset, and the proof that the parser of
    src/config.rs reads every printed document back. */
module TomlRoundTrip {
  import opened Wrappers
  import opened Text
  import opened Toml

  // ---------- scanning pieces of text ----------

  lemma {:induction false} AfterConcat(st: Scan, a: string, b: string)
    ensures After(st, a + b) == After(After(st, a), b)
  {
    if b == [] {
      assert a + b == a;
    } else {
      assert (a + b)[..|a + b| - 1] == a + b[..|b| - 1];
      AfterConcat(st, a, b[..|b| - 1]);
    }
  }

  /** Begins and ends outside strings and shows no plain `c` in between. */
  predicate Inert(s: string, c: char) {
    After(Plain, s) == Plain && NoPlain(s, c)
  }

  lemma InertConcat(a: string, b: string, c: char)
    requires Inert(a, c) && Inert(b, c)
    ensures Inert(a + b, c)
  {
    hide After;
    AfterConcat(Plain, a, b);
    forall i | 0 <= i < |a + b| ensures !PlainAt(a + b, i, c) {
      if i < |a| {
        assert (a + b)[..i] == a[..i];
        assert !PlainAt(a, i, c);
      } else {
        var j := i - |a|;
        assert (a + b)[..i] == a + b[..j];
        AfterConcat(Plain, a, b[..j]);
        assert !PlainAt(b, j, c);
      }
    }
  }

  lemma {:induction false} UnquotedIsInert(s: string, c: char)
    requires Free(s, '"') && Free(s, c)
    ensures Inert(s, c)
  {
    if s != [] {
      UnquotedIsInert(s[..|s| - 1], c);
    }
  }

  // ---------- strings ----------

  function EscapeOne(c: char): string {
    match c
    case '"' => "\\\""
    case '\\' => "\\\\"
    case '\n' => "\\n"
    case '\r' => "\\r"
    case '\t' => "\\t"
    case _ => [c]
  }

  function EscapeText(s: string): string {
    if s == [] then [] else EscapeText(s[..|s| - 1]) + EscapeOne(s[|s| - 1])
  }

  function Quote(s: string): string {
    "\"" + EscapeText(s) + "\""
  }

  lemma AfterOne(st: Scan, c: char)
    ensures After(st, [c]) == Next(st, c)
  {
    assert [c][..0] == [];
  }

  lemma EscapeOneStaysQuoted(c: char)
    ensures After(Quoted, EscapeOne(c)) == Quoted
    ensures |EscapeOne(c)| == 2 ==> After(Quoted, EscapeOne(c)[..1]) == Escaped
  {
    var e := EscapeOne(c);
    AfterOne(Quoted, e[0]);
    assert e[..1] == [e[0]];
    if |e| == 2 {
      assert e == [e[0]] + [e[1]];
      AfterConcat(Quoted, [e[0]], [e[1]]);
      AfterOne(Escaped, e[1]);
    }
  }

  /** No prefix of escaped text leaves the string it stands in. */
  lemma {:induction false} EscapedStaysQuoted(s: string, i: nat)
    requires i <= |EscapeText(s)|
    ensures After(Quoted, EscapeText(s)[..i]) != Plain
    ensures i == |EscapeText(s)| ==> After(Quoted, EscapeText(s)[..i]) == Quoted
  {
    hide After;
    if s == [] {
      AfterNothing();
    } else {
      var front, e := EscapeText(s[..|s| - 1]), EscapeOne(s[|s| - 1]);
      EscapedStaysQuoted(s[..|s| - 1], if i <= |front| then i else |front|);
      EscapeOneStaysQuoted(s[|s| - 1]);
      assert front[..|front|] == front;
      if i <= |front| {
        assert EscapeText(s)[..i] == front[..i];
      } else {
        assert EscapeText(s)[..i] == front + e[..i - |front|];
        AfterConcat(Quoted, front, e[..i - |front|]);
        assert i - |front| == |e| ==> e[..i - |front|] == e;
      }
    }
  }

  lemma AfterNothing()
    ensures After(Quoted, []) == Quoted
  {
  }

  lemma QuoteIsInert(s: string, c: char)
    requires c != '"'
    ensures Inert(Quote(s), c)
  {
    hide After, EscapeText;
    var e, q := EscapeText(s), Quote(s);
    AfterOne(Plain, '"');
    AfterOne(Quoted, '"');
    EscapedStaysQuoted(s, |e|);
    assert e[..|e|] == e;
    AfterConcat(Plain, "\"", e);
    AfterConcat(Plain, "\"" + e, "\"");
    forall i | 0 <= i < |q| ensures !PlainAt(q, i, c) {
      if 1 <= i <= |e| {
        assert q[..i] == "\"" + e[..i - 1];
        AfterConcat(Plain, "\"", e[..i - 1]);
        EscapedStaysQuoted(s, i - 1);
      }
    }
  }

  lemma UnescapeOne(x: string, out: string, c: char)
    requires Unescape(x) == (out, false)
    ensures Unescape(x + EscapeOne(c)) == (out + [c], false)
  {
    var e := EscapeOne(c);
    if |e| == 1 {
      assert (x + e)[..|x + e| - 1] == x;
    } else {
      assert (x + e)[..|x + e| - 1] == x + e[..1];
      assert (x + e[..1])[..|x|] == x;
    }
  }

  lemma {:induction false} UnescapeEscaped(s: string)
    ensures Unescape(EscapeText(s)) == (s, false)
  {
    if s != [] {
      UnescapeEscaped(s[..|s| - 1]);
      UnescapeOne(EscapeText(s[..|s| - 1]), s[..|s| - 1], s[|s| - 1]);
      assert s == s[..|s| - 1] + [s[|s| - 1]];
    }
  }

  lemma QuoteParses(s: string)
    ensures ParseStringValue(Quote(s)) == Some(s)
  {
    hide EscapeText, Unescape;
    UnescapeEscaped(s);
    assert Quote(s)[1..|Quote(s)| - 1] == EscapeText(s);
  }

  lemma {:induction false} EscapedIsOneLine(s: string)
    ensures Free(EscapeText(s), '\n')
  {
    if s != [] {
      EscapedIsOneLine(s[..|s| - 1]);
    }
  }

  // ---------- values ----------

  function ShowScalar(v: TomlValue): string
    requires !v.Array?
  {
    match v
    case Boolean(b) => if b then "true" else "false"
    case Integer(i) => IntText(i)
    case Str(s) => Quote(s)
  }

  predicate Scalars(vs: seq<TomlValue>) {
    forall k :: 0 <= k < |vs| ==> !vs[k].Array?
  }

  /** Arrays hold scalars only, which is all a configuration needs. */
  predicate Flat(v: TomlValue) {
    v.Array? ==> Scalars(v.vs)
  }

  /** Space to be put between the parts of a text, as far as it goes. */
  type Pads = seq<string>

  predicate IsPad(s: string) {
    AllSpace(s) && Free(s, '\n')
  }

  predicate ArePads(pads: Pads) {
    forall k :: 0 <= k < |pads| ==> IsPad(pads[k])
  }

  function Pad(pads: Pads, k: nat): string {
    if k < |pads| then pads[k] else []
  }

  lemma PadIsSpace(pads: Pads, k: nat)
    requires ArePads(pads)
    ensures IsPad(Pad(pads, k))
  {
  }

  /** Element k with its space on both sides. */
  function ShowElement(v: TomlValue, pads: Pads, k: nat): string
    requires !v.Array?
  {
    Pad(pads, 2 * k) + ShowScalar(v) + Pad(pads, 2 * k + 1)
  }

  function ShowAll(vs: seq<TomlValue>, pads: Pads): string
    requires Scalars(vs)
  {
    if vs == [] then Pad(pads, 0)
    else
      var n := |vs| - 1;
      if n == 0 then ShowElement(vs[0], pads, 0)
      else ShowAll(vs[..n], pads) + "," + ShowElement(vs[n], pads, n)
  }

  function Show(v: TomlValue, pads: Pads): string
    requires Flat(v)
  {
    match v
    case Array(vs) => "[" + ShowAll(vs, pads) + "]"
    case _ => ShowScalar(v)
  }

  /** What printing relies on: the text is tight, on one line, and closed to the scanner. */
  predicate Printable(s: string) {
    Tight(s) && Free(s, '\n') && Inert(s, '#')
  }

  predicate IsNumberText(s: string) {
    s != [] && (s[0] == '-' || IsDigit(s[0])) && forall i :: 1 <= i < |s| ==> IsDigit(s[i])
  }

  lemma IntTextIsNumber(i: int)
    ensures IsNumberText(IntText(i))
  {
    DecimalReadsBack(if i < 0 then -i else i);
  }

  lemma NumberTextIsPlain(s: string)
    requires IsNumberText(s) && |s| >= 1
    ensures Tight(s) && Free(s, '\n') && Free(s, '"') && Free(s, '#') && Free(s, ',')
    ensures AsciiLower(s) != "true" && AsciiLower(s) != "false" && s[0] != '[' && s[0] != '"'
  {
    assert AsciiLower(s)[0] == s[0];
  }

  lemma NumberParses(i: int)
    ensures Tight(IntText(i)) && Free(IntText(i), '\n')
    ensures Inert(IntText(i), '#') && Inert(IntText(i), ',')
    ensures ValueOf(IntText(i)) == if I64_MIN <= i <= I64_MAX then Some(Integer(i)) else None
  {
    var s := IntText(i);
    IntTextIsNumber(i);
    NumberTextIsPlain(s);
    UnquotedIsInert(s, '#');
    UnquotedIsInert(s, ',');
    TrimTight(s);
    ParseIntText(i, I64_MIN, I64_MAX);
  }

  lemma BooleanParses(b: bool)
    ensures Printable(ShowScalar(Boolean(b))) && Inert(ShowScalar(Boolean(b)), ',')
    ensures ValueOf(ShowScalar(Boolean(b))) == Some(Boolean(b))
  {
    var s := ShowScalar(Boolean(b));
    UnquotedIsInert(s, '#');
    UnquotedIsInert(s, ',');
    TrimTight(s);
    assert AsciiLower("true") == "true" && AsciiLower("false") == "false";
  }

  lemma ScalarParses(v: TomlValue)
    requires !v.Array?
    ensures Printable(ShowScalar(v)) && Inert(ShowScalar(v), ',')
    ensures ValueOf(ShowScalar(v)) == Some(v)
  {
    hide After, EscapeText, Unescape;
    match v {
      case Boolean(b) => BooleanParses(b);
      case Integer(i) => NumberParses(i);
      case Str(s) =>
        QuoteIsInert(s, '#');
        QuoteIsInert(s, ',');
        QuoteParses(s);
        EscapedIsOneLine(s);
        TrimTight(Quote(s));
    }
  }

  lemma {:induction false} CutAppend(x: string, a: string)
    requires After(Plain, x) == Plain && NoPlain(a, ',')
    ensures CutAtCommas(x + a) == CutAtCommas(x).(current := CutAtCommas(x).current + a)
  {
    if a == [] {
      assert x + a == x;
    } else {
      var front := a[..|a| - 1];
      assert (x + a)[..|x + a| - 1] == x + front;
      assert NoPlain(front, ',') by {
        forall i | 0 <= i < |front| ensures !PlainAt(front, i, ',') {
          assert a[..i] == front[..i];
          assert !PlainAt(a, i, ',');
        }
      }
      CutAppend(x, front);
      AfterConcat(Plain, x, front);
      assert !PlainAt(a, |front|, ',');
      assert front + [a[|front|]] == a;
    }
  }

  lemma CutComma(x: string)
    requires After(Plain, x) == Plain
    ensures CutAtCommas(x + ",") == Pieces(CutAtCommas(x).tokens + [CutAtCommas(x).current], [])
    ensures After(Plain, x + ",") == Plain
  {
    assert (x + ",")[..|x|] == x;
  }

  /** Values read from the pieces of a printed element list. */
  predicate ReadsAs(s: string, vs: seq<TomlValue>, bound: nat) {
    var p := CutAtCommas(s);
    && After(Plain, s) == Plain
    && AllShorter(p.tokens + [p.current], bound)
    && ValuesOf(p.tokens + [p.current], bound) == Some(vs)
  }

  lemma FirstElement(l: string, t: string, r: string, v: TomlValue, bound: nat)
    requires AllSpace(l) && AllSpace(r) && Tight(t) && Inert(l + t + r, ',')
    requires ValueOf(t) == Some(v) && |l + t + r| < bound
    ensures ReadsAs(l + t + r, [v], bound)
  {
    hide ValueOf, After;
    var s := l + t + r;
    AfterNothingPlain();
    CutAppend([], s);
    assert [] + s == s;
    TrimPadded(l, t, r);
    ValuesMore([], s, bound);
    NoValues(bound);
    assert CutAtCommas(s) == Pieces([], s);
    assert CutAtCommas(s).tokens + [CutAtCommas(s).current] == [] + [s];
    var none: seq<TomlValue> := [];
    assert none + [v] == [v];
  }

  lemma AfterNothingPlain()
    ensures After(Plain, []) == Plain && CutAtCommas([]) == Pieces([], [])
  {
  }

  lemma NoValues(bound: nat)
    ensures ValuesOf([], bound) == Some([])
  {
  }

  lemma NextElement(s: string, vs: seq<TomlValue>, l: string, t: string, r: string, v: TomlValue, bound: nat)
    requires ReadsAs(s, vs, bound) && |l + t + r| < bound
    requires AllSpace(l) && AllSpace(r) && Tight(t) && Inert(l + t + r, ',') && ValueOf(t) == Some(v)
    ensures ReadsAs(s + "," + (l + t + r), vs + [v], bound)
  {
    hide ValueOf, After, CutAtCommas, ValuesOf;
    var p, padded := CutAtCommas(s), l + t + r;
    CutComma(s);
    CutAppend(s + ",", padded);
    AfterConcat(Plain, s + ",", padded);
    assert [] + padded == padded;
    TrimPadded(l, t, r);
    ValuesMore(p.tokens + [p.current], padded, bound);
  }

  /** A padded scalar on its own. */
  lemma ElementIsPlain(v: TomlValue, pads: Pads, k: nat)
    requires !v.Array? && ArePads(pads)
    ensures Free(ShowElement(v, pads, k), '\n')
    ensures Inert(ShowElement(v, pads, k), '#') && Inert(ShowElement(v, pads, k), ',')
  {
    hide After, ShowScalar;
    var l, t, r := Pad(pads, 2 * k), ShowScalar(v), Pad(pads, 2 * k + 1);
    ScalarParses(v);
    PadIsSpace(pads, 2 * k);
    PadIsSpace(pads, 2 * k + 1);
    SpaceIsInert(l);
    SpaceIsInert(r);
    InertConcat(l, t, '#');
    InertConcat(l + t, r, '#');
    InertConcat(l, t, ',');
    InertConcat(l + t, r, ',');
  }

  lemma {:induction false} ElementsRead(vs: seq<TomlValue>, pads: Pads, bound: nat)
    requires vs != [] && Scalars(vs) && ArePads(pads) && |ShowAll(vs, pads)| < bound
    ensures ReadsAs(ShowAll(vs, pads), vs, bound)
    ensures Free(ShowAll(vs, pads), '\n') && Inert(ShowAll(vs, pads), '#')
  {
    hide ValueOf, After, CutAtCommas, ValuesOf, ShowScalar, Pad, ReadsAs;
    var n := |vs| - 1;
    ScalarParses(vs[n]);
    ElementIsPlain(vs[n], pads, n);
    PadIsSpace(pads, 2 * n);
    PadIsSpace(pads, 2 * n + 1);
    var l, t, r := Pad(pads, 2 * n), ShowScalar(vs[n]), Pad(pads, 2 * n + 1);
    if n == 0 {
      FirstElement(l, t, r, vs[0], bound);
      assert vs == [vs[0]];
    } else {
      var front := vs[..n];
      ElementsRead(front, pads, bound);
      NextElement(ShowAll(front, pads), front, l, t, r, vs[n], bound);
      assert vs == front + [vs[n]];
      UnquotedIsInert(",", '#');
      InertConcat(ShowAll(front, pads), ",", '#');
      InertConcat(ShowAll(front, pads) + ",", ShowElement(vs[n], pads, n), '#');
    }
  }

  lemma ArrayParses(vs: seq<TomlValue>, pads: Pads)
    requires Scalars(vs) && ArePads(pads)
    ensures Printable(Show(Array(vs), pads)) && ValueOf(Show(Array(vs), pads)) == Some(Array(vs))
  {
    hide After, CutAtCommas, ValuesOf, ShowScalar, Pad;
    var inner, s := ShowAll(vs, pads), Show(Array(vs), pads);
    assert s[1..|s| - 1] == inner;
    TrimTight(s);
    UnquotedIsInert("[", '#');
    UnquotedIsInert("]", '#');
    if vs == [] {
      PadIsSpace(pads, 0);
      EmptyArrayReads(inner);
      SpaceIsInert(inner);
    } else {
      ElementsRead(vs, pads, |inner| + 1);
    }
    InertConcat("[", inner, '#');
    InertConcat("[" + inner, "]", '#');
    assert AsciiLower(s)[0] == '[';
    assert ArrayOf(s) == Some(vs);
  }

  lemma EmptyArrayReads(pad: string)
    requires IsPad(pad)
    ensures ElementsOf(pad) == Some([])
  {
    hide After, ValuesOf;
    AfterNothingPlain();
    SpaceIsInert(pad);
    CutAppend([], pad);
    assert [] + pad == pad;
    TrimBlank(pad);
    var none: seq<string> := [];
    ValuesMore(none, pad, |pad| + 1);
    NoValues(|pad| + 1);
    assert none + [pad] == [pad];
    assert CutAtCommas(pad) == Pieces([], pad);
  }

  /** Parsing undoes printing, for every flat value, every string content and any space
      inside the brackets. */
  lemma ValueRoundTrip(v: TomlValue, pads: Pads)
    requires Flat(v) && ArePads(pads)
    ensures Printable(Show(v, pads)) && ValueOf(Show(v, pads)) == Some(v)
  {
    if v.Array? {
      ArrayParses(v.vs, pads);
    } else {
      ScalarParses(v);
    }
  }

  // ---------- lines ----------

  /** What a printed line says. A number is any integer; the parser reads it only if it is
      in the range of i64. */
  datatype Item =
    | Blank
    | Header(parts: seq<string>)
    | Assign(key: string, value: TomlValue)
    | AssignNumber(key: string, number: int)

  /** Space inside a line: around the equals sign or inside the brackets of a header, and
      between array elements or the parts of a header. */
  datatype Spacing = Spacing(left: string, right: string, pads: Pads)

  /** A printed line: free space before, inside and after it, an optional comment. */
  datatype DocLine = DocLine(indent: string, item: Item, spacing: Spacing, gap: string, comment: Option<string>)

  /** A name that can stand on the left of an equals sign or between dots. */
  predicate IsName(s: string) {
    Tight(s) && Free(s, '\n') && Free(s, '"') && Free(s, '#')
  }

  predicate WellFormedItem(item: Item) {
    match item
    case Blank => true
    case Header(parts) => parts != [] && forall k :: 0 <= k < |parts| ==> IsName(parts[k]) && Free(parts[k], '.')
    case Assign(key, value) => IsKey(key) && Flat(value)
    case AssignNumber(key, _) => IsKey(key)
  }

  predicate IsKey(s: string) {
    IsName(s) && Free(s, '=') && s[0] != '['
  }

  predicate IsSpacing(sp: Spacing) {
    IsPad(sp.left) && IsPad(sp.right) && ArePads(sp.pads)
  }

  predicate WellFormed(l: DocLine) {
    && IsPad(l.indent) && IsPad(l.gap) && IsSpacing(l.spacing)
    && WellFormedItem(l.item)
    && (l.comment.Some? ==> Free(l.comment.value, '\n'))
  }

  /** The parts from the k-th pad on, joined by dots with space around them. */
  function Dotted(parts: seq<string>, pads: Pads, k: nat): string
    requires parts != []
  {
    if |parts| == 1 then parts[0]
    else parts[0] + Pad(pads, k) + "." + (Pad(pads, k + 1) + Dotted(parts[1..], pads, k + 2))
  }

  function Body(item: Item, sp: Spacing): string
    requires WellFormedItem(item)
  {
    match item
    case Blank => ""
    case Header(parts) => "[" + (sp.left + Dotted(parts, sp.pads, 0) + sp.right) + "]"
    case Assign(key, value) => key + sp.left + "=" + sp.right + Show(value, sp.pads)
    case AssignNumber(key, number) => key + sp.left + "=" + sp.right + IntText(number)
  }

  function Remark(comment: Option<string>): string {
    if comment.Some? then "#" + comment.value else ""
  }

  function PrintLine(l: DocLine): string
    requires WellFormed(l)
  {
    l.indent + Body(l.item, l.spacing) + l.gap + Remark(l.comment)
  }

  function Meaning(item: Item): Parsed {
    match item
    case Blank => Nothing
    case Header(parts) => Section(parts)
    case Assign(key, value) => KeyValue(key, value)
    case AssignNumber(key, number) =>
      if I64_MIN <= number <= I64_MAX then KeyValue(key, Integer(number)) else Malformed
  }

  lemma SpaceIsInert(s: string)
    requires AllSpace(s)
    ensures Inert(s, '#') && Inert(s, ',')
  {
    assert Free(s, '"') && Free(s, '#') && Free(s, ',');
    UnquotedIsInert(s, '#');
    UnquotedIsInert(s, ',');
  }

  lemma CommentStripped(a: string, comment: Option<string>)
    requires Inert(a, '#')
    ensures (a + Remark(comment))[..CommentStart(a + Remark(comment))] == a
  {
    var line := a + Remark(comment);
    assert forall i :: 0 <= i < |a| ==> line[..i] == a[..i];
    assert forall i :: 0 <= i < |a| ==> PlainAt(line, i, '#') == PlainAt(a, i, '#');
    if comment.Some? {
      assert line[..|a|] == a;
      assert PlainAt(line, |a|, '#');
    } else {
      assert line == a;
    }
  }

  lemma BodyStripped(l: DocLine)
    requires WellFormed(l)
    requires l.item.Blank? || Printable(Body(l.item, l.spacing))
    ensures Trim(PrintLine(l)[..CommentStart(PrintLine(l))]) == Body(l.item, l.spacing)
  {
    hide After, CommentStart, Trim, Body;
    SpaceIsInert(l.indent);
    SpaceIsInert(l.gap);
    var body := Body(l.item, l.spacing);
    if l.item.Blank? {
      BlankBody(l.item, l.spacing);
      UnquotedIsInert(body, '#');
    }
    InertConcat(l.indent, body, '#');
    InertConcat(l.indent + body, l.gap, '#');
    CommentStripped(l.indent + body + l.gap, l.comment);
    if l.item.Blank? {
      assert l.indent + body + l.gap == l.indent + l.gap;
      TrimBlank(l.indent + l.gap);
    } else {
      TrimPadded(l.indent, body, l.gap);
    }
  }

  lemma BlankBody(item: Item, sp: Spacing)
    requires item.Blank?
    ensures Body(item, sp) == []
  {
  }

  // ---------- headers ----------

  lemma DottedMore(parts: seq<string>, pads: Pads, k: nat)
    requires |parts| > 1
    ensures Dotted(parts, pads, k)
            == parts[0] + (Pad(pads, k) + "." + Pad(pads, k + 1)) + Dotted(parts[1..], pads, k + 2)
  {
  }

  predicate IsQuiet(s: string) {
    Free(s, '\n') && Free(s, '"') && Free(s, '#')
  }

  lemma PadIsQuiet(s: string)
    requires IsPad(s)
    ensures IsQuiet(s) && Free(s, '.')
  {
  }

  lemma NamesJoin(a: string, mid: string, b: string)
    requires IsName(a) && IsQuiet(mid) && IsName(b)
    ensures IsName(a + mid + b)
  {
  }

  lemma QuietDot(l: string, r: string)
    requires IsQuiet(l) && IsQuiet(r)
    ensures IsQuiet(l + "." + r)
  {
  }

  lemma {:induction false} DottedIsName(parts: seq<string>, pads: Pads, k: nat)
    requires parts != [] && ArePads(pads) && forall i :: 0 <= i < |parts| ==> IsName(parts[i])
    ensures IsName(Dotted(parts, pads, k))
  {
    hide Pad, IsName, IsQuiet;
    if |parts| > 1 {
      DottedIsName(parts[1..], pads, k + 2);
      PadIsSpace(pads, k);
      PadIsSpace(pads, k + 1);
      PadIsQuiet(Pad(pads, k));
      PadIsQuiet(Pad(pads, k + 1));
      QuietDot(Pad(pads, k), Pad(pads, k + 1));
      DottedMore(parts, pads, k);
      NamesJoin(parts[0], Pad(pads, k) + "." + Pad(pads, k + 1), Dotted(parts[1..], pads, k + 2));
    }
  }

  predicate IsPart(s: string) {
    Tight(s) && Free(s, '.')
  }

  lemma PaddedPart(l: string, part: string, r: string)
    requires IsPad(l) && IsPad(r) && IsPart(part)
    ensures Free(l + part + r, '.') && Trim(l + part + r) == part
  {
    hide Trim;
    PadIsQuiet(l);
    PadIsQuiet(r);
    TrimPadded(l, part, r);
  }

  lemma {:induction false} DottedSplits(l: string, parts: seq<string>, pads: Pads, k: nat)
    requires IsPad(l) && parts != [] && ArePads(pads)
    requires forall i :: 0 <= i < |parts| ==> IsPart(parts[i])
    ensures TrimAll(Split(l + Dotted(parts, pads, k), '.')) == parts
    decreases |parts|
  {
    hide Split, Trim, Pad, IsPart, IsPad, Dotted;
    if |parts| == 1 {
      OnePiece(l, parts, pads, k);
    } else {
      var r, next := Pad(pads, k), Pad(pads, k + 1);
      var piece, rest := l + parts[0] + r, next + Dotted(parts[1..], pads, k + 2);
      PadIsSpace(pads, k);
      PadIsSpace(pads, k + 1);
      DottedSplits(next, parts[1..], pads, k + 2);
      DottedMore(parts, pads, k);
      assert l + Dotted(parts, pads, k) == piece + "." + rest;
      PaddedPart(l, parts[0], r);
      SplitStep(piece, '.', rest);
      assert TrimAll([piece] + Split(rest, '.')) == [parts[0]] + TrimAll(Split(rest, '.'));
      assert parts == [parts[0]] + parts[1..];
    }
  }

  lemma OnePiece(l: string, parts: seq<string>, pads: Pads, k: nat)
    requires IsPad(l) && |parts| == 1 && IsPart(parts[0])
    ensures TrimAll(Split(l + Dotted(parts, pads, k), '.')) == parts
  {
    hide Split, Trim, IsPart, IsPad;
    assert l + parts[0] + [] == l + parts[0];
    EmptyPad();
    PaddedPart(l, parts[0], []);
    SplitLast(l + parts[0], '.');
  }

  lemma EmptyPad()
    ensures IsPad([])
  {
  }

  lemma SplitLast(p: string, c: char)
    requires Free(p, c)
    ensures Split(p, c) == [p]
  {
  }

  lemma HeaderReads(l: DocLine)
    requires WellFormed(l) && l.item.Header?
    ensures Free(PrintLine(l), '\n') && LineOf(PrintLine(l)) == Meaning(l.item)
  {
    hide After, CommentStart, Trim, Dotted, Split;
    var parts, sp := l.item.parts, l.spacing;
    var section := Dotted(parts, sp.pads, 0);
    DottedIsName(parts, sp.pads, 0);
    DottedSplits([], parts, sp.pads, 0);
    assert [] + section == section;
    var body := "[" + (sp.left + section + sp.right) + "]";
    UnquotedIsInert(body, '#');
    BodyStripped(l);
    assert body[1..|body| - 1] == sp.left + section + sp.right;
    TrimPadded(sp.left, section, sp.right);
  }

  // ---------- assignments ----------

  lemma AssignmentSplits(key: string, left: string, right: string, value: string)
    requires IsKey(key) && Tight(value) && AllSpace(left) && AllSpace(right)
    ensures
      var line := key + left + "=" + right + value;
      && !Free(line, '=')
      && Trim(line[..FirstIndex(line, '=')]) == key
      && Trim(line[FirstIndex(line, '=') + 1..]) == value
  {
    var line := key + left + "=" + right + value;
    var at := |key + left|;
    assert line[at] == '=';
    assert forall k :: 0 <= k < at ==> line[k] != '=';
    FirstIndexIs(line, '=', at);
    assert line[..at] == [] + key + left;
    TrimPadded([], key, left);
    assert line[at + 1..] == right + value + [];
    TrimPadded(right, value, []);
  }

  lemma FirstIndexIs(s: string, c: char, at: nat)
    requires at < |s| && s[at] == c && forall k :: 0 <= k < at ==> s[k] != c
    ensures !Free(s, c) && FirstIndex(s, c) == at
  {
    var i := FirstIndex(s, c);
    assert forall k :: 0 <= k < i ==> s[k] == s[..i][k] && s[k] != c;
  }

  lemma AssignmentReads(l: DocLine, key: string, text: string)
    requires WellFormed(l) && !l.item.Blank? && !l.item.Header?
    requires IsKey(key) && Printable(text)
    requires Body(l.item, l.spacing) == key + l.spacing.left + "=" + l.spacing.right + text
    ensures Free(PrintLine(l), '\n')
    ensures LineOf(PrintLine(l))
            == if ValueOf(text).None? then Malformed else KeyValue(key, ValueOf(text).value)
  {
    hide After, CommentStart, Trim, ValueOf, Body;
    var left, right := l.spacing.left, l.spacing.right;
    UnquotedIsInert(key, '#');
    SpaceIsInert(left);
    UnquotedIsInert("=", '#');
    SpaceIsInert(right);
    InertConcat(key, left, '#');
    InertConcat(key + left, "=", '#');
    InertConcat(key + left + "=", right, '#');
    InertConcat(key + left + "=" + right, text, '#');
    BodyStripped(l);
    AssignmentSplits(key, left, right, text);
  }

  /** Every printed line is read as what it says, whatever its spacing and comment. */
  lemma LineReads(l: DocLine)
    requires WellFormed(l)
    ensures Free(PrintLine(l), '\n') && LineOf(PrintLine(l)) == Meaning(l.item)
  {
    hide After, CommentStart, Trim, ValueOf;
    match l.item {
      case Blank => BodyStripped(l);
      case Header(_) => HeaderReads(l);
      case Assign(key, value) =>
        ValueRoundTrip(value, l.spacing.pads);
        AssignmentReads(l, key, Show(value, l.spacing.pads));
      case AssignNumber(key, number) =>
        NumberParses(number);
        AssignmentReads(l, key, IntText(number));
    }
  }

  // ---------- documents ----------

  predicate WellFormedDoc(doc: seq<DocLine>) {
    forall i :: 0 <= i < |doc| ==> WellFormed(doc[i])
  }

  function PrintDoc(doc: seq<DocLine>): string
    requires WellFormedDoc(doc)
  {
    if doc == [] then [] else PrintLine(doc[0]) + "\n" + PrintDoc(doc[1..])
  }

  function Meanings(doc: seq<DocLine>): seq<Parsed> {
    seq(|doc|, i requires 0 <= i < |doc| => Meaning(doc[i].item))
  }

  /** A carriage return at the end of a line belongs to its comment or its trailing space. */
  lemma LineReadsWithoutCr(l: DocLine)
    requires WellFormed(l)
    ensures LineOf(StripCr(PrintLine(l))) == Meaning(l.item)
  {
    hide After, CommentStart, Trim, LineOf, Body, Meaning;
    LineReads(l);
    var s := PrintLine(l);
    if s != [] && s[|s| - 1] == '\r' {
      if l.comment.Some? {
        var c := l.comment.value;
        assert c != [];
        var shorter := l.(comment := Some(c[..|c| - 1]));
        assert PrintLine(shorter) == s[..|s| - 1];
        LineReads(shorter);
      } else if l.gap != [] {
        var shorter := l.(gap := l.gap[..|l.gap| - 1]);
        assert PrintLine(shorter) == s[..|s| - 1];
        LineReads(shorter);
      } else {
        BodyEndsTight(l.item, l.spacing);
        assert l.item.Blank?;
        BlankBody(l.item, l.spacing);
        var shorter := l.(indent := l.indent[..|l.indent| - 1]);
        assert PrintLine(shorter) == s[..|s| - 1];
        LineReads(shorter);
      }
    }
  }

  lemma BodyEndsTight(item: Item, sp: Spacing)
    requires WellFormedItem(item) && IsSpacing(sp)
    ensures !item.Blank? ==> Body(item, sp) != [] && !IsSpace(Body(item, sp)[|Body(item, sp)| - 1])
  {
    hide After, Trim, ValueOf, Dotted;
    match item {
      case Blank =>
      case Header(_) =>
      case Assign(_, value) => ValueRoundTrip(value, sp.pads);
      case AssignNumber(_, number) => NumberParses(number);
    }
  }

  lemma {:induction false} DocReads(doc: seq<DocLine>)
    requires WellFormedDoc(doc)
    ensures ParsedLines(Lines(PrintDoc(doc))) == Meanings(doc)
  {
    hide LineOf, PrintLine, Meaning;
    if doc == [] {
      assert Meanings(doc) == [];
    } else {
      var line, rest := PrintLine(doc[0]), PrintDoc(doc[1..]);
      LineReads(doc[0]);
      LineReadsWithoutCr(doc[0]);
      FirstLine(line, rest);
      DocReads(doc[1..]);
      assert Meanings(doc) == [Meaning(doc[0].item)] + Meanings(doc[1..]);
    }
  }

  lemma FirstLine(line: string, rest: string)
    requires Free(line, '\n')
    ensures ParsedLines(Lines(line + "\n" + rest)) == [LineOf(StripCr(line))] + ParsedLines(Lines(rest))
  {
    hide LineOf, Lines, StripCr;
    LinesFirst(line, rest);
  }

  lemma LinesFirst(line: string, rest: string)
    requires Free(line, '\n')
    ensures Lines(line + "\n" + rest) == [StripCr(line)] + Lines(rest)
  {
    hide StripCr;
    var s := line + "\n" + rest;
    assert s[|line|] == '\n';
    FirstIndexIs(s, '\n', |line|);
    assert s[..|line|] == line && s[|line| + 1..] == rest;
  }

  /** Printing a document and parsing it gives what its lines mean, read in order: same
      sections, same values, same first error at the same line. */
  lemma DocumentRoundTrip(doc: seq<DocLine>)
    requires WellFormedDoc(doc)
    ensures Entries(PrintDoc(doc))
            == match ReadAll(Meanings(doc))
               case Ok(r) => Ok(r.entries)
               case Err(error) => Err(error)
  {
    hide LineOf, PrintLine, Meaning, ReadAll;
    DocReads(doc);
  }
}
