/** Printing a configuration as text in any layout, and reading it back. */
module ConfigRoundTrip {
  import opened Wrappers
  import opened Domain
  import opened Toml
  import opened TomlRoundTrip
  import opened Config
  import Text

  // ---------- layouts ----------

  /** Free choices of the writer for one line. */
  datatype Style = Style(indent: string, spacing: Spacing, gap: string, comment: Option<string>)

  predicate IsStyle(s: Style) {
    && IsPad(s.indent) && IsPad(s.gap) && IsSpacing(s.spacing)
    && (s.comment.Some? ==> Text.Free(s.comment.value, '\n'))
  }

  /** A line of the text: nothing but space or a comment; a section header; or a field, under
      one of its aliases, with the key that says so in the current section. */
  datatype Row =
    | Remark(style: Style)
    | Head(parts: seq<string>, style: Style)
    | Field(field: nat, alias: nat, key: string, style: Style)

  function SectionAfter(rows: seq<Row>): seq<string> {
    if rows == [] then []
    else if rows[|rows| - 1].Head? then rows[|rows| - 1].parts
    else SectionAfter(rows[..|rows| - 1])
  }

  predicate IsNamed(row: Row) {
    row.Field? && row.field < |ALIASES| && row.alias < |ALIASES[row.field]|
  }

  predicate RowFits(section: seq<string>, row: Row) {
    && IsStyle(row.style)
    && match row
       case Remark(_) => true
       case Head(parts, _) => WellFormedItem(Header(parts))
       case Field(field, alias, key, _) =>
         IsNamed(row) && IsKey(key) && FullKey(section, key) == ALIASES[field][alias]
  }

  predicate NoFieldTwice(rows: seq<Row>) {
    forall i, j :: 0 <= i < j < |rows| && rows[i].Field? && rows[j].Field? ==> rows[i].field != rows[j].field
  }

  /** Any order, any headers, any aliases; no field twice; fields may be left out. */
  predicate IsLayout(rows: seq<Row>) {
    && NoFieldTwice(rows)
    && forall i :: 0 <= i < |rows| ==> RowFits(SectionAfter(rows[..i]), rows[i])
  }

  // ---------- the fields of a configuration ----------

  /** What is written for field f; None if nothing can be: a number too large for the reader
      or an endpoint that is not set. */
  function FieldValue(c: Config, f: nat): Option<TomlValue> {
    match f
    case 0 => Number(c.intervalSecs)
    case 1 => Number(c.highWatermarkPercent)
    case 2 => Number(c.targetWatermarkPercent)
    case 3 => Number(c.minUnusedAgeDays)
    case 4 => Number(c.maxDeletePerRunGb)
    case 5 => Some(Boolean(c.dryRun))
    case 6 => Some(Strings(c.enabledBackends))
    case 7 => Some(Strings(c.protectedImages))
    case 8 => Some(Strings(c.protectedVolumes))
    case 9 => Some(Strings(c.protectedLabels))
    case 10 => OptionalStr(c.dockerHost)
    case 11 => OptionalStr(c.dockerContext)
    case _ => None
  }

  predicate IsDefault(c: Config, f: nat) {
    match f
    case 0 => c.intervalSecs == DEFAULTS.intervalSecs
    case 1 => c.highWatermarkPercent == DEFAULTS.highWatermarkPercent
    case 2 => c.targetWatermarkPercent == DEFAULTS.targetWatermarkPercent
    case 3 => c.minUnusedAgeDays == DEFAULTS.minUnusedAgeDays
    case 4 => c.maxDeletePerRunGb == DEFAULTS.maxDeletePerRunGb
    case 5 => c.dryRun == DEFAULTS.dryRun
    case 6 => c.enabledBackends == DEFAULTS.enabledBackends
    case 7 => c.protectedImages == DEFAULTS.protectedImages
    case 8 => c.protectedVolumes == DEFAULTS.protectedVolumes
    case 9 => c.protectedLabels == DEFAULTS.protectedLabels
    case 10 => c.dockerHost == DEFAULTS.dockerHost
    case 11 => c.dockerContext == DEFAULTS.dockerContext
    case _ => true
  }

  predicate IsNumeric(f: nat) {
    f <= 4
  }

  function NumberIn(c: Config, f: nat): int {
    match f
    case 0 => c.intervalSecs
    case 1 => c.highWatermarkPercent
    case 2 => c.targetWatermarkPercent
    case 3 => c.minUnusedAgeDays
    case _ => c.maxDeletePerRunGb
  }

  function ItemOf(c: Config, row: Row): Item {
    match row
    case Remark(_) => Item.Blank
    case Head(parts, _) => Header(parts)
    case Field(f, _, key, _) =>
      if IsNumeric(f) then AssignNumber(key, NumberIn(c, f))
      else if FieldValue(c, f).Some? then Assign(key, FieldValue(c, f).value)
      else Item.Blank
  }

  function DocOf(c: Config, rows: seq<Row>): (doc: seq<DocLine>)
    ensures |doc| == |rows|
  {
    seq(|rows|, i requires 0 <= i < |rows| =>
      DocLine(rows[i].style.indent, ItemOf(c, rows[i]), rows[i].style.spacing, rows[i].style.gap, rows[i].style.comment))
  }

  predicate Writes(c: Config, row: Row) {
    IsNamed(row) && FieldValue(c, row.field).Some?
  }

  predicate IsWritten(c: Config, rows: seq<Row>, f: nat) {
    exists i | 0 <= i < |rows| :: rows[i].Field? && rows[i].field == f && Writes(c, rows[i])
  }

  /** The numbers that are written are below 2^63. */
  predicate NumbersFit(c: Config, rows: seq<Row>) {
    forall i :: 0 <= i < |rows| && rows[i].Field? && IsNumeric(rows[i].field) ==> NumberIn(c, rows[i].field) <= I64_MAX
  }

  /** The fields that are not written have their defaults. */
  predicate OmitsDefaults(c: Config, rows: seq<Row>) {
    forall f: nat :: f < |ALIASES| && !IsWritten(c, rows, f) ==> IsDefault(c, f)
  }

  // ---------- the aliases differ ----------

  /** Finds the field and the alias of a name from its length and a letter. */
  function Locate(s: string): (nat, nat) {
    match |s|
    case 7 => (5, 0)
    case 11 => if s[6] == '_' then (10, 0) else (10, 1)
    case 13 => (0, 0)
    case 14 => if s[0] == 's' then (5, 1) else if s[6] == '_' then (11, 0) else (11, 1)
    case 15 => (5, 2)
    case 16 => if s[0] == 'e' then (6, 0) else if s[10] == 'i' then (7, 0) else (9, 0)
    case 17 => (8, 0)
    case 19 => (3, 0)
    case 21 => if s[0] == 'r' then (0, 1) else (4, 0)
    case 22 => (1, 0)
    case 23 => if s[17] == 'i' then (7, 2) else (9, 2)
    case 24 => if s[0] == 't' then (2, 0) else (8, 2)
    case 25 => (6, 1)
    case 27 => if s[0] == 'c' then (3, 1) else if s[21] == 'i' then (7, 1) else (9, 1)
    case 28 => (8, 1)
    case 29 => (4, 1)
    case 33 => if s[0] == 't' then (1, 1) else (1, 2)
    case _ => if |s| > 0 && s[0] == 't' then (2, 1) else (2, 2)
  }

  lemma LocatesNumbers()
    ensures Locate(INTERVAL[0]) == (0, 0) && Locate(INTERVAL[1]) == (0, 1)
    ensures Locate(HIGH[0]) == (1, 0) && Locate(HIGH[1]) == (1, 1) && Locate(HIGH[2]) == (1, 2)
    ensures Locate(TARGET[0]) == (2, 0) && Locate(TARGET[1]) == (2, 1) && Locate(TARGET[2]) == (2, 2)
    ensures Locate(MIN_AGE[0]) == (3, 0) && Locate(MIN_AGE[1]) == (3, 1)
    ensures Locate(MAX_DELETE[0]) == (4, 0) && Locate(MAX_DELETE[1]) == (4, 1)
  {
  }

  lemma LocatesLists()
    ensures Locate(BACKENDS[0]) == (6, 0) && Locate(BACKENDS[1]) == (6, 1)
    ensures Locate(IMAGES[0]) == (7, 0) && Locate(IMAGES[1]) == (7, 1) && Locate(IMAGES[2]) == (7, 2)
    ensures Locate(VOLUMES[0]) == (8, 0) && Locate(VOLUMES[1]) == (8, 1) && Locate(VOLUMES[2]) == (8, 2)
    ensures Locate(LABELS[0]) == (9, 0) && Locate(LABELS[1]) == (9, 1) && Locate(LABELS[2]) == (9, 2)
  {
  }

  lemma LocatesOthers()
    ensures Locate(DRY_RUN[0]) == (5, 0) && Locate(DRY_RUN[1]) == (5, 1) && Locate(DRY_RUN[2]) == (5, 2)
    ensures Locate(HOST[0]) == (10, 0) && Locate(HOST[1]) == (10, 1)
    ensures Locate(CONTEXT[0]) == (11, 0) && Locate(CONTEXT[1]) == (11, 1)
  {
  }

  lemma LocateFinds(f: nat, a: nat)
    requires f < |ALIASES| && a < |ALIASES[f]|
    ensures Locate(ALIASES[f][a]) == (f, a)
  {
    hide Locate;
    LocatesNumbers();
    LocatesLists();
    LocatesOthers();
    assert f in {0, 1, 2, 3, 4, 5, 6, 7, 8, 9, 10, 11} && a in {0, 1, 2};
  }

  lemma NamesDiffer(f: nat, a: nat, f': nat, a': nat)
    requires f < |ALIASES| && a < |ALIASES[f]| && f' < |ALIASES| && a' < |ALIASES[f']|
    requires ALIASES[f][a] == ALIASES[f'][a']
    ensures f == f' && a == a'
  {
    hide Locate, ALIASES;
    LocateFinds(f, a);
    LocateFinds(f', a');
  }

  // ---------- the entries of a printed configuration ----------

  /** What reading the layout collects. */
  function EntriesOf(c: Config, rows: seq<Row>): TomlMap {
    if rows == [] then map[]
    else
      var last := rows[|rows| - 1];
      var before := EntriesOf(c, rows[..|rows| - 1]);
      if Writes(c, last) then before[ALIASES[last.field][last.alias] := FieldValue(c, last.field).value] else before
  }

  lemma FrontIsLayout(rows: seq<Row>)
    requires IsLayout(rows) && rows != []
    ensures IsLayout(rows[..|rows| - 1])
    ensures RowFits(SectionAfter(rows[..|rows| - 1]), rows[|rows| - 1])
    ensures forall i :: 0 <= i < |rows| - 1 && rows[i].Field? && rows[|rows| - 1].Field? ==>
              rows[i].field != rows[|rows| - 1].field
  {
    hide RowFits, SectionAfter;
    var front := rows[..|rows| - 1];
    forall i | 0 <= i < |front| ensures RowFits(SectionAfter(front[..i]), front[i]) {
      assert front[..i] == rows[..i];
    }
  }

  /** Each alias that is written holds its field's value; no other key occurs. */
  lemma {:induction false} EntriesAreRows(c: Config, rows: seq<Row>, key: string)
    requires IsLayout(rows)
    ensures key in EntriesOf(c, rows)
            <==> exists i :: 0 <= i < |rows| && Writes(c, rows[i]) && ALIASES[rows[i].field][rows[i].alias] == key
    ensures forall i :: 0 <= i < |rows| && Writes(c, rows[i]) && ALIASES[rows[i].field][rows[i].alias] == key ==>
              key in EntriesOf(c, rows) && EntriesOf(c, rows)[key] == FieldValue(c, rows[i].field).value
  {
    hide FieldValue, ALIASES, IsLayout;
    if rows != [] {
      var front, last := rows[..|rows| - 1], rows[|rows| - 1];
      FrontIsLayout(rows);
      EntriesAreRows(c, front, key);
      assert forall i :: 0 <= i < |front| ==> front[i] == rows[i];
      if Writes(c, last) && ALIASES[last.field][last.alias] == key {
        forall i | 0 <= i < |front| && Writes(c, front[i])
          ensures ALIASES[front[i].field][front[i].alias] != key
        {
          if ALIASES[front[i].field][front[i].alias] == key {
            NamesDiffer(front[i].field, front[i].alias, last.field, last.alias);
          }
        }
        assert Writes(c, rows[|rows| - 1]);
      }
    }
  }

  lemma ItemMeans(c: Config, row: Row)
    requires IsNamed(row)
    ensures Meaning(ItemOf(c, row))
            == if FieldValue(c, row.field).Some? then KeyValue(row.key, FieldValue(c, row.field).value)
               else if IsNumeric(row.field) then Malformed
               else Nothing
    ensures IsNumeric(row.field) ==> (FieldValue(c, row.field).Some? <==> NumberIn(c, row.field) <= I64_MAX)
  {
    assert row.field in {0, 1, 2, 3, 4, 5, 6, 7, 8, 9, 10, 11};
  }

  lemma OneRowMore(c: Config, rows: seq<Row>)
    requires rows != []
    ensures Meanings(DocOf(c, rows))[..|rows| - 1] == Meanings(DocOf(c, rows[..|rows| - 1]))
    ensures Meanings(DocOf(c, rows))[|rows| - 1] == Meaning(ItemOf(c, rows[|rows| - 1]))
    ensures |Meanings(DocOf(c, rows))| == |rows|
  {
    hide ItemOf, Meaning;
  }

  /** Reading the printed layout ends in its last section with exactly its entries. */
  lemma {:induction false} LayoutIsRead(c: Config, rows: seq<Row>)
    requires IsLayout(rows) && NumbersFit(c, rows)
    ensures ReadAll(Meanings(DocOf(c, rows))) == Ok(Reading(SectionAfter(rows), EntriesOf(c, rows)))
  {
    hide FieldValue, ALIASES, ItemOf, Meaning, NumberIn, IsLayout, DocOf, Meanings, FullKey;
    if rows == [] {
      NothingToRead(c);
    } else {
      var front, last := rows[..|rows| - 1], rows[|rows| - 1];
      FrontIsLayout(rows);
      assert forall i :: 0 <= i < |front| ==> front[i] == rows[i];
      LayoutIsRead(c, front);
      OneRowMore(c, rows);
      match last {
        case Remark(_) => RemarkMeans(c, last);
        case Head(_, _) => RemarkMeans(c, last);
        case Field(_, _, _, _) =>
          ItemMeans(c, last);
          NotYetRead(c, rows);
      }
    }
  }

  lemma NothingToRead(c: Config)
    ensures Meanings(DocOf(c, [])) == []
  {
  }

  lemma RemarkMeans(c: Config, row: Row)
    ensures row.Remark? ==> Meaning(ItemOf(c, row)) == Nothing
    ensures row.Head? ==> Meaning(ItemOf(c, row)) == Section(row.parts)
  {
  }

  lemma NotYetRead(c: Config, rows: seq<Row>)
    requires IsLayout(rows) && rows != [] && IsNamed(rows[|rows| - 1])
    ensures ALIASES[rows[|rows| - 1].field][rows[|rows| - 1].alias] !in EntriesOf(c, rows[..|rows| - 1])
  {
    hide FieldValue, ALIASES, IsLayout, EntriesOf;
    var front, last := rows[..|rows| - 1], rows[|rows| - 1];
    var name := ALIASES[last.field][last.alias];
    FrontIsLayout(rows);
    EntriesAreRows(c, front, name);
    if i :| 0 <= i < |front| && Writes(c, front[i]) && ALIASES[front[i].field][front[i].alias] == name {
      NamesDiffer(front[i].field, front[i].alias, last.field, last.alias);
    }
  }

  lemma {:induction false} MalformedFails(ps: seq<Parsed>, k: nat)
    requires k < |ps| && ps[k].Malformed?
    ensures ReadAll(ps).Err?
  {
    if k < |ps| - 1 {
      MalformedFails(ps[..|ps| - 1], k);
    }
  }

  // ---------- from entries to fields ----------

  lemma {:induction false} OnePresent(m: TomlMap, aliases: seq<string>, a: nat)
    requires a < |aliases| && aliases[a] in m
    requires forall b :: 0 <= b < |aliases| && b != a ==> aliases[b] !in m
    ensures Present(m, aliases) == [aliases[a]]
  {
    var n := |aliases| - 1;
    if a < n {
      OnePresent(m, aliases[..n], a);
    } else {
      NonePresent(m, aliases[..n]);
    }
  }

  lemma {:induction false} NonePresent(m: TomlMap, aliases: seq<string>)
    requires forall b :: 0 <= b < |aliases| ==> aliases[b] !in m
    ensures Present(m, aliases) == []
  {
    if aliases != [] {
      NonePresent(m, aliases[..|aliases| - 1]);
    }
  }

  /** A field is found under the alias it was written with, and only if it was written. */
  lemma FieldIsFound(c: Config, rows: seq<Row>, f: nat)
    requires IsLayout(rows) && f < |ALIASES|
    ensures Single(EntriesOf(c, rows), ALIASES[f])
            == Ok(if IsWritten(c, rows, f) then FieldValue(c, f) else None)
  {
    hide FieldValue, ALIASES, RowFits, EntriesOf;
    var m := EntriesOf(c, rows);
    if i :| 0 <= i < |rows| && rows[i].Field? && rows[i].field == f && Writes(c, rows[i]) {
      var a := rows[i].alias;
      EntriesAreRows(c, rows, ALIASES[f][a]);
      forall b | 0 <= b < |ALIASES[f]| && b != a ensures ALIASES[f][b] !in m {
        AliasIsAbsent(c, rows, f, b);
      }
      OnePresent(m, ALIASES[f], a);
    } else {
      forall b | 0 <= b < |ALIASES[f]| ensures ALIASES[f][b] !in m {
        AliasIsAbsent(c, rows, f, b);
      }
      NonePresent(m, ALIASES[f]);
    }
  }

  lemma AliasIsAbsent(c: Config, rows: seq<Row>, f: nat, b: nat)
    requires IsLayout(rows) && f < |ALIASES| && b < |ALIASES[f]|
    requires forall i :: 0 <= i < |rows| && Writes(c, rows[i]) && rows[i].field == f ==> rows[i].alias != b
    ensures ALIASES[f][b] !in EntriesOf(c, rows)
  {
    hide FieldValue, ALIASES, IsLayout, EntriesOf;
    EntriesAreRows(c, rows, ALIASES[f][b]);
    if i :| 0 <= i < |rows| && Writes(c, rows[i]) && ALIASES[rows[i].field][rows[i].alias] == ALIASES[f][b] {
      NamesDiffer(rows[i].field, rows[i].alias, f, b);
    }
  }

  lemma KeysAreKnown(c: Config, rows: seq<Row>)
    requires IsLayout(rows)
    ensures forall key :: key in EntriesOf(c, rows) ==> IsKnownKey(key)
  {
    hide FieldValue, ALIASES, IsLayout, EntriesOf;
    forall key | key in EntriesOf(c, rows) ensures IsKnownKey(key) {
      EntriesAreRows(c, rows, key);
      var i :| 0 <= i < |rows| && Writes(c, rows[i]) && ALIASES[rows[i].field][rows[i].alias] == key;
      assert key in ALIASES[rows[i].field];
    }
  }

  lemma RepresentsByField(m: TomlMap, c: Config)
    ensures Represents(m, c) <==>
            && (forall f: nat :: f < 12 ==> FieldIs(m, ALIASES[f], FieldValue(c, f), IsDefault(c, f)))
            && (forall key :: key in m ==> IsKnownKey(key))
  {
    hide FieldIs, IsKnownKey;
    if Represents(m, c) {
      forall f: nat | f < 12 ensures FieldIs(m, ALIASES[f], FieldValue(c, f), IsDefault(c, f)) {
        assert f in {0, 1, 2, 3, 4, 5, 6, 7, 8, 9, 10, 11};
      }
    }
    if forall f: nat :: f < 12 ==> FieldIs(m, ALIASES[f], FieldValue(c, f), IsDefault(c, f)) {
      FieldsOneByOne(m, c);
    }
  }

  lemma FieldsOneByOne(m: TomlMap, c: Config)
    requires forall f: nat :: f < 12 ==> FieldIs(m, ALIASES[f], FieldValue(c, f), IsDefault(c, f))
    ensures (forall key :: key in m ==> IsKnownKey(key)) ==> Represents(m, c)
  {
    hide FieldIs, IsKnownKey;
    assert FieldIs(m, ALIASES[0], FieldValue(c, 0), IsDefault(c, 0));
    assert FieldIs(m, ALIASES[1], FieldValue(c, 1), IsDefault(c, 1));
    assert FieldIs(m, ALIASES[2], FieldValue(c, 2), IsDefault(c, 2));
    assert FieldIs(m, ALIASES[3], FieldValue(c, 3), IsDefault(c, 3));
    assert FieldIs(m, ALIASES[4], FieldValue(c, 4), IsDefault(c, 4));
    assert FieldIs(m, ALIASES[5], FieldValue(c, 5), IsDefault(c, 5));
    assert FieldIs(m, ALIASES[6], FieldValue(c, 6), IsDefault(c, 6));
    assert FieldIs(m, ALIASES[7], FieldValue(c, 7), IsDefault(c, 7));
    assert FieldIs(m, ALIASES[8], FieldValue(c, 8), IsDefault(c, 8));
    assert FieldIs(m, ALIASES[9], FieldValue(c, 9), IsDefault(c, 9));
    assert FieldIs(m, ALIASES[10], FieldValue(c, 10), IsDefault(c, 10));
    assert FieldIs(m, ALIASES[11], FieldValue(c, 11), IsDefault(c, 11));
  }

  lemma LayoutRepresents(c: Config, rows: seq<Row>)
    requires IsLayout(rows)
    ensures Represents(EntriesOf(c, rows), c) <==> OmitsDefaults(c, rows)
  {
    hide Represents, FieldValue, IsDefault, ALIASES, IsLayout, EntriesOf, Single, IsKnownKey, IsWritten;
    var m := EntriesOf(c, rows);
    RepresentsByField(m, c);
    KeysAreKnown(c, rows);
    TwelveFields();
    forall f: nat | f < 12
      ensures FieldIs(m, ALIASES[f], FieldValue(c, f), IsDefault(c, f))
              <==> IsWritten(c, rows, f) || IsDefault(c, f)
    {
      FieldIsFound(c, rows, f);
      WrittenHasValue(c, rows, f);
    }
  }

  lemma TwelveFields()
    ensures |ALIASES| == 12
  {
  }

  lemma WrittenHasValue(c: Config, rows: seq<Row>, f: nat)
    ensures IsWritten(c, rows, f) ==> FieldValue(c, f).Some?
  {
    hide FieldValue;
  }

  // ---------- round trip ----------

  lemma LayoutIsWellFormed(c: Config, rows: seq<Row>)
    requires IsLayout(rows)
    ensures WellFormedDoc(DocOf(c, rows))
  {
    hide IsKey, NoFieldTwice, SectionAfter, FullKey, ALIASES;
    forall i | 0 <= i < |rows| ensures WellFormed(DocOf(c, rows)[i]) {
      assert RowFits(SectionAfter(rows[..i]), rows[i]);
      ItemIsWellFormed(c, SectionAfter(rows[..i]), rows[i]);
    }
  }

  lemma ItemIsWellFormed(c: Config, section: seq<string>, row: Row)
    requires RowFits(section, row)
    ensures WellFormedItem(ItemOf(c, row))
  {
    hide IsKey, FullKey;
    assert row.Field? ==> row.field in {0, 1, 2, 3, 4, 5, 6, 7, 8, 9, 10, 11};
  }

  /** In whatever layout, with any sections, aliases, order, spacing and comments, a printed
      configuration is read back as itself exactly when it is valid, the numbers written are
      below 2^63, and the fields left out have their defaults. */
  lemma ConfigRoundTrips(c: Config, rows: seq<Row>)
    requires IsLayout(rows)
    ensures WellFormedDoc(DocOf(c, rows))
    ensures ParseStr(PrintDoc(DocOf(c, rows))) == Ok(c)
            <==> IsValid(c) && NumbersFit(c, rows) && OmitsDefaults(c, rows)
  {
    hide PrintDoc, ParseStr, IsValid, Represents, IsLayout, OmitsDefaults, DocOf, Meanings, Meaning, ItemOf, EntriesOf;
    LayoutIsWellFormed(c, rows);
    DocumentIsReadExactly(DocOf(c, rows), c);
    if NumbersFit(c, rows) {
      LayoutIsRead(c, rows);
      LayoutRepresents(c, rows);
    } else {
      var k := BigNumberRow(c, rows);
      MalformedFails(Meanings(DocOf(c, rows)), k);
    }
  }

  lemma BigNumberRow(c: Config, rows: seq<Row>) returns (k: nat)
    requires IsLayout(rows) && !NumbersFit(c, rows)
    ensures k < |rows| == |Meanings(DocOf(c, rows))| && Meanings(DocOf(c, rows))[k].Malformed?
  {
    hide NumberIn, FieldValue, SectionAfter, NoFieldTwice;
    k :| 0 <= k < |rows| && rows[k].Field? && IsNumeric(rows[k].field) && NumberIn(c, rows[k].field) > I64_MAX;
    assert RowFits(SectionAfter(rows[..k]), rows[k]);
    ItemMeans(c, rows[k]);
  }

  // ---------- the sectioned layout ----------

  const PLAIN := Style("", Spacing(" ", " ", []), "", None)

  /** The sections of config/prune-guard.toml. */
  const SECTIONED: seq<Row> :=
    [Head(["runtime"], PLAIN),
     Field(0, 1, "interval_secs", PLAIN),
     Field(5, 2, "dry_run", PLAIN),
     Head(["thresholds"], PLAIN),
     Field(1, 1, "high_watermark_percent", PLAIN),
     Field(2, 1, "target_watermark_percent", PLAIN),
     Head(["cleanup"], PLAIN),
     Field(3, 1, "min_unused_age_days", PLAIN),
     Field(4, 1, "max_delete_per_run_gb", PLAIN),
     Head(["backends"], PLAIN),
     Field(6, 1, "enabled_backends", PLAIN),
     Head(["docker"], PLAIN),
     Field(10, 1, "host", PLAIN),
     Field(11, 1, "context", PLAIN),
     Head(["allowlists"], PLAIN),
     Field(7, 1, "protected_images", PLAIN),
     Field(8, 1, "protected_volumes", PLAIN),
     Field(9, 1, "protected_labels", PLAIN)]

  lemma OnePart(section: string)
    ensures Join([section]) == section
  {
  }

  predicate IsWord(s: string) {
    s != [] && forall k :: 0 <= k < |s| ==> 'a' <= s[k] <= 'z' || s[k] == '_'
  }

  lemma WordIsKey(s: string)
    requires IsWord(s)
    ensures IsKey(s) && WellFormedItem(Header([s]))
  {
    assert forall k :: 0 <= k < |s| ==> s[k] != '.';
    assert [s][0] == s;
  }

  /** `key` under `[section]` is the alias `name`. */
  predicate Spells(section: string, key: string, name: string) {
    IsWord(section) && IsWord(key) && FullKey([section], key) == name
  }

  lemma RuntimeKeys()
    ensures Spells("runtime", "interval_secs", INTERVAL[1])
    ensures Spells("runtime", "dry_run", DRY_RUN[2])
  {
    OnePart("runtime");
  }

  lemma HighKey()
    ensures Spells("thresholds", "high_watermark_percent", HIGH[1])
  {
    OnePart("thresholds");
  }

  lemma TargetKey()
    ensures Spells("thresholds", "target_watermark_percent", TARGET[1])
  {
    OnePart("thresholds");
  }

  lemma AgeKey()
    ensures Spells("cleanup", "min_unused_age_days", MIN_AGE[1])
  {
    OnePart("cleanup");
  }

  lemma DeleteKey()
    ensures Spells("cleanup", "max_delete_per_run_gb", MAX_DELETE[1])
  {
    OnePart("cleanup");
  }

  lemma BackendsKey()
    ensures Spells("backends", "enabled_backends", BACKENDS[1])
  {
    OnePart("backends");
  }

  lemma DockerKeys()
    ensures Spells("docker", "host", HOST[1])
    ensures Spells("docker", "context", CONTEXT[1])
  {
    OnePart("docker");
  }

  lemma ImagesKey()
    ensures Spells("allowlists", "protected_images", IMAGES[1])
  {
    OnePart("allowlists");
  }

  lemma VolumesKey()
    ensures Spells("allowlists", "protected_volumes", VOLUMES[1])
  {
    OnePart("allowlists");
  }

  lemma LabelsKey()
    ensures Spells("allowlists", "protected_labels", LABELS[1])
  {
    OnePart("allowlists");
  }

  lemma {:induction false} UnderHead(rows: seq<Row>, h: nat)
    requires h < |rows| && rows[h].Head? && forall k :: h < k < |rows| ==> !rows[k].Head?
    ensures SectionAfter(rows) == rows[h].parts
    decreases |rows|
  {
    if h < |rows| - 1 {
      UnderHead(rows[..|rows| - 1], h);
    }
  }

  lemma FieldFits(rows: seq<Row>, h: nat, i: nat, section: string)
    requires h < i < |rows| && rows[h] == Head([section], PLAIN) && forall k :: h < k < i ==> !rows[k].Head?
    requires IsNamed(rows[i]) && rows[i].style == PLAIN
    requires Spells(section, rows[i].key, ALIASES[rows[i].field][rows[i].alias])
    ensures RowFits(SectionAfter(rows[..i]), rows[i])
  {
    UnderHead(rows[..i], h);
    WordIsKey(rows[i].key);
  }

  lemma HeadFits(section: seq<string>, row: Row)
    requires row.Head? && |row.parts| == 1 && IsWord(row.parts[0]) && row.style == PLAIN
    ensures RowFits(section, row)
  {
    WordIsKey(row.parts[0]);
    assert row.parts == [row.parts[0]];
  }

  ghost predicate FitsAt(i: nat)
    requires i < |SECTIONED|
  {
    RowFits(SectionAfter(SECTIONED[..i]), SECTIONED[i])
  }

  lemma RuntimeFits()
    ensures FitsAt(0) && FitsAt(1) && FitsAt(2)
  {
    hide RowFits, SectionAfter, FullKey, IsWord;
    RuntimeKeys();
    HeadFits(SectionAfter(SECTIONED[..0]), SECTIONED[0]);
    FieldFits(SECTIONED, 0, 1, "runtime");
    FieldFits(SECTIONED, 0, 2, "runtime");
  }

  lemma ThresholdsFits()
    ensures FitsAt(3) && FitsAt(4) && FitsAt(5)
  {
    hide RowFits, SectionAfter, FullKey, IsWord;
    HighKey();
    TargetKey();
    HeadFits(SectionAfter(SECTIONED[..3]), SECTIONED[3]);
    FieldFits(SECTIONED, 3, 4, "thresholds");
    FieldFits(SECTIONED, 3, 5, "thresholds");
  }

  lemma CleanupFits()
    ensures FitsAt(6) && FitsAt(7) && FitsAt(8)
  {
    hide RowFits, SectionAfter, FullKey, IsWord;
    AgeKey();
    DeleteKey();
    HeadFits(SectionAfter(SECTIONED[..6]), SECTIONED[6]);
    FieldFits(SECTIONED, 6, 7, "cleanup");
    FieldFits(SECTIONED, 6, 8, "cleanup");
  }

  lemma BackendsFits()
    ensures FitsAt(9) && FitsAt(10)
  {
    hide RowFits, SectionAfter, FullKey, IsWord;
    BackendsKey();
    HeadFits(SectionAfter(SECTIONED[..9]), SECTIONED[9]);
    FieldFits(SECTIONED, 9, 10, "backends");
  }

  lemma DockerFits()
    ensures FitsAt(11) && FitsAt(12) && FitsAt(13)
  {
    hide RowFits, SectionAfter, FullKey, IsWord;
    DockerKeys();
    HeadFits(SectionAfter(SECTIONED[..11]), SECTIONED[11]);
    FieldFits(SECTIONED, 11, 12, "docker");
    FieldFits(SECTIONED, 11, 13, "docker");
  }

  lemma AllowlistsFits()
    ensures FitsAt(14) && FitsAt(15) && FitsAt(16) && FitsAt(17)
  {
    hide RowFits, SectionAfter, FullKey, IsWord;
    ImagesKey();
    VolumesKey();
    LabelsKey();
    HeadFits(SectionAfter(SECTIONED[..14]), SECTIONED[14]);
    FieldFits(SECTIONED, 14, 15, "allowlists");
    FieldFits(SECTIONED, 14, 16, "allowlists");
    FieldFits(SECTIONED, 14, 17, "allowlists");
  }

  lemma SectionedIsLayout()
    ensures IsLayout(SECTIONED)
  {
    hide RowFits, SectionAfter, FitsAt;
    RuntimeFits();
    ThresholdsFits();
    CleanupFits();
    BackendsFits();
    DockerFits();
    AllowlistsFits();
    forall i | 0 <= i < |SECTIONED| ensures RowFits(SectionAfter(SECTIONED[..i]), SECTIONED[i]) {
      assert i in {0, 1, 2, 3, 4, 5, 6, 7, 8, 9, 10, 11, 12, 13, 14, 15, 16, 17};
      FitsAtMeans(i);
    }
  }

  lemma FitsAtMeans(i: nat)
    requires i < |SECTIONED| && FitsAt(i)
    ensures RowFits(SectionAfter(SECTIONED[..i]), SECTIONED[i])
  {
  }

  /** A configuration written in the sections of the shipped file is read back as itself
      exactly when it is valid and its open-ended numbers are below 2^63. */
  lemma SectionedConfigRoundTrips(c: Config)
    ensures IsLayout(SECTIONED) && WellFormedDoc(DocOf(c, SECTIONED))
    ensures ParseStr(PrintDoc(DocOf(c, SECTIONED))) == Ok(c)
            <==> IsValid(c) && c.intervalSecs <= I64_MAX && c.minUnusedAgeDays <= I64_MAX && c.maxDeletePerRunGb <= I64_MAX
  {
    hide IsLayout, ParseStr, PrintDoc, IsValid, DocOf, WellFormedDoc;
    SectionedIsLayout();
    ConfigRoundTrips(c, SECTIONED);
    SectionedNumbers(c);
    SectionedIsComplete(c);
  }

  lemma SectionedNumbers(c: Config)
    ensures NumbersFit(c, SECTIONED)
            <==> c.intervalSecs <= I64_MAX && c.minUnusedAgeDays <= I64_MAX && c.maxDeletePerRunGb <= I64_MAX
  {
    if NumbersFit(c, SECTIONED) {
      assert SECTIONED[1].Field? && SECTIONED[7].Field? && SECTIONED[8].Field?;
    }
  }

  lemma SectionedIsComplete(c: Config)
    ensures NumbersFit(c, SECTIONED) ==> OmitsDefaults(c, SECTIONED)
  {
    if NumbersFit(c, SECTIONED) {
      forall f: nat | f < |ALIASES| && !IsWritten(c, SECTIONED, f) ensures IsDefault(c, f) {
        var i := [1, 4, 5, 7, 8, 2, 10, 15, 16, 17, 12, 13][f];
        assert f in {0, 1, 2, 3, 4, 5, 6, 7, 8, 9, 10, 11};
        assert SECTIONED[i].Field? && SECTIONED[i].field == f && IsNamed(SECTIONED[i]);
        assert !Writes(c, SECTIONED[i]);
      }
    }
  }

  // ---------- the plain layout and the other sections ----------

  /** Every field under its plain name. */
  const UNSECTIONED: seq<Row> :=
    [Field(0, 0, "interval_secs", PLAIN),
     Field(1, 0, "high_watermark_percent", PLAIN),
     Field(2, 0, "target_watermark_percent", PLAIN),
     Field(3, 0, "min_unused_age_days", PLAIN),
     Field(4, 0, "max_delete_per_run_gb", PLAIN),
     Field(5, 0, "dry_run", PLAIN),
     Field(6, 0, "enabled_backends", PLAIN),
     Field(7, 0, "protected_images", PLAIN),
     Field(8, 0, "protected_volumes", PLAIN),
     Field(9, 0, "protected_labels", PLAIN),
     Field(10, 0, "docker_host", PLAIN),
     Field(11, 0, "docker_context", PLAIN)]

  /** The sections that some fields may stand in instead. */
  const RESECTIONED: seq<Row> :=
    [Head(["watermarks"], PLAIN),
     Field(1, 2, "high_watermark_percent", PLAIN),
     Field(2, 2, "target_watermark_percent", PLAIN),
     Head(["safety"], PLAIN),
     Field(5, 1, "dry_run", PLAIN),
     Field(7, 2, "protected_images", PLAIN),
     Field(8, 2, "protected_volumes", PLAIN),
     Field(9, 2, "protected_labels", PLAIN)]

  lemma PlainWords()
    ensures IsWord("interval_secs") && IsWord("min_unused_age_days") && IsWord("max_delete_per_run_gb")
    ensures IsWord("enabled_backends") && IsWord("docker_host") && IsWord("docker_context")
  {
    RuntimeKeys();
    AgeKey();
    DeleteKey();
    BackendsKey();
  }

  lemma SharedWords()
    ensures IsWord("high_watermark_percent") && IsWord("target_watermark_percent") && IsWord("dry_run")
    ensures IsWord("protected_images") && IsWord("protected_volumes") && IsWord("protected_labels")
  {
    hide IsWord, FullKey;
    RuntimeKeys();
    HighKey();
    TargetKey();
    ImagesKey();
    VolumesKey();
    LabelsKey();
  }

  lemma {:induction false} NoHeads(rows: seq<Row>)
    requires forall k :: 0 <= k < |rows| ==> !rows[k].Head?
    ensures SectionAfter(rows) == []
  {
    if rows != [] {
      NoHeads(rows[..|rows| - 1]);
    }
  }

  lemma PlainFieldFits(rows: seq<Row>, i: nat)
    requires i < |rows| && forall k :: 0 <= k < i ==> !rows[k].Head?
    requires IsNamed(rows[i]) && rows[i].style == PLAIN && IsWord(rows[i].key)
    requires rows[i].key == ALIASES[rows[i].field][rows[i].alias]
    ensures RowFits(SectionAfter(rows[..i]), rows[i])
  {
    NoHeads(rows[..i]);
    WordIsKey(rows[i].key);
  }

  lemma UnsectionedIsLayout()
    ensures IsLayout(UNSECTIONED)
  {
    hide RowFits, SectionAfter, IsWord;
    PlainWords();
    SharedWords();
    forall i | 0 <= i < |UNSECTIONED| ensures RowFits(SectionAfter(UNSECTIONED[..i]), UNSECTIONED[i]) {
      assert i in {0, 1, 2, 3, 4, 5, 6, 7, 8, 9, 10, 11};
      PlainFieldFits(UNSECTIONED, i);
    }
  }

  lemma WatermarkKeys()
    ensures Spells("watermarks", "high_watermark_percent", HIGH[2])
  {
    OnePart("watermarks");
  }

  lemma OtherTargetKey()
    ensures Spells("watermarks", "target_watermark_percent", TARGET[2])
  {
    OnePart("watermarks");
  }

  lemma SafetyKeys()
    ensures Spells("safety", "dry_run", DRY_RUN[1]) && Spells("safety", "protected_images", IMAGES[2])
  {
    OnePart("safety");
  }

  lemma OtherSafetyKeys()
    ensures Spells("safety", "protected_volumes", VOLUMES[2]) && Spells("safety", "protected_labels", LABELS[2])
  {
    OnePart("safety");
  }

  lemma ResectionedIsLayout()
    ensures IsLayout(RESECTIONED)
  {
    hide RowFits, SectionAfter, FullKey, IsWord;
    WatermarkKeys();
    OtherTargetKey();
    SafetyKeys();
    OtherSafetyKeys();
    HeadFits(SectionAfter(RESECTIONED[..0]), RESECTIONED[0]);
    FieldFits(RESECTIONED, 0, 1, "watermarks");
    FieldFits(RESECTIONED, 0, 2, "watermarks");
    HeadFits(SectionAfter(RESECTIONED[..3]), RESECTIONED[3]);
    FieldFits(RESECTIONED, 3, 4, "safety");
    FieldFits(RESECTIONED, 3, 5, "safety");
    FieldFits(RESECTIONED, 3, 6, "safety");
    FieldFits(RESECTIONED, 3, 7, "safety");
    forall i | 0 <= i < |RESECTIONED| ensures RowFits(SectionAfter(RESECTIONED[..i]), RESECTIONED[i]) {
      assert i in {0, 1, 2, 3, 4, 5, 6, 7};
    }
  }

  /** Every name of every field is spelled in one of the three layouts, so these round trips
      pin all of them. */
  lemma OtherLayoutsRoundTrip(c: Config)
    ensures IsLayout(UNSECTIONED) && WellFormedDoc(DocOf(c, UNSECTIONED))
    ensures IsLayout(RESECTIONED) && WellFormedDoc(DocOf(c, RESECTIONED))
    ensures ParseStr(PrintDoc(DocOf(c, UNSECTIONED))) == Ok(c)
            <==> IsValid(c) && NumbersFit(c, UNSECTIONED) && OmitsDefaults(c, UNSECTIONED)
    ensures ParseStr(PrintDoc(DocOf(c, RESECTIONED))) == Ok(c)
            <==> IsValid(c) && NumbersFit(c, RESECTIONED) && OmitsDefaults(c, RESECTIONED)
  {
    hide IsLayout, ParseStr, PrintDoc, IsValid, DocOf, WellFormedDoc, NumbersFit, OmitsDefaults;
    UnsectionedIsLayout();
    ResectionedIsLayout();
    ConfigRoundTrips(c, UNSECTIONED);
    ConfigRoundTrips(c, RESECTIONED);
  }
}
