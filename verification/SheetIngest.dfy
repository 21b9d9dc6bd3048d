/**
  Reading an uploaded CSV sheet, after tokenising (`app/pipeline/ingest.py`): the direct path
  (`parse_csv`) and the preview path (`detect_column_mapping`, `parse_csv_raw`, `apply_column_mapping`).
 */
module SheetIngest {
  import opened Basics
  import Matching

  datatype Field = Name | Email | ResumeUrl | Yoe | Location

  function FieldName(f: Field): string {
    match f
    case Name => "name"
    case Email => "email"
    case ResumeUrl => "resume_url"
    case Yoe => "yoe"
    case Location => "location"
  }

  const FIELDS := [Name, Email, ResumeUrl, Yoe, Location]

  /** The alias table, the keyword hints and `str.lower`. */
  datatype Tables = Tables(aliases: map<string, Field>, keywords: Field -> seq<string>, lower: string -> string)

  /** `_COL_MAP` */
  function ColMap(): map<string, Field> {
    map[
      "name" := Name, "full name" := Name, "candidate name" := Name, "applicant" := Name, "applicant name" := Name,
      "email" := Email, "email address" := Email, "e-mail" := Email, "mail" := Email, "contact email" := Email,
      "resume_url" := ResumeUrl, "resume url" := ResumeUrl, "cv url" := ResumeUrl, "resume link" := ResumeUrl,
      "resume_drive_link" := ResumeUrl, "drive link" := ResumeUrl, "google drive link" := ResumeUrl,
      "cv link" := ResumeUrl, "portfolio" := ResumeUrl, "attach your cv" := ResumeUrl, "attach cv" := ResumeUrl,
      "upload cv" := ResumeUrl, "upload resume" := ResumeUrl,
      "yoe" := Yoe, "years of experience" := Yoe, "experience" := Yoe, "years" := Yoe, "exp" := Yoe,
      "total experience" := Yoe,
      "location" := Location, "city" := Location, "city/country" := Location, "country" := Location,
      "address" := Location,
      "region" := Location, "place" := Location]
  }

  /** `_FIELD_KEYWORDS` */
  function FieldKeywords(f: Field): seq<string> {
    match f
    case Name => ["name", "candidate", "applicant"]
    case Email => ["email", "mail", "e-mail"]
    case ResumeUrl => ["resume", "cv", "portfolio", "link", "url", "attach", "drive", "upload"]
    case Yoe => ["year", "exp", "yoe"]
    case Location => ["location", "city", "country", "place", "address", "region"]
  }

  /** What the two paths rely on: every spelling of a field's own name is one of its aliases. */
  ghost predicate Proper(t: Tables) {
    && (forall k, f :: Underscored(k) == FieldName(f) ==> k in t.aliases && t.aliases[k] == f)
    && (forall f :: t.lower(FieldName(f)) == FieldName(f))
    && (forall s :: t.lower(s) == "" <==> s == "") && "" !in t.aliases
  }

  /** `replace(" ", "_")` */
  function Underscored(s: string): string {
    seq(|s|, i requires 0 <= i < |s| => if s[i] == ' ' then '_' else s[i])
  }

  lemma NameIsAnAlias()
    ensures "name" in ColMap() && ColMap()["name"] == Name
  {
  }

  lemma EmailIsAnAlias()
    ensures "email" in ColMap() && ColMap()["email"] == Email
  {
  }

  lemma ResumeUrlIsAnAlias()
    ensures "resume_url" in ColMap() && ColMap()["resume_url"] == ResumeUrl
  {
  }

  lemma SpacedResumeUrlIsAnAlias()
    ensures "resume url" in ColMap() && ColMap()["resume url"] == ResumeUrl
  {
  }

  lemma YoeIsAnAlias()
    ensures "yoe" in ColMap() && ColMap()["yoe"] == Yoe
  {
  }

  lemma LocationIsAnAlias()
    ensures "location" in ColMap() && ColMap()["location"] == Location
  {
  }

  lemma SpellingIsAnAlias(k: string, f: Field)
    requires k == FieldName(f) || (f == ResumeUrl && k == "resume url")
    ensures k in ColMap() && ColMap()[k] == f
  {
    match f
    case Name => NameIsAnAlias();
    case Email => EmailIsAnAlias();
    case ResumeUrl => ResumeUrlIsAnAlias(); SpacedResumeUrlIsAnAlias();
    case Yoe => YoeIsAnAlias();
    case Location => LocationIsAnAlias();
  }

  /** The service's own tables are proper. */
  lemma ColMapIsProper(lower: string -> string)
    requires forall f :: lower(FieldName(f)) == FieldName(f)
    requires forall s :: lower(s) == "" <==> s == ""
    ensures Proper(Tables(ColMap(), FieldKeywords, lower))
  {
    forall k, f | Underscored(k) == FieldName(f) ensures k in ColMap() && ColMap()[k] == f {
      SpellingsOf(k, f);
      SpellingIsAnAlias(k, f);
    }
  }

  lemma SpellingsOf(k: string, f: Field)
    requires Underscored(k) == FieldName(f)
    ensures k == FieldName(f) || (f == ResumeUrl && k == "resume url")
  {
    var u := Underscored(k);
    assert |k| == |u| && forall i | 0 <= i < |k| :: k[i] == u[i] || (k[i] == ' ' && u[i] == '_');
    if f == ResumeUrl {
      assert forall i | 0 <= i < 10 && i != 6 :: k[i] == "resume_url"[i];
    }
  }

  function AliasOf(t: Tables, header: string): Option<Field> {
    var k := t.lower(Strip(header));
    if k in t.aliases then Some(t.aliases[k]) else None
  }

  function NormalizeHeader(t: Tables, header: string): string {
    var k := t.lower(Strip(header));
    if k in t.aliases then FieldName(t.aliases[k]) else Underscored(k)
  }

  // ---- Python dicts with string keys, in insertion order ----

  type Dict = seq<(string, string)>

  function Put(d: Dict, key: string, value: string): Dict {
    if d == [] then [(key, value)]
    else if d[0].0 == key then [(key, value)] + d[1..]
    else [d[0]] + Put(d[1..], key, value)
  }

  function Get(d: Dict, key: string): Option<string> {
    if d == [] then None else if d[0].0 == key then Some(d[0].1) else Get(d[1..], key)
  }

  /** `str(row.get(key, ""))`, what `ingest_candidates` reads. */
  function Value(d: Dict, key: string): string {
    if Get(d, key).Some? then Get(d, key).value else ""
  }

  lemma {:induction false} PutGet(d: Dict, key: string, value: string, other: string)
    ensures Get(Put(d, key, value), other) == if other == key then Some(value) else Get(d, other)
    ensures Put(d, key, value) != []
  {
    if d != [] && d[0].0 != key {
      PutGet(d[1..], key, value, other);
    }
  }

  lemma {:induction false} PutAppends(d: Dict, key: string, value: string)
    requires forall i | 0 <= i < |d| :: d[i].0 != key
    ensures Put(d, key, value) == d + [(key, value)]
  {
    if d != [] {
      PutAppends(d[1..], key, value);
    }
  }

  // ---- The direct path ----

  function Width(headers: seq<string>, row: seq<string>): nat {
    if |headers| <= |row| then |headers| else |row|
  }

  /** The record of one row from its first `n` cells: headers normalised, blanks left out. */
  function Record(headers: seq<string>, row: seq<string>, n: nat): Dict
    requires n <= Width(headers, row)
  {
    if n == 0 then []
    else
      var d := Record(headers, row, n - 1);
      if headers[n - 1] == "" || Strip(row[n - 1]) == "" then d else Put(d, headers[n - 1], Strip(row[n - 1]))
  }

  predicate BlankRow(row: seq<string>) {
    forall v | v in row :: Strip(v) == ""
  }

  function NormalizedHeaders(t: Tables, headers: seq<string>): seq<string> {
    seq(|headers|, i requires 0 <= i < |headers| => NormalizeHeader(t, headers[i]))
  }

  /** The records of the first `n` data rows. */
  function Records(headers: seq<string>, rows: seq<seq<string>>, n: nat): seq<Dict>
    requires n <= |rows|
  {
    if n == 0 then []
    else
      var done, row := Records(headers, rows, n - 1), rows[n - 1];
      var d := Record(headers, row, Width(headers, row));
      if BlankRow(row) || d == [] then done else done + [d]
  }

  function ParsedCsv(t: Tables, rows: seq<seq<string>>): seq<Dict> {
    if rows == [] then [] else Records(NormalizedHeaders(t, rows[0]), rows[1..], |rows| - 1)
  }

  /** The inner loop of `parse_csv`. */
  method ReadRecord(headers: seq<string>, row: seq<string>) returns (record: Dict)
    ensures record == Record(headers, row, Width(headers, row))
  {
    record := [];
    for j := 0 to Width(headers, row)
      invariant record == Record(headers, row, j)
    {
      if headers[j] == "" {
        continue;
      }
      var value := Strip(row[j]);
      if value != "" {
        record := Put(record, headers[j], value);
      }
    }
  }

  method ParseCsv(t: Tables, rows: seq<seq<string>>) returns (result: seq<Dict>)
    ensures result == ParsedCsv(t, rows)
  {
    result := [];
    if rows == [] {
      return;
    }
    var headers := NormalizedHeaders(t, rows[0]);
    for i := 1 to |rows|
      invariant result == Records(headers, rows[1..], i - 1)
    {
      var row := rows[i];
      assert rows[1..][i - 1] == row;
      if forall v | v in row :: Strip(v) == "" {
        continue;
      }
      var record := ReadRecord(headers, row);
      if record != [] {
        result := result + [record];
      }
    }
  }

  // ---- The preview path ----

  function StrippedHeaders(headers: seq<string>): seq<string> {
    seq(|headers|, i requires 0 <= i < |headers| => Strip(headers[i]))
  }

  function RawRecord(headers: seq<string>, row: seq<string>, n: nat): Dict
    requires n <= Width(headers, row)
  {
    if n == 0 then [] else Put(RawRecord(headers, row, n - 1), headers[n - 1], Strip(row[n - 1]))
  }

  predicate HasValue(d: Dict) {
    exists e | e in d :: e.1 != ""
  }

  function RawRecords(headers: seq<string>, rows: seq<seq<string>>, n: nat): seq<Dict>
    requires n <= |rows|
  {
    if n == 0 then []
    else
      var done, row := RawRecords(headers, rows, n - 1), rows[n - 1];
      var d := RawRecord(headers, row, Width(headers, row));
      if BlankRow(row) || !HasValue(d) then done else done + [d]
  }

  /** The dict comprehension of `parse_csv_raw`. */
  method ReadRawRecord(headers: seq<string>, row: seq<string>) returns (record: Dict)
    ensures record == RawRecord(headers, row, Width(headers, row))
  {
    record := [];
    for j := 0 to Width(headers, row)
      invariant record == RawRecord(headers, row, j)
    {
      record := Put(record, headers[j], Strip(row[j]));
    }
  }

  /** Returns the stripped headers and the rows keyed by them. */
  method ParseCsvRaw(rows: seq<seq<string>>) returns (headers: seq<string>, result: seq<Dict>)
    ensures rows == [] ==> headers == [] && result == []
    ensures rows != [] ==> headers == StrippedHeaders(rows[0]) && result == RawRecords(headers, rows[1..], |rows| - 1)
  {
    headers, result := [], [];
    if rows == [] {
      return;
    }
    headers := StrippedHeaders(rows[0]);
    for i := 1 to |rows|
      invariant result == RawRecords(headers, rows[1..], i - 1)
    {
      var row := rows[i];
      assert rows[1..][i - 1] == row;
      if forall v | v in row :: Strip(v) == "" {
        continue;
      }
      var record := ReadRawRecord(headers, row);
      if exists e | e in record :: e.1 != "" {
        result := result + [record];
      }
    }
  }

  type Mapping = map<Field, string>

  /** First pass: the first header that is an alias of a field takes it. */
  function ExactMatches(t: Tables, headers: seq<string>, n: nat): Mapping
    requires n <= |headers|
  {
    if n == 0 then map[]
    else
      var m, h := ExactMatches(t, headers, n - 1), headers[n - 1];
      var a := AliasOf(t, h);
      if a.Some? && a.value !in m && h !in m.Values then m[a.value := h] else m
  }

  predicate Hints(t: Tables, f: Field, header: string) {
    exists kw | kw in t.keywords(f) :: Matching.Contains(t.lower(Strip(header)), kw)
  }

  /** The first of the headers from `i` on that is not claimed and contains a keyword of the field. */
  function FirstHinted(t: Tables, f: Field, headers: seq<string>, claimed: set<string>, i: nat): Option<string>
    requires i <= |headers|
    decreases |headers| - i
  {
    if i == |headers| then None
    else if headers[i] !in claimed && Hints(t, f, headers[i]) then Some(headers[i])
    else FirstHinted(t, f, headers, claimed, i + 1)
  }

  /** Second pass, for one field. */
  function WithHint(t: Tables, m: Mapping, f: Field, headers: seq<string>): Mapping {
    if f in m then m
    else
      var h := FirstHinted(t, f, headers, m.Values, 0);
      if h.Some? then m[f := h.value] else m
  }

  function Hinted(t: Tables, m: Mapping, headers: seq<string>, n: nat): Mapping
    requires n <= |FIELDS|
  {
    if n == 0 then m else WithHint(t, Hinted(t, m, headers, n - 1), FIELDS[n - 1], headers)
  }

  function DetectedMapping(t: Tables, headers: seq<string>): Mapping {
    Hinted(t, ExactMatches(t, headers, |headers|), headers, |FIELDS|)
  }

  lemma ClaimedGrows(m: Mapping, f: Field, h: string)
    requires f !in m
    ensures m[f := h].Values == m.Values + {h}
  {
    var m' := m[f := h];
    forall v | v in m.Values + {h} ensures v in m'.Values {
      if v == h {
        assert m'[f] == h;
      } else {
        var g :| g in m && m[g] == v;
        assert m'[g] == v;
      }
    }
  }

  /** The inner loop of the second pass. */
  method FindHinted(t: Tables, field: Field, headers: seq<string>, claimed: set<string>) returns (found: Option<string>)
    ensures found == FirstHinted(t, field, headers, claimed, 0)
  {
    var i := 0;
    while i < |headers|
      invariant 0 <= i <= |headers|
      invariant FirstHinted(t, field, headers, claimed, 0) == FirstHinted(t, field, headers, claimed, i)
    {
      if headers[i] !in claimed && Hints(t, field, headers[i]) {
        return Some(headers[i]);
      }
      i := i + 1;
    }
    found := None;
  }

  method DetectColumnMapping(t: Tables, headers: seq<string>) returns (mapping: Mapping)
    ensures mapping == DetectedMapping(t, headers)
  {
    mapping := map[];
    var claimed: set<string> := {};
    for i := 0 to |headers|
      invariant mapping == ExactMatches(t, headers, i) && claimed == mapping.Values
    {
      var raw := headers[i];
      var canonical := AliasOf(t, raw);
      if canonical.Some? && canonical.value !in mapping && raw !in claimed {
        ClaimedGrows(mapping, canonical.value, raw);
        mapping := mapping[canonical.value := raw];
        claimed := claimed + {raw};
      }
    }
    mapping := AddHinted(t, mapping, headers);
  }

  /** The second pass: a field still without a header takes the first unclaimed one with one of its keywords. */
  method AddHinted(t: Tables, exact: Mapping, headers: seq<string>) returns (mapping: Mapping)
    ensures mapping == Hinted(t, exact, headers, |FIELDS|)
  {
    mapping := exact;
    var claimed := mapping.Values;
    for n := 0 to |FIELDS|
      invariant mapping == Hinted(t, exact, headers, n) && claimed == mapping.Values
    {
      var field := FIELDS[n];
      if field in mapping {
        continue;
      }
      var found := FindHinted(t, field, headers, claimed);
      if found.Some? {
        ClaimedGrows(mapping, field, found.value);
        mapping := mapping[field := found.value];
        claimed := claimed + {found.value};
      }
    }
  }

  /** `reverse.get(raw, raw)`; of two fields mapped to one header the later one wins. */
  function Renamed(m: Mapping, raw: string): string {
    if Location in m && m[Location] == raw then FieldName(Location)
    else if Yoe in m && m[Yoe] == raw then FieldName(Yoe)
    else if ResumeUrl in m && m[ResumeUrl] == raw then FieldName(ResumeUrl)
    else if Email in m && m[Email] == raw then FieldName(Email)
    else if Name in m && m[Name] == raw then FieldName(Name)
    else raw
  }

  function Rekeyed(m: Mapping, d: Dict, n: nat): Dict
    requires n <= |d|
  {
    if n == 0 then [] else Put(Rekeyed(m, d, n - 1), Renamed(m, d[n - 1].0), d[n - 1].1)
  }

  method ApplyColumnMapping(rows: seq<Dict>, m: Mapping) returns (result: seq<Dict>)
    ensures |result| == |rows| && forall i | 0 <= i < |rows| :: result[i] == Rekeyed(m, rows[i], |rows[i]|)
  {
    result := [];
    for i := 0 to |rows|
      invariant |result| == i && forall k | 0 <= k < i :: result[k] == Rekeyed(m, rows[k], |rows[k]|)
    {
      var row := rows[i];
      var newRow: Dict := [];
      for j := 0 to |row|
        invariant newRow == Rekeyed(m, row, j)
      {
        newRow := Put(newRow, Renamed(m, row[j].0), row[j].1);
      }
      result := result + [newRow];
    }
  }

  // ---- The detected mapping ----

  predicate Injective(m: Mapping) {
    forall f, g | f in m && g in m && f != g :: m[f] != m[g]
  }

  lemma FirstHintedFacts(t: Tables, f: Field, headers: seq<string>, claimed: set<string>, i: nat)
    requires i <= |headers|
    ensures var h := FirstHinted(t, f, headers, claimed, i); h.Some? ==> h.value !in claimed && h.value in headers
    decreases |headers| - i
  {
  }

  lemma ClaimKeepsInjective(m: Mapping, f: Field, h: string)
    requires Injective(m) && f !in m && h !in m.Values
    ensures Injective(m[f := h])
  {
    assert forall g | g in m :: m[g] in m.Values;
  }

  lemma {:induction false} ExactFacts(t: Tables, headers: seq<string>, n: nat)
    requires n <= |headers|
    ensures Injective(ExactMatches(t, headers, n))
    ensures forall f | f in ExactMatches(t, headers, n) :: AliasOf(t, ExactMatches(t, headers, n)[f]) == Some(f)
  {
    if n > 0 {
      ExactFacts(t, headers, n - 1);
      var m, h := ExactMatches(t, headers, n - 1), headers[n - 1];
      if AliasOf(t, h).Some? && AliasOf(t, h).value !in m && h !in m.Values {
        ClaimKeepsInjective(m, AliasOf(t, h).value, h);
      }
    }
  }

  lemma {:induction false} HintedFacts(t: Tables, m: Mapping, headers: seq<string>, n: nat)
    requires n <= |FIELDS| && Injective(m)
    ensures var m' := Hinted(t, m, headers, n); Injective(m') && forall f | f in m :: f in m' && m'[f] == m[f]
  {
    if n > 0 {
      HintedFacts(t, m, headers, n - 1);
      var m' := Hinted(t, m, headers, n - 1);
      FirstHintedFacts(t, FIELDS[n - 1], headers, m'.Values, 0);
      assert forall f | f in m' :: m'[f] in m'.Values;
    }
  }

  /** No header is given to two fields. */
  lemma DetectionIsInjective(t: Tables, headers: seq<string>)
    ensures Injective(DetectedMapping(t, headers))
  {
    ExactFacts(t, headers, |headers|);
    HintedFacts(t, ExactMatches(t, headers, |headers|), headers, |FIELDS|);
  }

  predicate FirstAlias(t: Tables, headers: seq<string>, n: nat, f: Field, i: nat) {
    && i < n <= |headers| && AliasOf(t, headers[i]) == Some(f)
    && forall j | 0 <= j < i :: AliasOf(t, headers[j]) != Some(f)
  }

  lemma {:induction false} NotYetMatched(t: Tables, headers: seq<string>, n: nat, f: Field)
    requires n <= |headers| && forall j | 0 <= j < n :: AliasOf(t, headers[j]) != Some(f)
    ensures f !in ExactMatches(t, headers, n)
  {
    if n > 0 {
      NotYetMatched(t, headers, n - 1, f);
    }
  }

  lemma NotYetClaimed(t: Tables, headers: seq<string>, n: nat, f: Field, h: string)
    requires n <= |headers| && AliasOf(t, h) == Some(f) && f !in ExactMatches(t, headers, n)
    ensures h !in ExactMatches(t, headers, n).Values
  {
    ExactFacts(t, headers, n);
    var m := ExactMatches(t, headers, n);
    forall g | g in m ensures m[g] != h {
      assert AliasOf(t, m[g]) == Some(g);
    }
  }

  lemma {:induction false} ExactTakesFirst(t: Tables, headers: seq<string>, n: nat, f: Field, i: nat)
    requires FirstAlias(t, headers, n, f, i)
    ensures f in ExactMatches(t, headers, n) && ExactMatches(t, headers, n)[f] == headers[i]
  {
    if i < n - 1 {
      ExactTakesFirst(t, headers, n - 1, f, i);
    } else {
      NotYetMatched(t, headers, n - 1, f);
      NotYetClaimed(t, headers, n - 1, f, headers[i]);
    }
  }

  /** A field with an exact alias among the headers gets the first of them. */
  lemma DetectionPrefersFirstAlias(t: Tables, headers: seq<string>, f: Field, i: nat)
    requires FirstAlias(t, headers, |headers|, f, i)
    ensures f in DetectedMapping(t, headers) && DetectedMapping(t, headers)[f] == headers[i]
  {
    ExactTakesFirst(t, headers, |headers|, f, i);
    ExactFacts(t, headers, |headers|);
    HintedFacts(t, ExactMatches(t, headers, |headers|), headers, |FIELDS|);
  }

  // ---- The two paths agree ----

  predicate OwnAliases(t: Tables, headers: seq<string>) {
    forall i, j | 0 <= i < j < |headers| ::
      AliasOf(t, headers[i]).Some? ==> AliasOf(t, headers[i]) != AliasOf(t, headers[j])
  }

  /** Distinct non-blank headers, no two of them aliases of one field, and no field left to the keyword hints. */
  predicate Unambiguous(t: Tables, headers: seq<string>) {
    && Distinct(headers) && (forall h | h in headers :: h != "")
    && OwnAliases(t, headers)
    && DetectedMapping(t, headers) == ExactMatches(t, headers, |headers|)
  }

  /** Which columns hold a field. */
  function Columns(t: Tables, headers: seq<string>, f: Field): seq<bool> {
    seq(|headers|, i requires 0 <= i < |headers| => AliasOf(t, headers[i]) == Some(f))
  }

  predicate AtMostOne(columns: seq<bool>) {
    forall i, j | 0 <= i < j < |columns| :: columns[i] ==> !columns[j]
  }

  /** The cell in the marked one of the first `n` columns; blank when there is none. */
  function Cell(columns: seq<bool>, row: seq<string>, n: nat): string
    requires n <= |columns| && n <= |row|
  {
    if n == 0 then "" else if columns[n - 1] then Strip(row[n - 1]) else Cell(columns, row, n - 1)
  }

  lemma {:induction false} NoCellYet(columns: seq<bool>, row: seq<string>, n: nat)
    requires n <= |columns| && n <= |row| && forall j | 0 <= j < n :: !columns[j]
    ensures Cell(columns, row, n) == ""
  {
    if n > 0 {
      NoCellYet(columns, row, n - 1);
    }
  }

  lemma FieldNamesDiffer(f: Field, g: Field)
    ensures FieldName(f) == FieldName(g) <==> f == g
    ensures FieldName(f) != ""
  {
  }

  /** A header is normalised to a field's name exactly when it is an alias of the field. */
  lemma NormalizedIsField(t: Tables, h: string, f: Field)
    requires Proper(t)
    ensures NormalizeHeader(t, h) == FieldName(f) <==> AliasOf(t, h) == Some(f)
    ensures Names(t, h, f) <==> AliasOf(t, h) == Some(f)
  {
    var k := t.lower(Strip(h));
    if k in t.aliases {
      FieldNamesDiffer(t.aliases[k], f);
    }
  }

  lemma NormalizedNotBlank(t: Tables, h: string)
    requires Proper(t) && Strip(h) != ""
    ensures NormalizeHeader(t, h) != ""
  {
    var k := t.lower(Strip(h));
    if k in t.aliases {
      FieldNamesDiffer(t.aliases[k], Name);
    } else {
      assert |Underscored(k)| == |k|;
    }
  }

  /** The direct path reads the cell of the column whose header is normalised to the key. */
  lemma {:induction false} RecordReadsCell(normal: seq<string>, columns: seq<bool>, row: seq<string>, key: string,
        n: nat)
    requires |columns| == |normal| && n <= Width(normal, row) && AtMostOne(columns) && key != ""
    requires forall i | 0 <= i < |normal| :: normal[i] == key <==> columns[i]
    ensures Value(Record(normal, row, n), key) == Cell(columns, row, n)
  {
    if n > 0 {
      RecordReadsCell(normal, columns, row, key, n - 1);
      PutGet(Record(normal, row, n - 1), normal[n - 1], Strip(row[n - 1]), key);
      if columns[n - 1] {
        NoCellYet(columns, row, n - 1);
      }
    }
  }

  lemma RecordStep(headers: seq<string>, row: seq<string>, n: nat)
    requires 0 < n <= Width(headers, row)
    ensures Record(headers, row, n) == [] <==>
            Record(headers, row, n - 1) == [] && (headers[n - 1] == "" || Strip(row[n - 1]) == "")
  {
    PutGet(Record(headers, row, n - 1), headers[n - 1], Strip(row[n - 1]), "");
  }

  /** A record is empty exactly when its cells under headers that are not blank are. */
  lemma {:induction false} RecordEmptyIff(headers: seq<string>, row: seq<string>, n: nat)
    requires n <= Width(headers, row)
    ensures Record(headers, row, n) == [] <==> forall i | 0 <= i < n :: headers[i] == "" || Strip(row[i]) == ""
  {
    if n > 0 {
      RecordEmptyIff(headers, row, n - 1);
      RecordStep(headers, row, n);
    }
  }

  lemma NormalizedHeadersNotBlank(t: Tables, headers: seq<string>)
    requires Proper(t) && forall h | h in headers :: h != "" && Strip(h) == h
    ensures forall h | h in NormalizedHeaders(t, headers) :: h != ""
  {
    forall i | 0 <= i < |headers| ensures NormalizeHeader(t, headers[i]) != "" {
      assert headers[i] in headers;
      NormalizedNotBlank(t, headers[i]);
    }
  }

  /** With distinct headers the raw record lists the cells in column order. */
  lemma {:induction false} RawRecordListsCells(headers: seq<string>, row: seq<string>, n: nat)
    requires Distinct(headers) && n <= Width(headers, row)
    ensures RawRecord(headers, row, n) == seq(n, i requires 0 <= i < n => (headers[i], Strip(row[i])))
  {
    if n > 0 {
      RawRecordListsCells(headers, row, n - 1);
      PutAppends(RawRecord(headers, row, n - 1), headers[n - 1], Strip(row[n - 1]));
    }
  }

  /** The reverse mapping renames a header to a field's name exactly when it is an alias of the field. */
  lemma RenamedIsField(t: Tables, headers: seq<string>, i: nat, f: Field)
    requires Proper(t) && Unambiguous(t, headers) && i < |headers| && Strip(headers[i]) == headers[i]
    ensures Renamed(DetectedMapping(t, headers), headers[i]) == FieldName(f) <==> AliasOf(t, headers[i]) == Some(f)
  {
    var m, h := DetectedMapping(t, headers), headers[i];
    ExactFacts(t, headers, |headers|);
    if AliasOf(t, h).Some? {
      var g := AliasOf(t, h).value;
      assert FirstAlias(t, headers, |headers|, g, i);
      ExactTakesFirst(t, headers, |headers|, g, i);
      RenamedToOwner(m, g, h);
      FieldNamesDiffer(f, g);
    } else {
      assert forall g | g in m :: m[g] != h;
      assert Renamed(m, h) == h;
      if h == FieldName(f) {
        FieldNameIsAlias(t, f);
      }
    }
  }

  lemma FieldNameIsAlias(t: Tables, f: Field)
    requires Proper(t) && Strip(FieldName(f)) == FieldName(f)
    ensures AliasOf(t, FieldName(f)) == Some(f)
  {
    assert Underscored(FieldName(f)) == FieldName(f);
  }

  lemma RenamedToOwner(m: Mapping, g: Field, h: string)
    requires Injective(m) && g in m && m[g] == h
    ensures Renamed(m, h) == FieldName(g)
  {
  }

  /** The preview path reads the cell of the column whose header is renamed to the key. */
  lemma {:induction false} RekeyedReadsCell(m: Mapping, columns: seq<bool>, row: seq<string>, d: Dict, key: string,
        n: nat)
    requires n <= |d| <= |columns| && |d| <= |row| && AtMostOne(columns)
    requires forall i | 0 <= i < |d| :: d[i].1 == Strip(row[i]) && (Renamed(m, d[i].0) == key <==> columns[i])
    ensures Value(Rekeyed(m, d, n), key) == Cell(columns, row, n)
  {
    if n > 0 {
      RekeyedReadsCell(m, columns, row, d, key, n - 1);
      PutGet(Rekeyed(m, d, n - 1), Renamed(m, d[n - 1].0), d[n - 1].1, key);
      if columns[n - 1] {
        NoCellYet(columns, row, n - 1);
      }
    }
  }

  /** One row: both paths keep it or neither does, and all field values are the same. */
  ghost predicate RowAgrees(m: Mapping, normal: seq<string>, headers: seq<string>, row: seq<string>) {
    var d, raw := Record(normal, row, Width(normal, row)), RawRecord(headers, row, Width(headers, row));
    (d == [] <==> !HasValue(raw)) && forall f :: Value(d, FieldName(f)) == Value(Rekeyed(m, raw, |raw|), FieldName(f))
  }

  lemma FieldAgrees(t: Tables, headers: seq<string>, row: seq<string>, f: Field)
    requires Proper(t) && Unambiguous(t, headers) && (forall h | h in headers :: Strip(h) == h)
    ensures
      var w := Width(headers, row);
      var raw := RawRecord(headers, row, w);
      Value(Record(NormalizedHeaders(t, headers), row, w), FieldName(f))
        == Value(Rekeyed(DetectedMapping(t, headers), raw, |raw|), FieldName(f))
  {
    var w, columns, normal := Width(headers, row), Columns(t, headers, f), NormalizedHeaders(t, headers);
    var m, raw := DetectedMapping(t, headers), RawRecord(headers, row, w);
    RawRecordListsCells(headers, row, w);
    FieldNamesDiffer(f, f);
    forall i | 0 <= i < |headers|
      ensures (normal[i] == FieldName(f) <==> columns[i]) && (Renamed(m, headers[i]) == FieldName(f) <==> columns[i])
    {
      assert headers[i] in headers;
      NormalizedIsField(t, headers[i], f);
      RenamedIsField(t, headers, i, f);
    }
    RecordReadsCell(normal, columns, row, FieldName(f), w);
    RekeyedReadsCell(m, columns, row, raw, FieldName(f), w);
  }

  lemma RowKeptIff(t: Tables, headers: seq<string>, row: seq<string>)
    requires Proper(t) && Unambiguous(t, headers) && (forall h | h in headers :: Strip(h) == h)
    ensures Record(NormalizedHeaders(t, headers), row, Width(headers, row)) == [] <==>
            !HasValue(RawRecord(headers, row, Width(headers, row)))
  {
    var w := Width(headers, row);
    RawRecordListsCells(headers, row, w);
    NormalizedHeadersNotBlank(t, headers);
    hide Proper, Unambiguous, Strip, Record, RawRecord, NormalizeHeader;
    RecordEmptyIff(NormalizedHeaders(t, headers), row, w);
    assert forall i | 0 <= i < w :: NormalizedHeaders(t, headers)[i] in NormalizedHeaders(t, headers);
    if !forall i | 0 <= i < w :: Strip(row[i]) == "" {
      var i :| 0 <= i < w && Strip(row[i]) != "";
      assert RawRecord(headers, row, w)[i] in RawRecord(headers, row, w);
    }
  }

  lemma RowsAgree(t: Tables, headers: seq<string>, row: seq<string>)
    requires Proper(t) && Unambiguous(t, headers) && (forall h | h in headers :: Strip(h) == h)
    ensures RowAgrees(DetectedMapping(t, headers), NormalizedHeaders(t, headers), headers, row)
  {
    hide Proper, Unambiguous, Strip, Record, RawRecord, FieldName, DetectedMapping, Rekeyed;
    var w := Width(headers, row);
    var d, raw := Record(NormalizedHeaders(t, headers), row, w), RawRecord(headers, row, w);
    RowKeptIff(t, headers, row);
    forall f ensures Value(d, FieldName(f)) == Value(Rekeyed(DetectedMapping(t, headers), raw, |raw|), FieldName(f)) {
      FieldAgrees(t, headers, row, f);
    }
  }

  /** The same candidate fields, row by row. */
  ghost predicate SameFields(m: Mapping, direct: seq<Dict>, raw: seq<Dict>) {
    |direct| == |raw| && forall i | 0 <= i < |direct| ::
      forall f :: Value(direct[i], FieldName(f)) == Value(Rekeyed(m, raw[i], |raw[i]|), FieldName(f))
  }

  lemma SameFieldsSnoc(m: Mapping, direct: seq<Dict>, raw: seq<Dict>, d: Dict, r: Dict)
    requires SameFields(m, direct, raw) && forall f :: Value(d, FieldName(f)) == Value(Rekeyed(m, r, |r|), FieldName(f))
    ensures SameFields(m, direct + [d], raw + [r])
  {
  }

  lemma SameFieldsUnlessSkipped(m: Mapping, direct: seq<Dict>, raw: seq<Dict>, d: Dict, r: Dict)
    requires SameFields(m, direct, raw) && (d == [] <==> !HasValue(r))
    requires forall f :: Value(d, FieldName(f)) == Value(Rekeyed(m, r, |r|), FieldName(f))
    ensures SameFields(m, if d == [] then direct else direct + [d], if !HasValue(r) then raw else raw + [r])
  {
    SameFieldsSnoc(m, direct, raw, d, r);
  }

  lemma {:induction false} RecordsAgree(m: Mapping, normal: seq<string>, headers: seq<string>,
        rows: seq<seq<string>>, n: nat)
    requires n <= |rows| && forall row :: RowAgrees(m, normal, headers, row)
    ensures SameFields(m, Records(normal, rows, n), RawRecords(headers, rows, n))
  {
    if n > 0 {
      RecordsAgree(m, normal, headers, rows, n - 1);
      var row := rows[n - 1];
      assert RowAgrees(m, normal, headers, row);
      SameFieldsUnlessSkipped(m, Records(normal, rows, n - 1), RawRecords(headers, rows, n - 1),
        Record(normal, row, Width(normal, row)), RawRecord(headers, row, Width(headers, row)));
    }
  }

  /**
    On a sheet with unambiguous headers the two paths give the same number of rows, hence the same
    cost in credits, and the same value for every field of every candidate.
   */
  lemma PathsAgree(t: Tables, rows: seq<seq<string>>)
    requires Proper(t) && rows != [] && Unambiguous(t, StrippedHeaders(rows[0]))
    ensures
      var headers := StrippedHeaders(rows[0]);
      SameFields(DetectedMapping(t, headers), ParsedCsv(t, rows), RawRecords(headers, rows[1..], |rows| - 1))
  {
    var headers := StrippedHeaders(rows[0]);
    HeadersAreRead(t, rows[0]);
    forall row ensures RowAgrees(DetectedMapping(t, headers), NormalizedHeaders(t, headers), headers, row) {
      RowsAgree(t, headers, row);
    }
    RecordsAgree(DetectedMapping(t, headers), NormalizedHeaders(t, headers), headers, rows[1..], |rows| - 1);
  }

  /** Stripping the headers first makes no difference to what they are normalised to. */
  lemma HeadersAreRead(t: Tables, headers: seq<string>)
    ensures forall h | h in StrippedHeaders(headers) :: Strip(h) == h
    ensures NormalizedHeaders(t, StrippedHeaders(headers)) == NormalizedHeaders(t, headers)
  {
    forall i | 0 <= i < |headers|
      ensures Strip(Strip(headers[i])) == Strip(headers[i])
      ensures NormalizeHeader(t, Strip(headers[i])) == NormalizeHeader(t, headers[i])
    {
      StripIdempotent(headers[i]);
    }
  }

  // ---- The two paths on any sheet, in terms of its cells ----

  /** The header is one of the field's aliases. */
  predicate Names(t: Tables, header: string, f: Field) {
    t.lower(Strip(header)) in t.aliases && t.aliases[t.lower(Strip(header))] == f
  }

  /** A row with something to read: a cell that is not blank under a header that is not. */
  predicate Readable(headers: seq<string>, row: seq<string>) {
    exists j | 0 <= j < |headers| && j < |row| :: Strip(headers[j]) != "" && Strip(row[j]) != ""
  }

  /** The value is the last of the first `n` cells that is under an alias and not blank; blank when there is none. */
  ghost predicate LastOf(t: Tables, headers: seq<string>, row: seq<string>, n: nat, f: Field, value: string)
    requires n <= |headers| && n <= |row|
  {
    && (value == "" ==> forall i | 0 <= i < n && Names(t, headers[i], f) :: Strip(row[i]) == "")
    && (value != "" ==> exists j | 0 <= j < n && Names(t, headers[j], f) ::
          value == Strip(row[j]) && forall i | j < i < n && Names(t, headers[i], f) :: Strip(row[i]) == "")
  }

  lemma LastOfSkips(t: Tables, headers: seq<string>, row: seq<string>, n: nat, f: Field, value: string)
    requires 0 < n <= |headers| && n <= |row| && LastOf(t, headers, row, n - 1, f, value)
    requires Names(t, headers[n - 1], f) ==> Strip(row[n - 1]) == ""
    ensures LastOf(t, headers, row, n, f, value)
  {
    hide Names, Strip;
  }

  lemma LastOfTakes(t: Tables, headers: seq<string>, row: seq<string>, n: nat, f: Field)
    requires 0 < n <= |headers| && n <= |row| && Names(t, headers[n - 1], f) && Strip(row[n - 1]) != ""
    ensures LastOf(t, headers, row, n, f, Strip(row[n - 1]))
  {
    hide Names, Strip;
  }

  lemma {:induction false} DirectReadsLast(t: Tables, headers: seq<string>, keys: seq<string>, row: seq<string>, n: nat,
        f: Field)
    requires Proper(t) && n <= Width(keys, row)
    requires |keys| == |headers| && forall i | 0 <= i < |keys| :: keys[i] == NormalizeHeader(t, headers[i])
    ensures LastOf(t, headers, row, n, f, Value(Record(keys, row, n), FieldName(f)))
  {
    if n == 0 {
      assert LastOf(t, headers, row, 0, f, "");
    } else {
      hide LastOf, Proper, Strip, FieldName, Names, NormalizeHeader, AliasOf;
      DirectReadsLast(t, headers, keys, row, n - 1, f);
      NormalizedIsField(t, headers[n - 1], f);
      FieldNamesDiffer(f, f);
      var d := Record(keys, row, n - 1);
      PutGet(d, keys[n - 1], Strip(row[n - 1]), FieldName(f));
      if Names(t, headers[n - 1], f) && Strip(row[n - 1]) != "" {
        LastOfTakes(t, headers, row, n, f);
      } else {
        LastOfSkips(t, headers, row, n, f, Value(d, FieldName(f)));
      }
    }
  }

  lemma NormalizedBlankIff(t: Tables, h: string)
    requires Proper(t)
    ensures NormalizeHeader(t, h) == "" <==> Strip(h) == ""
  {
    if Strip(h) != "" {
      NormalizedNotBlank(t, h);
    }
  }

  lemma RecordReadableIff(t: Tables, headers: seq<string>, row: seq<string>)
    requires Proper(t)
    ensures Record(NormalizedHeaders(t, headers), row, Width(headers, row)) != [] <==> Readable(headers, row)
  {
    var normal := NormalizedHeaders(t, headers);
    RecordEmptyIff(normal, row, Width(headers, row));
    forall i | 0 <= i < |headers| ensures normal[i] == "" <==> Strip(headers[i]) == "" {
      NormalizedBlankIff(t, headers[i]);
    }
  }

  /** Indices of the first `n` rows, in order. */
  predicate Indices(kept: seq<nat>, n: nat) {
    (forall k | 0 <= k < |kept| :: kept[k] < n) && (forall j, k | 0 <= j < k < |kept| :: kept[j] < kept[k])
  }

  /** The records are those of the readable ones among the first `n` rows, in order, with the fields read from them. */
  ghost predicate ReadFrom(t: Tables, headers: seq<string>, rows: seq<seq<string>>, n: nat, kept: seq<nat>,
      records: seq<Dict>)
  {
    && n <= |rows| && Indices(kept, n) && |kept| == |records|
    && (forall i | 0 <= i < n :: i in kept <==> Readable(headers, rows[i]))
    && forall k | 0 <= k < |kept| :: FieldsFrom(t, headers, rows[kept[k]], records[k])
  }

  /** Every field has the last of its cells that is not blank. */
  ghost predicate FieldsFrom(t: Tables, headers: seq<string>, row: seq<string>, record: Dict) {
    forall f :: LastOf(t, headers, row, Width(headers, row), f, Value(record, FieldName(f)))
  }

  lemma ReadFromSnoc(t: Tables, headers: seq<string>, rows: seq<seq<string>>, n: nat, kept: seq<nat>,
        records: seq<Dict>, record: Dict)
    requires 0 < n <= |rows| && ReadFrom(t, headers, rows, n - 1, kept, records)
    ensures !Readable(headers, rows[n - 1]) ==> ReadFrom(t, headers, rows, n, kept, records)
    ensures Readable(headers, rows[n - 1]) && FieldsFrom(t, headers, rows[n - 1], record)
            ==> ReadFrom(t, headers, rows, n, kept + [n - 1], records + [record])
  {
    hide Readable, FieldsFrom;
  }

  lemma RowIsRead(t: Tables, headers: seq<string>, keys: seq<string>, row: seq<string>)
    requires Proper(t) && keys == NormalizedHeaders(t, headers)
    ensures FieldsFrom(t, headers, row, Record(keys, row, Width(keys, row)))
    ensures Record(keys, row, Width(keys, row)) != [] <==> Readable(headers, row)
    ensures BlankRow(row) ==> !Readable(headers, row)
  {
    hide LastOf, Proper, Strip, FieldName, Value, Record;
    RecordReadableIff(t, headers, row);
    forall f ensures LastOf(t, headers, row, Width(headers, row), f,
                       Value(Record(keys, row, Width(keys, row)), FieldName(f)))
    {
      DirectReadsLast(t, headers, keys, row, Width(headers, row), f);
    }
  }

  lemma {:induction false} RecordsAreKept(t: Tables, headers: seq<string>, rows: seq<seq<string>>, n: nat)
    returns (kept: seq<nat>)
    requires Proper(t) && n <= |rows|
    ensures ReadFrom(t, headers, rows, n, kept, Records(NormalizedHeaders(t, headers), rows, n))
  {
    if n == 0 {
      kept := [];
    } else {
      hide Proper, Record, ReadFrom, FieldsFrom, Readable, BlankRow, NormalizedHeaders;
      kept := RecordsAreKept(t, headers, rows, n - 1);
      var keys, row := NormalizedHeaders(t, headers), rows[n - 1];
      RowIsRead(t, headers, keys, row);
      ReadFromSnoc(t, headers, rows, n, kept, Records(keys, rows, n - 1), Record(keys, row, Width(keys, row)));
      if Readable(headers, row) {
        kept := kept + [n - 1];
      }
    }
  }

  /** An alias is read as its field's name, any other header as itself in lower case with underscores for spaces. */
  lemma NormalizedIs(t: Tables, h: string, f: Field)
    ensures
      var key, low := NormalizeHeader(t, h), t.lower(Strip(h));
      && (Names(t, h, f) ==> key == FieldName(f))
      && ((forall g :: !Names(t, h, g)) ==>
            && |key| == |low|
            && forall i | 0 <= i < |low| :: (low[i] == ' ' ==> key[i] == '_') && (low[i] != ' ' ==> key[i] == low[i]))
  {
    var low := t.lower(Strip(h));
    if low in t.aliases {
      assert Names(t, h, t.aliases[low]);
    }
  }

  /**
    The direct path returns the readable rows, all of them and in order; of each it gives a field the
    last cell under one of its aliases that is not blank, without the whitespace around it.
   */
  lemma ParsedRows(t: Tables, headers: seq<string>, rows: seq<seq<string>>) returns (kept: seq<nat>)
    requires Proper(t)
    ensures ParsedCsv(t, []) == []
    ensures ReadFrom(t, headers, rows, |rows|, kept, ParsedCsv(t, [headers] + rows))
  {
    assert ([headers] + rows)[1..] == rows;
    kept := RecordsAreKept(t, headers, rows, |rows|);
  }

  // The preview path

  /** A row the preview keeps: a cell that is not blank under a header that does not recur to its right. */
  predicate RawReadable(headers: seq<string>, row: seq<string>) {
    exists j | 0 <= j < Width(headers, row) :: Strip(row[j]) != "" && Latest(headers, Width(headers, row), j)
  }

  predicate Latest(headers: seq<string>, n: nat, j: nat) {
    j < n <= |headers| && forall i | j < i < n :: Strip(headers[i]) != Strip(headers[j])
  }

  /** The cell under the last of the first `n` headers that reads `key`. */
  ghost predicate RawCell(headers: seq<string>, row: seq<string>, n: nat, key: string, cell: Option<string>)
    requires n <= |headers| && n <= |row|
  {
    && (cell.None? ==> forall j | 0 <= j < n :: Strip(headers[j]) != key)
    && (cell.Some? ==> exists j ::
          0 <= j < n && Strip(headers[j]) == key && Latest(headers, n, j) && cell.value == Strip(row[j]))
  }

  lemma RawCellStep(headers: seq<string>, row: seq<string>, n: nat, key: string, cell: Option<string>)
    requires 0 < n <= |headers| && n <= |row| && RawCell(headers, row, n - 1, key, cell)
    ensures RawCell(headers, row, n, key, if Strip(headers[n - 1]) == key then Some(Strip(row[n - 1])) else cell)
  {
    hide Strip;
    if Strip(headers[n - 1]) == key {
      assert Latest(headers, n, n - 1);
    } else if cell.Some? {
      var j :| 0 <= j < n - 1 && Strip(headers[j]) == key && Latest(headers, n - 1, j) && cell.value == Strip(row[j]);
      assert Latest(headers, n, j);
    }
  }

  lemma {:induction false} RawReadsLast(headers: seq<string>, keys: seq<string>, row: seq<string>, n: nat, key: string)
    requires n <= Width(keys, row)
    requires |keys| == |headers| && forall i | 0 <= i < |keys| :: keys[i] == Strip(headers[i])
    ensures RawCell(headers, row, n, key, Get(RawRecord(keys, row, n), key))
  {
    if n > 0 {
      hide RawCell, Strip;
      RawReadsLast(headers, keys, row, n - 1, key);
      var d := RawRecord(keys, row, n - 1);
      RawCellStep(headers, row, n, key, Get(d, key));
      PutGet(d, keys[n - 1], Strip(row[n - 1]), key);
    }
  }

  predicate OneEntryPerKey(d: Dict) {
    forall i, j | 0 <= i < j < |d| :: d[i].0 != d[j].0
  }

  lemma {:induction false} PutKeys(d: Dict, key: string, value: string)
    requires OneEntryPerKey(d)
    ensures OneEntryPerKey(Put(d, key, value))
    ensures forall e | e in Put(d, key, value) :: e.0 == key || e in d
  {
    if d != [] && d[0].0 != key {
      PutKeys(d[1..], key, value);
      assert d == [d[0]] + d[1..];
      assert forall e | e in d[1..] :: e.0 != d[0].0;
    }
  }

  lemma {:induction false} GetIff(d: Dict, key: string, value: string)
    requires OneEntryPerKey(d)
    ensures Get(d, key) == Some(value) <==> (key, value) in d
  {
    if d != [] {
      GetIff(d[1..], key, value);
      assert d == [d[0]] + d[1..];
      assert forall e | e in d[1..] :: e.0 != d[0].0;
    }
  }

  lemma {:induction false} RawRecordKeys(headers: seq<string>, row: seq<string>, n: nat)
    requires n <= Width(headers, row)
    ensures OneEntryPerKey(RawRecord(headers, row, n))
  {
    if n > 0 {
      RawRecordKeys(headers, row, n - 1);
      PutKeys(RawRecord(headers, row, n - 1), headers[n - 1], Strip(row[n - 1]));
    }
  }

  lemma RawValueIsReadable(headers: seq<string>, keys: seq<string>, row: seq<string>, e: (string, string))
    requires |keys| == |headers| && forall i | 0 <= i < |keys| :: keys[i] == Strip(headers[i])
    requires e in RawRecord(keys, row, Width(keys, row)) && e.1 != ""
    ensures RawReadable(headers, row)
  {
    var n := Width(keys, row);
    RawRecordKeys(keys, row, n);
    hide RawRecord, Strip, Get, OneEntryPerKey, Latest;
    GetIff(RawRecord(keys, row, n), e.0, e.1);
    RawReadsLast(headers, keys, row, n, e.0);
  }

  lemma RawReadableHasValue(headers: seq<string>, keys: seq<string>, row: seq<string>, j: nat)
    requires |keys| == |headers| && forall i | 0 <= i < |keys| :: keys[i] == Strip(headers[i])
    requires j < Width(headers, row) && Strip(row[j]) != "" && Latest(headers, Width(headers, row), j)
    ensures HasValue(RawRecord(keys, row, Width(keys, row)))
  {
    var n := Width(keys, row);
    RawRecordKeys(keys, row, n);
    hide RawRecord, Strip, Get, OneEntryPerKey;
    RawReadsLast(headers, keys, row, n, Strip(headers[j]));
    assert Get(RawRecord(keys, row, n), Strip(headers[j])) == Some(Strip(row[j]));
    GetIff(RawRecord(keys, row, n), Strip(headers[j]), Strip(row[j]));
  }

  lemma RawReadableIff(headers: seq<string>, row: seq<string>)
    ensures HasValue(RawRecord(StrippedHeaders(headers), row, Width(headers, row))) <==> RawReadable(headers, row)
  {
    var keys := StrippedHeaders(headers);
    KeysAreStripped(headers);
    hide RawRecord, Strip, StrippedHeaders, Latest;
    if HasValue(RawRecord(keys, row, Width(keys, row))) {
      var e :| e in RawRecord(keys, row, Width(keys, row)) && e.1 != "";
      RawValueIsReadable(headers, keys, row, e);
    }
    if RawReadable(headers, row) {
      var j :| 0 <= j < Width(headers, row) && Strip(row[j]) != "" && Latest(headers, Width(headers, row), j);
      RawReadableHasValue(headers, keys, row, j);
    }
  }

  lemma KeysAreStripped(headers: seq<string>)
    ensures |StrippedHeaders(headers)| == |headers|
    ensures forall i | 0 <= i < |headers| :: StrippedHeaders(headers)[i] == Strip(headers[i])
  {
  }

  lemma {:induction false} RawRecordsAreKept(headers: seq<string>, rows: seq<seq<string>>, n: nat)
    returns (kept: seq<nat>)
    requires n <= |rows|
    ensures Indices(kept, n) && |kept| == |RawRecords(StrippedHeaders(headers), rows, n)|
    ensures forall i | 0 <= i < n :: i in kept <==> RawReadable(headers, rows[i])
    ensures forall k, key | 0 <= k < |kept| ::
      RawCell(headers, rows[kept[k]], Width(headers, rows[kept[k]]), key,
        Get(RawRecords(StrippedHeaders(headers), rows, n)[k], key))
  {
    hide Strip, Get, RawRecord, RawCell, HasValue, StrippedHeaders;
    kept := [];
    if n > 0 {
      kept := RawRecordsAreKept(headers, rows, n - 1);
      var row := rows[n - 1];
      RawReadableIff(headers, row);
      KeysAreStripped(headers);
      assert BlankRow(row) ==> !RawReadable(headers, row);
      if RawReadable(headers, row) {
        forall key
          ensures RawCell(headers, row, Width(headers, row), key,
                    Get(RawRecord(StrippedHeaders(headers), row, Width(headers, row)), key))
        {
          RawReadsLast(headers, StrippedHeaders(headers), row, Width(headers, row), key);
        }
        kept := kept + [n - 1];
      }
    }
  }

  /** The preview keeps the readable rows in order, and under every header the last cell it has, stripped. */
  lemma RawRows(headers: seq<string>, rows: seq<seq<string>>) returns (kept: seq<nat>)
    ensures |StrippedHeaders(headers)| == |headers|
    ensures forall i | 0 <= i < |headers| :: StrippedHeaders(headers)[i] == Strip(headers[i])
    ensures Indices(kept, |rows|) && |kept| == |RawRecords(StrippedHeaders(headers), rows, |rows|)|
    ensures forall i | 0 <= i < |rows| :: i in kept <==> RawReadable(headers, rows[i])
    ensures forall k, key | 0 <= k < |kept| ::
      RawCell(headers, rows[kept[k]], Width(headers, rows[kept[k]]), key,
        Get(RawRecords(StrippedHeaders(headers), rows, |rows|)[k], key))
  {
    kept := RawRecordsAreKept(headers, rows, |rows|);
  }

  // The re-keyed rows

  /** A header is renamed to the last field it is mapped to, if to any. */
  lemma RenamedIs(m: Mapping, raw: string, n: nat)
    requires n < |FIELDS|
    ensures (forall f | f in m :: m[f] != raw) ==> Renamed(m, raw) == raw
    ensures FIELDS[n] in m && m[FIELDS[n]] == raw
         && (forall k | n < k < |FIELDS| && FIELDS[k] in m :: m[FIELDS[k]] != raw)
         ==> Renamed(m, raw) == FieldName(FIELDS[n])
  {
    assert FIELDS[3] == Yoe && FIELDS[4] == Location && FIELDS[2] == ResumeUrl && FIELDS[1] == Email;
  }

  /** The last of the first `n` entries that is renamed to `key`. */
  ghost predicate LastRenamed(m: Mapping, d: Dict, n: nat, key: string, value: Option<string>)
    requires n <= |d|
  {
    && (value.None? ==> forall j | 0 <= j < n :: Renamed(m, d[j].0) != key)
    && (value.Some? ==> exists j :: 0 <= j < n && Renamed(m, d[j].0) == key && value.value == d[j].1
                                && forall i | j < i < n :: Renamed(m, d[i].0) != key)
  }

  lemma LastRenamedStep(m: Mapping, d: Dict, n: nat, key: string, value: Option<string>)
    requires 0 < n <= |d| && LastRenamed(m, d, n - 1, key, value)
    ensures LastRenamed(m, d, n, key, if Renamed(m, d[n - 1].0) == key then Some(d[n - 1].1) else value)
  {
    hide Renamed;
  }

  /** Re-keying keeps, of the entries renamed to one key, the last. */
  lemma {:induction false} RekeyedReads(m: Mapping, d: Dict, n: nat, key: string)
    requires n <= |d|
    ensures LastRenamed(m, d, n, key, Get(Rekeyed(m, d, n), key))
  {
    if n > 0 {
      hide Renamed, LastRenamed;
      RekeyedReads(m, d, n - 1, key);
      LastRenamedStep(m, d, n, key, Get(Rekeyed(m, d, n - 1), key));
      PutGet(Rekeyed(m, d, n - 1), Renamed(m, d[n - 1].0), d[n - 1].1, key);
    }
  }

  // The detected mapping

  lemma {:induction false} FirstHintedIs(t: Tables, f: Field, headers: seq<string>, claimed: set<string>, i: nat)
    requires i <= |headers|
    ensures FirstHinted(t, f, headers, claimed, i).None? ==>
      forall j | i <= j < |headers| :: headers[j] in claimed || !Hints(t, f, headers[j])
    ensures FirstHinted(t, f, headers, claimed, i).Some? ==> exists j ::
      && i <= j < |headers| && headers[j] == FirstHinted(t, f, headers, claimed, i).value
      && headers[j] !in claimed && Hints(t, f, headers[j])
      && forall k | i <= k < j :: headers[k] in claimed || !Hints(t, f, headers[k])
    decreases |headers| - i
  {
    if i < |headers| && (headers[i] in claimed || !Hints(t, f, headers[i])) {
      FirstHintedIs(t, f, headers, claimed, i + 1);
    }
  }

  predicate HasAlias(t: Tables, headers: seq<string>, f: Field) {
    exists i | 0 <= i < |headers| :: Names(t, headers[i], f)
  }

  /** A hint is a keyword of the field anywhere in the header, whitespace around it and case aside. */
  lemma HintsIff(t: Tables, f: Field, header: string)
    ensures Hints(t, f, header) <==>
            exists kw, a: string, b: string :: kw in t.keywords(f) && Matching.Around(a, kw, b, t.lower(Strip(header)))
  {
    var text := t.lower(Strip(header));
    if Hints(t, f, header) {
      var kw :| kw in t.keywords(f) && Matching.Contains(text, kw);
      Matching.ContainsIff(text, kw);
    }
    if kw, a: string, b: string :| kw in t.keywords(f) && Matching.Around(a, kw, b, text) {
      Matching.ContainsIff(text, kw);
    }
  }

  lemma ExactDomain(t: Tables, headers: seq<string>, f: Field)
    ensures f in ExactMatches(t, headers, |headers|) <==> HasAlias(t, headers, f)
  {
    if HasAlias(t, headers, f) {
      FirstAliasExists(t, headers, f, |headers|);
    } else {
      NotYetMatched(t, headers, |headers|, f);
    }
  }

  lemma {:induction false} FirstAliasExists(t: Tables, headers: seq<string>, f: Field, n: nat)
    requires n <= |headers| && exists i | 0 <= i < n :: Names(t, headers[i], f)
    ensures f in ExactMatches(t, headers, |headers|)
  {
    if exists i | 0 <= i < n - 1 :: Names(t, headers[i], f) {
      FirstAliasExists(t, headers, f, n - 1);
    } else {
      assert FirstAlias(t, headers, |headers|, f, n - 1);
      ExactTakesFirst(t, headers, |headers|, f, n - 1);
    }
  }

  /** Between two turns of the second pass fields are only added, and only those whose turn it was. */
  lemma {:induction false} HintedGrows(t: Tables, m: Mapping, headers: seq<string>, n: nat, k: nat)
    requires n <= k <= |FIELDS|
    ensures forall f | f in Hinted(t, m, headers, n) ::
      f in Hinted(t, m, headers, k) && Hinted(t, m, headers, k)[f] == Hinted(t, m, headers, n)[f]
    ensures forall f | f in Hinted(t, m, headers, k) && f !in Hinted(t, m, headers, n) :: f in FIELDS[n..k]
  {
    if n < k {
      HintedGrows(t, m, headers, n, k - 1);
      assert FIELDS[n..k] == FIELDS[n..k - 1] + [FIELDS[k - 1]];
    }
  }

  /** The header goes to a field with an exact alias, or to one that has its turn before field `n`. */
  predicate Taken(t: Tables, headers: seq<string>, m: Mapping, n: nat, header: string)
    requires n <= |FIELDS|
  {
    exists f :: f in m && m[f] == header && (HasAlias(t, headers, f) || f in FIELDS[..n])
  }

  lemma TurnsDiffer(n: nat, f: Field)
    requires n <= |FIELDS| && f in FIELDS[n..|FIELDS|]
    ensures f !in FIELDS[..n]
  {
    assert Distinct(FIELDS);
  }

  lemma MappedBefore(t: Tables, headers: seq<string>, n: nat, f: Field)
    requires n <= |FIELDS| && f in DetectedMapping(t, headers)
    ensures
      var before := Hinted(t, ExactMatches(t, headers, |headers|), headers, n);
      && (f in before <==> HasAlias(t, headers, f) || f in FIELDS[..n])
      && (f in before ==> before[f] == DetectedMapping(t, headers)[f])
  {
    hide HasAlias, Hinted, ExactMatches;
    var e := ExactMatches(t, headers, |headers|);
    HintedGrows(t, e, headers, n, |FIELDS|);
    HintedStarts(t, e, headers);
    HintedGrows(t, e, headers, 0, n);
    assert FIELDS[0..n] == FIELDS[..n];
    ExactDomain(t, headers, f);
    if f !in Hinted(t, e, headers, n) {
      TurnsDiffer(n, f);
    }
  }

  lemma TakenIsClaimed(t: Tables, headers: seq<string>, n: nat, header: string)
    requires n <= |FIELDS|
    ensures Taken(t, headers, DetectedMapping(t, headers), n, header) <==>
            header in Hinted(t, ExactMatches(t, headers, |headers|), headers, n).Values
  {
    hide HasAlias, Hinted, ExactMatches;
    var e := ExactMatches(t, headers, |headers|);
    var before, m := Hinted(t, e, headers, n), DetectedMapping(t, headers);
    HintedGrows(t, e, headers, n, |FIELDS|);
    forall f | f in m
      ensures f in before <==> HasAlias(t, headers, f) || f in FIELDS[..n]
      ensures f in before ==> before[f] == m[f]
    {
      MappedBefore(t, headers, n, f);
    }
    assert header in before.Values <==> exists f :: f in before && before[f] == header;
  }

  lemma HintedStarts(t: Tables, m: Mapping, headers: seq<string>)
    ensures Hinted(t, m, headers, 0) == m
  {
  }

  /**
    A field without an exact alias gets the first header that hints at it and is neither an exact match nor
    given to a field before it; it gets none exactly when there is no such header.
   */
  lemma HintsFillTheRest(t: Tables, headers: seq<string>, n: nat)
    requires n < |FIELDS| && !HasAlias(t, headers, FIELDS[n])
    ensures
      var m, f := DetectedMapping(t, headers), FIELDS[n];
      && (f !in m ==> forall j | 0 <= j < |headers| :: Taken(t, headers, m, n, headers[j]) || !Hints(t, f, headers[j]))
      && (f in m ==> exists j ::
            && 0 <= j < |headers| && headers[j] == m[f]
            && !Taken(t, headers, m, n, headers[j]) && Hints(t, f, headers[j])
            && forall k | 0 <= k < j :: Taken(t, headers, m, n, headers[k]) || !Hints(t, f, headers[k]))
  {
    hide HasAlias, Taken, Hints, ExactMatches;
    var e, f := ExactMatches(t, headers, |headers|), FIELDS[n];
    var before := Hinted(t, e, headers, n);
    forall j | 0 <= j < |headers|
      ensures Taken(t, headers, DetectedMapping(t, headers), n, headers[j]) <==> headers[j] in before.Values
    {
      TakenIsClaimed(t, headers, n, headers[j]);
    }
    ExactDomain(t, headers, f);
    HintedStarts(t, e, headers);
    HintedGrows(t, e, headers, 0, n);
    HintedGrows(t, e, headers, n + 1, |FIELDS|);
    assert Distinct(FIELDS);
    FirstHintedIs(t, f, headers, before.Values, 0);
  }
}
