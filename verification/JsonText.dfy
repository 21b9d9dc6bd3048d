/**
  The text `json.dumps(value, sort_keys=True)` writes (RFC 8259 sections 4, 5, 6 and 7), the
  equality of values, on which the cache key rests: the text determines the value, and no object text
  is a proper suffix of another.
 */
module JsonText {

  /** A JSON-able Python value. A dict keeps its insertion order; a number is the literal Python prints for it. */
  datatype Json =
    | Null
    | Bool(flag: bool)
    | Num(literal: string)
    | Str(text: string)
    | Arr(items: seq<Json>)
    | Obj(fields: seq<Field>)

  datatype Field = Field(key: string, value: Json)

  predicate DistinctKeys(fs: seq<Field>) {
    forall i, j | 0 <= i < j < |fs| :: fs[i].key != fs[j].key
  }

  /** Characters Python uses to print ints and floats, `NaN` and `Infinity` included. */
  predicate NumberChar(c: char) {
    '0' <= c <= '9' || c == '+' || c == '-' || c == '.' || c == 'e' || c == 'E'
    || c == 'N' || c == 'a' || c == 'I' || c == 'n' || c == 'f' || c == 'i' || c == 't' || c == 'y'
  }

  predicate NumberStart(c: char) {
    '0' <= c <= '9' || c == '-' || c == 'I' || c == 'N'
  }

  predicate IsNumber(x: string) {
    && 0 < |x|
    && NumberStart(x[0])
    && forall i | 0 <= i < |x| :: NumberChar(x[i])
  }

  predicate WellFormed(v: Json) {
    match v
    case Num(x) => IsNumber(x)
    case Arr(xs) => forall i | 0 <= i < |xs| :: WellFormed(xs[i])
    case Obj(fs) => DistinctKeys(fs) && forall i | 0 <= i < |fs| :: WellFormed(fs[i].value)
    case _ => true
  }

  /**
    Equality of values: dicts are compared key by key, without regard to insertion order, and numbers
    as Python prints them. Python's `==` is coarser on numbers: it identifies `1`, `1.0` and `True`.
   */
  ghost predicate Equal(v: Json, w: Json) {
    match v
    case Arr(xs) =>
      w.Arr? && |xs| == |w.items| && forall i | 0 <= i < |xs| :: Equal(xs[i], w.items[i])
    case Obj(fs) =>
      w.Obj? && |fs| == |w.fields| && forall f | f in fs :: exists g | g in w.fields :: Matches(f, g)
    case _ => v == w
  }

  ghost predicate Matches(f: Field, g: Field) {
    f.key == g.key && Equal(f.value, g.value)
  }

  // ---- Strings (RFC 8259 section 7, with Python's default ensure_ascii) ----

  function HexDigit(n: int): char
    requires 0 <= n < 16
  {
    if n < 10 then (48 + n) as char else (87 + n) as char
  }

  function UnicodeEscape(n: int): string
    requires 0 <= n < 0x1_0000
  {
    ['\\', 'u', HexDigit(n / 4096), HexDigit(n / 256 % 16), HexDigit(n / 16 % 16), HexDigit(n % 16)]
  }

  /** The characters written as a backslash and one letter. */
  predicate HasShortEscape(c: char) {
    c == '\"' || c == '\\' || c == '\n' || c == '\r' || c == '\t' || c == 8 as char || c == 12 as char
  }

  function ShortEscapeLetter(c: char): char
    requires HasShortEscape(c)
  {
    if c == '\n' then 'n' else if c == '\r' then 'r' else if c == '\t' then 't'
    else if c == 8 as char then 'b' else if c == 12 as char then 'f' else c
  }

  function Escape(c: char): string {
    if HasShortEscape(c) then ['\\', ShortEscapeLetter(c)]
    else if ' ' <= c <= '~' then [c]
    else if c as int < 0x1_0000 then UnicodeEscape(c as int)
    else
      var n := c as int - 0x1_0000;
      UnicodeEscape(0xD800 + n / 1024) + UnicodeEscape(0xDC00 + n % 1024)
  }

  function EscapeAll(s: string): string {
    if s == "" then "" else Escape(s[0]) + EscapeAll(s[1..])
  }

  function Quote(s: string): string {
    "\"" + EscapeAll(s) + "\""
  }

  // ---- Sorting the members of an object by key ----

  datatype Member = Member(key: string, text: string)

  /** Python's order on strings: by code point, a proper prefix first. */
  predicate Before(a: string, b: string) {
    if b == "" then false
    else if a == "" then true
    else if a[0] != b[0] then a[0] < b[0]
    else Before(a[1..], b[1..])
  }

  function Insert(m: Member, ms: seq<Member>): seq<Member> {
    if ms == [] || Before(m.key, ms[0].key) then [m] + ms else [ms[0]] + Insert(m, ms[1..])
  }

  function SortByKey(ms: seq<Member>): seq<Member> {
    if ms == [] then [] else Insert(ms[0], SortByKey(ms[1..]))
  }

  lemma {:induction false} InsertKeeps(m: Member, ms: seq<Member>)
    ensures |Insert(m, ms)| == |ms| + 1
    ensures forall x :: x in Insert(m, ms) <==> x == m || x in ms
  {
    if ms == [] || Before(m.key, ms[0].key) {
    } else {
      InsertKeeps(m, ms[1..]);
      assert ms == [ms[0]] + ms[1..];
    }
  }

  lemma {:induction false} SortKeeps(ms: seq<Member>)
    ensures |SortByKey(ms)| == |ms|
    ensures forall x :: x in SortByKey(ms) <==> x in ms
  {
    if ms != [] {
      SortKeeps(ms[1..]);
      InsertKeeps(ms[0], SortByKey(ms[1..]));
      assert ms == [ms[0]] + ms[1..];
    }
  }

  // ---- Values ----

  function Tail(ts: seq<string>): string {
    if ts == [] then "" else ", " + ts[0] + Tail(ts[1..])
  }

  /** The texts separated by `", "`. */
  function Join(ts: seq<string>): string {
    if ts == [] then "" else ts[0] + Tail(ts[1..])
  }

  function MemberText(m: Member): string {
    Quote(m.key) + ": " + m.text
  }

  function MemberTexts(ms: seq<Member>): seq<string> {
    seq(|ms|, i requires 0 <= i < |ms| => MemberText(ms[i]))
  }

  function Dumps(v: Json): string {
    match v
    case Null => "null"
    case Bool(b) => if b then "true" else "false"
    case Num(x) => x
    case Str(s) => Quote(s)
    case Arr(xs) => "[" + Join(seq(|xs|, i requires 0 <= i < |xs| => Dumps(xs[i]))) + "]"
    case Obj(fs) =>
      var ms := seq(|fs|, i requires 0 <= i < |fs| => Member(fs[i].key, Dumps(fs[i].value)));
      "{" + Join(MemberTexts(SortByKey(ms))) + "}"
  }

  function Items(xs: seq<Json>): seq<string> {
    seq(|xs|, i requires 0 <= i < |xs| => Dumps(xs[i]))
  }

  function Members(fs: seq<Field>): seq<Member> {
    seq(|fs|, i requires 0 <= i < |fs| => Member(fs[i].key, Dumps(fs[i].value)))
  }

  lemma DumpsArr(xs: seq<Json>)
    ensures Dumps(Arr(xs)) == "[" + Join(Items(xs)) + "]"
  {
    assert Items(xs) == seq(|xs|, i requires 0 <= i < |xs| => Dumps(xs[i]));
  }

  lemma DumpsObj(fs: seq<Field>)
    ensures Dumps(Obj(fs)) == "{" + Join(MemberTexts(SortByKey(Members(fs)))) + "}"
  {
    assert Members(fs) == seq(|fs|, i requires 0 <= i < |fs| => Member(fs[i].key, Dumps(fs[i].value)));
  }
}
