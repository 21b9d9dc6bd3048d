/**
  Reading JSON text back: a value's text followed by anything that ends a value can be split in
  one way only, and equal texts come from equal values (and the other way round).
 */
module JsonDecoding {
  import opened JsonText

  /** What may follow a value: nothing, a comma or a closing bracket. */
  predicate EndsValue(x: string) {
    x == "" || x[0] == ',' || x[0] == ']' || x[0] == '}'
  }

  lemma Assoc(a: string, b: string, c: string)
    ensures a + b + c == a + (b + c)
  {
  }

  lemma Cancel(p: string, a: string, q: string, b: string)
    requires |p| == |q| && p + a == q + b
    ensures p == q && a == b
  {
    assert (p + a)[..|p|] == p && (q + b)[..|q|] == q;
    assert (p + a)[|p|..] == a && (q + b)[|q|..] == b;
  }

  lemma HexDigitInjective(m: int, n: int)
    requires 0 <= m < 16 && 0 <= n < 16 && HexDigit(m) == HexDigit(n)
    ensures m == n
  {
  }

  lemma FourDigits(n: int)
    requires 0 <= n < 0x1_0000
    ensures n == 4096 * (n / 4096) + 256 * (n / 256 % 16) + 16 * (n / 16 % 16) + n % 16
  {
    assert n == 16 * (n / 16) + n % 16;
    assert n / 16 == 16 * (n / 256) + n / 16 % 16;
    assert n / 256 == 16 * (n / 4096) + n / 256 % 16;
  }

  lemma UnicodeEscapeInjective(m: int, n: int, x: string, y: string)
    requires 0 <= m < 0x1_0000 && 0 <= n < 0x1_0000
    requires UnicodeEscape(m) + x == UnicodeEscape(n) + y
    ensures m == n && x == y
  {
    var e, f := UnicodeEscape(m), UnicodeEscape(n);
    Cancel(e, x, f, y);
    HexDigitInjective(m / 4096, n / 4096) by { assert e[2] == f[2]; }
    HexDigitInjective(m / 256 % 16, n / 256 % 16) by { assert e[3] == f[3]; }
    HexDigitInjective(m / 16 % 16, n / 16 % 16) by { assert e[4] == f[4]; }
    HexDigitInjective(m % 16, n % 16) by { assert e[5] == f[5]; }
    FourDigits(m);
    FourDigits(n);
  }

  /** The letter after the backslash tells the kinds of escape apart. */
  lemma EscapeHead(c: char)
    ensures |Escape(c)| >= 1
    ensures HasShortEscape(c) ==> |Escape(c)| == 2 && Escape(c)[0] == '\\' && Escape(c)[1] != 'u'
    ensures !HasShortEscape(c) && ' ' <= c <= '~' ==> Escape(c) == [c] && c != '\\' && c != '\"'
    ensures !HasShortEscape(c) && !(' ' <= c <= '~') ==> |Escape(c)| >= 6 && Escape(c)[0] == '\\' && Escape(c)[1] == 'u'
  {
  }

  lemma EscapeInjective(c: char, d: char, x: string, y: string)
    requires Escape(c) + x == Escape(d) + y
    ensures c == d && x == y
  {
    EscapeHead(c);
    EscapeHead(d);
    var l, r := Escape(c) + x, Escape(d) + y;
    assert l[0] == Escape(c)[0] && r[0] == Escape(d)[0];
    if HasShortEscape(c) || (' ' <= c <= '~') || HasShortEscape(d) || (' ' <= d <= '~') {
      assert |Escape(c)| >= 2 ==> l[1] == Escape(c)[1];
      assert |Escape(d)| >= 2 ==> r[1] == Escape(d)[1];
      assert c == d;
    } else {
      WideEscapeInjective(c, d, x, y);
    }
    assert x == l[|Escape(c)|..] && y == r[|Escape(d)|..];
  }

  /** Outside ASCII: a character above U+FFFF starts with a high surrogate, which no character is. */
  lemma WideEscapeInjective(c: char, d: char, x: string, y: string)
    requires !HasShortEscape(c) && !(' ' <= c <= '~') && !HasShortEscape(d) && !(' ' <= d <= '~')
    requires Escape(c) + x == Escape(d) + y
    ensures c == d
  {
    var c0, x0 := FirstUnit(c, x);
    var d0, y0 := FirstUnit(d, y);
    UnicodeEscapeInjective(c0, d0, x0, y0);
    if c as int >= 0x1_0000 {
      UnicodeEscapeInjective(0xDC00 + (c as int - 0x1_0000) % 1024, 0xDC00 + (d as int - 0x1_0000) % 1024, x, y);
    }
  }

  /** The first UTF-16 unit of a character outside ASCII, and the text after its escape. */
  lemma FirstUnit(c: char, x: string) returns (unit: int, rest: string)
    requires !HasShortEscape(c) && !(' ' <= c <= '~')
    ensures 0 <= unit < 0x1_0000 && Escape(c) + x == UnicodeEscape(unit) + rest
    ensures c as int < 0x1_0000 ==> unit == c as int && rest == x && !(0xD800 <= unit < 0xE000)
    ensures c as int >= 0x1_0000 ==>
      && unit == 0xD800 + (c as int - 0x1_0000) / 1024 && unit < 0xDC00
      && rest == UnicodeEscape(0xDC00 + (c as int - 0x1_0000) % 1024) + x
  {
    if c as int < 0x1_0000 {
      unit, rest := c as int, x;
    } else {
      var n := c as int - 0x1_0000;
      unit, rest := 0xD800 + n / 1024, UnicodeEscape(0xDC00 + n % 1024) + x;
    }
  }

  lemma EscapeAllHead(s: string, x: string)
    requires x != "" && x[0] == '\"'
    ensures EscapeAll(s) + x != "" && ((EscapeAll(s) + x)[0] == '\"' <==> s == "")
  {
    if s != "" {
      EscapeHead(s[0]);
      Assoc(Escape(s[0]), EscapeAll(s[1..]), x);
    }
  }

  lemma {:induction false} EscapeAllDecodes(s: string, t: string, x: string, y: string)
    requires x != "" && x[0] == '\"' && y != "" && y[0] == '\"'
    requires EscapeAll(s) + x == EscapeAll(t) + y
    ensures s == t && x == y
  {
    EscapeAllHead(s, x);
    EscapeAllHead(t, y);
    if s == "" {
      Cancel("", x, "", y);
    } else {
      Assoc(Escape(s[0]), EscapeAll(s[1..]), x);
      Assoc(Escape(t[0]), EscapeAll(t[1..]), y);
      EscapeInjective(s[0], t[0], EscapeAll(s[1..]) + x, EscapeAll(t[1..]) + y);
      EscapeAllDecodes(s[1..], t[1..], x, y);
      assert s == [s[0]] + s[1..] && t == [t[0]] + t[1..];
    }
  }

  lemma QuoteThen(s: string, x: string)
    ensures Quote(s) + x == "\"" + (EscapeAll(s) + ("\"" + x))
  {
    Assoc("\"" + EscapeAll(s), "\"", x);
    Assoc("\"", EscapeAll(s), "\"" + x);
  }

  lemma QuoteDecodes(s: string, t: string, x: string, y: string)
    requires Quote(s) + x == Quote(t) + y
    ensures s == t && x == y
  {
    QuoteThen(s, x);
    QuoteThen(t, y);
    Cancel("\"", EscapeAll(s) + ("\"" + x), "\"", EscapeAll(t) + ("\"" + y));
    EscapeAllDecodes(s, t, "\"" + x, "\"" + y);
    Cancel("\"", x, "\"", y);
  }

  lemma NumberDecodes(a: string, b: string, x: string, y: string)
    requires IsNumber(a) && IsNumber(b) && EndsValue(x) && EndsValue(y)
    requires a + x == b + y
    ensures a == b && x == y
  {
    NotLonger(a, b, x, y);
    NotLonger(b, a, y, x);
    Cancel(a, x, b, y);
  }

  lemma NotLonger(a: string, b: string, x: string, y: string)
    requires IsNumber(b) && EndsValue(x) && a + x == b + y
    ensures |b| <= |a|
  {
    if |a| < |b| {
      Overhang(a, b, x, y);
    }
  }

  lemma Overhang(a: string, b: string, x: string, y: string)
    requires |a| < |b| && a + x == b + y
    ensures x != "" && x[0] == b[|a|]
  {
    assert |a + x| == |b + y|;
    assert (a + x)[|a|] == (b + y)[|a|];
  }

  /** The first character of a text tells what kind of value it is. */
  predicate HeadFits(v: Json, c: char) {
    match v
    case Null => c == 'n'
    case Bool(b) => c == (if b then 't' else 'f')
    case Num(_) => NumberStart(c)
    case Str(_) => c == '\"'
    case Arr(_) => c == '['
    case Obj(_) => c == '{'
  }

  lemma DumpsHead(v: Json)
    requires WellFormed(v)
    ensures Dumps(v) != "" && HeadFits(v, Dumps(v)[0])
  {
  }

  /**
    A value text followed by the end of a value can be read in one way only, and the value read
    is determined up to Python equality.
   */
  lemma {:induction false} Decodes(v: Json, w: Json, x: string, y: string)
    requires WellFormed(v) && WellFormed(w) && EndsValue(x) && EndsValue(y)
    requires Dumps(v) + x == Dumps(w) + y
    ensures Dumps(v) == Dumps(w) && x == y && Equal(v, w)
    decreases v, 2
  {
    DumpsHead(v);
    DumpsHead(w);
    assert (Dumps(v) + x)[0] == Dumps(v)[0] && (Dumps(w) + y)[0] == Dumps(w)[0];
    match v {
      case Arr(xs) => ArrDecodes(xs, w.items, x, y);
      case Obj(fs) => ObjDecodes(fs, w.fields, x, y);
      case Num(a) => NumberDecodes(a, w.literal, x, y);
      case Str(s) => QuoteDecodes(s, w.text, x, y);
      case _ =>
        assert v == w;
        assert x == (Dumps(v) + x)[|Dumps(v)|..] && y == (Dumps(w) + y)[|Dumps(w)|..];
    }
  }

  /** `Tail(ts)` followed by `close`, nested to the right. */
  function TailThen(ts: seq<string>, close: string): string {
    if ts == [] then close else ", " + (ts[0] + TailThen(ts[1..], close))
  }

  lemma {:induction false} TailThenIs(ts: seq<string>, close: string)
    ensures Tail(ts) + close == TailThen(ts, close)
  {
    if ts == [] {
      assert "" + close == close;
    } else {
      TailThenIs(ts[1..], close);
      Assoc(", " + ts[0], Tail(ts[1..]), close);
      Assoc(", ", ts[0], Tail(ts[1..]) + close);
    }
  }

  /** The inside of a bracketed list and what follows it, nested to the right. */
  function Inside(ts: seq<string>, close: string): string {
    if ts == [] then close else ts[0] + TailThen(ts[1..], close)
  }

  lemma BracketThen(open: string, ts: seq<string>, close: string, x: string)
    ensures open + Join(ts) + close + x == open + Inside(ts, close + x)
  {
    Assoc(open + Join(ts), close, x);
    Assoc(open, Join(ts), close + x);
    if ts == [] {
      assert "" + (close + x) == close + x;
    } else {
      Assoc(ts[0], Tail(ts[1..]), close + x);
      TailThenIs(ts[1..], close + x);
    }
  }

  lemma InsideHead(ts: seq<string>, close: string)
    requires close != "" && (ts != [] ==> ts[0] != "")
    ensures Inside(ts, close) != "" && Inside(ts, close)[0] == if ts == [] then close[0] else ts[0][0]
  {
  }

  lemma TailThenEnds(ts: seq<string>, close: string)
    requires close != "" && EndsValue(close)
    ensures TailThen(ts, close) != "" && EndsValue(TailThen(ts, close))
    ensures TailThen(ts, close)[0] == if ts == [] then close[0] else ','
  {
  }

  lemma {:induction false} ArrDecodes(xs: seq<Json>, ys: seq<Json>, x: string, y: string)
    requires WellFormed(Arr(xs)) && WellFormed(Arr(ys))
    requires Dumps(Arr(xs)) + x == Dumps(Arr(ys)) + y
    ensures Equal(Arr(xs), Arr(ys)) && Dumps(Arr(xs)) == Dumps(Arr(ys)) && x == y
    decreases Arr(xs), 1
  {
    DumpsArr(xs);
    DumpsArr(ys);
    BracketThen("[", Items(xs), "]", x);
    BracketThen("[", Items(ys), "]", y);
    Cancel("[", Inside(Items(xs), "]" + x), "[", Inside(Items(ys), "]" + y));
    ItemsHead(xs, "]" + x);
    ItemsHead(ys, "]" + y);
    if xs == [] {
      Cancel("]", x, "]", y);
    } else {
      FirstThenItems(xs, ys, x, y);
    }
  }

  lemma {:induction false} FirstThenItems(xs: seq<Json>, ys: seq<Json>, x: string, y: string)
    requires WellFormed(Arr(xs)) && WellFormed(Arr(ys)) && xs != [] && ys != []
    requires Dumps(xs[0]) + TailThen(Items(xs)[1..], "]" + x) == Dumps(ys[0]) + TailThen(Items(ys)[1..], "]" + y)
    ensures Items(xs) == Items(ys) && x == y && Equal(Arr(xs), Arr(ys))
    decreases xs, 1
  {
    var l, r := TailThen(Items(xs)[1..], "]" + x), TailThen(Items(ys)[1..], "]" + y);
    TailThenEnds(Items(xs)[1..], "]" + x);
    TailThenEnds(Items(ys)[1..], "]" + y);
    Decodes(xs[0], ys[0], l, r);
    ItemsOfRest(xs);
    ItemsOfRest(ys);
    ItemsDecode(xs[1..], ys[1..], x, y);
    ConsEqual(xs, ys);
  }

  lemma ConsEqual(xs: seq<Json>, ys: seq<Json>)
    requires xs != [] && ys != [] && Equal(xs[0], ys[0]) && Equal(Arr(xs[1..]), Arr(ys[1..]))
    ensures Equal(Arr(xs), Arr(ys))
  {
    forall i | 0 <= i < |xs| ensures Equal(xs[i], ys[i]) {
      if i > 0 {
        assert Equal(xs[1..][i - 1], ys[1..][i - 1]);
      }
    }
  }

  lemma ItemsOfRest(xs: seq<Json>)
    requires xs != []
    ensures Items(xs)[1..] == Items(xs[1..]) && Items(xs) == [Dumps(xs[0])] + Items(xs[1..])
  {
  }

  lemma {:induction false} ItemsDecode(xs: seq<Json>, ys: seq<Json>, x: string, y: string)
    requires WellFormed(Arr(xs)) && WellFormed(Arr(ys))
    requires TailThen(Items(xs), "]" + x) == TailThen(Items(ys), "]" + y)
    ensures Items(xs) == Items(ys) && x == y && Equal(Arr(xs), Arr(ys))
    decreases xs, 2
  {
    TailThenEnds(Items(xs), "]" + x);
    TailThenEnds(Items(ys), "]" + y);
    if xs == [] {
      Cancel("]", x, "]", y);
    } else {
      var l, r := TailThen(Items(xs)[1..], "]" + x), TailThen(Items(ys)[1..], "]" + y);
      Cancel(", ", Items(xs)[0] + l, ", ", Items(ys)[0] + r);
      FirstThenItems(xs, ys, x, y);
    }
  }

  lemma ItemsHead(xs: seq<Json>, close: string)
    requires WellFormed(Arr(xs)) && close != "" && close[0] == ']'
    ensures Inside(Items(xs), close) != "" && (Inside(Items(xs), close)[0] == ']' <==> xs == [])
  {
    if xs != [] {
      DumpsHead(xs[0]);
    }
    InsideHead(Items(xs), close);
  }

  lemma {:induction false} ObjDecodes(fs: seq<Field>, gs: seq<Field>, x: string, y: string)
    requires WellFormed(Obj(fs)) && WellFormed(Obj(gs))
    requires Dumps(Obj(fs)) + x == Dumps(Obj(gs)) + y
    ensures Equal(Obj(fs), Obj(gs)) && Dumps(Obj(fs)) == Dumps(Obj(gs)) && x == y
    decreases Obj(fs), 1
  {
    var ms, ns := SortByKey(Members(fs)), SortByKey(Members(gs));
    SortKeeps(Members(fs));
    SortKeeps(Members(gs));
    DumpsObj(fs);
    DumpsObj(gs);
    BracketThen("{", MemberTexts(ms), "}", x);
    BracketThen("{", MemberTexts(ns), "}", y);
    SortedDecode(fs, ms, gs, ns, x, y);
    SameMembersEqual(fs, gs);
  }

  lemma {:induction false} SortedDecode(fs: seq<Field>, ms: seq<Member>, gs: seq<Field>, ns: seq<Member>, x: string,
        y: string)
    requires WellFormed(Obj(fs)) && WellFormed(Obj(gs))
    requires (forall m | m in ms :: m in Members(fs)) && (forall n | n in ns :: n in Members(gs))
    requires "{" + Inside(MemberTexts(ms), "}" + x) == "{" + Inside(MemberTexts(ns), "}" + y)
    ensures ms == ns && x == y
    decreases fs, 2, 0
  {
    var ts, us := MemberTexts(ms), MemberTexts(ns);
    Cancel("{", Inside(ts, "}" + x), "{", Inside(us, "}" + y));
    MembersHead(ms, "}" + x);
    MembersHead(ns, "}" + y);
    if ms == [] {
      Cancel("}", x, "}", y);
    } else {
      assert ts[1..] == MemberTexts(ms[1..]) && us[1..] == MemberTexts(ns[1..]);
      TailThenEnds(ts[1..], "}" + x);
      TailThenEnds(us[1..], "}" + y);
      MemberDecodes(fs, ms[0], gs, ns[0], TailThen(ts[1..], "}" + x), TailThen(us[1..], "}" + y));
      MembersDecode(fs, ms[1..], gs, ns[1..], x, y);
      assert ms == [ms[0]] + ms[1..] && ns == [ns[0]] + ns[1..];
    }
  }

  lemma MembersHead(ms: seq<Member>, close: string)
    requires close != "" && close[0] == '}'
    ensures Inside(MemberTexts(ms), close) != "" && (Inside(MemberTexts(ms), close)[0] == '}' <==> ms == [])
  {
    if ms != [] {
      MemberTextThen(ms[0], "");
      assert MemberText(ms[0]) + "" == MemberText(ms[0]);
    }
    InsideHead(MemberTexts(ms), close);
  }

  lemma MemberTextThen(m: Member, x: string)
    ensures MemberText(m) + x == Quote(m.key) + (": " + (m.text + x))
  {
    Assoc(Quote(m.key) + ": ", m.text, x);
    Assoc(Quote(m.key), ": ", m.text + x);
  }

  lemma {:induction false} MemberDecodes(fs: seq<Field>, m: Member, gs: seq<Field>, n: Member, x: string, y: string)
    requires WellFormed(Obj(fs)) && WellFormed(Obj(gs)) && m in Members(fs) && n in Members(gs)
    requires EndsValue(x) && EndsValue(y) && MemberText(m) + x == MemberText(n) + y
    ensures m == n && x == y
    decreases fs, 0
  {
    MemberTextThen(m, x);
    MemberTextThen(n, y);
    QuoteDecodes(m.key, n.key, ": " + (m.text + x), ": " + (n.text + y));
    Cancel(": ", m.text + x, ": ", n.text + y);
    var i :| 0 <= i < |fs| && Members(fs)[i] == m;
    var j :| 0 <= j < |gs| && Members(gs)[j] == n;
    Decodes(fs[i].value, gs[j].value, x, y);
  }

  lemma {:induction false} MembersDecode(fs: seq<Field>, ms: seq<Member>, gs: seq<Field>, ns: seq<Member>, x: string,
        y: string)
    requires WellFormed(Obj(fs)) && WellFormed(Obj(gs))
    requires (forall m | m in ms :: m in Members(fs)) && (forall n | n in ns :: n in Members(gs))
    requires TailThen(MemberTexts(ms), "}" + x) == TailThen(MemberTexts(ns), "}" + y)
    ensures ms == ns && x == y
    decreases fs, 1, |ms|
  {
    var ts, us := MemberTexts(ms), MemberTexts(ns);
    TailThenEnds(ts, "}" + x);
    TailThenEnds(us, "}" + y);
    if ms == [] {
      Cancel("}", x, "}", y);
    } else {
      var l, r := TailThen(ts[1..], "}" + x), TailThen(us[1..], "}" + y);
      assert ts[1..] == MemberTexts(ms[1..]) && us[1..] == MemberTexts(ns[1..]);
      Cancel(", ", ts[0] + l, ", ", us[0] + r);
      TailThenEnds(ts[1..], "}" + x);
      TailThenEnds(us[1..], "}" + y);
      assert ms[0] in ms && ns[0] in ns;
      MemberDecodes(fs, ms[0], gs, ns[0], l, r);
      MembersDecode(fs, ms[1..], gs, ns[1..], x, y);
      assert ms == [ms[0]] + ms[1..] && ns == [ns[0]] + ns[1..];
    }
  }

  lemma {:induction false} SameMembersEqual(fs: seq<Field>, gs: seq<Field>)
    requires WellFormed(Obj(fs)) && WellFormed(Obj(gs))
    requires |fs| == |gs| && forall m | m in Members(fs) :: m in Members(gs)
    ensures Equal(Obj(fs), Obj(gs))
    decreases fs, 1, 0
  {
    forall f | f in fs
      ensures exists g | g in gs :: Matches(f, g)
    {
      var i :| 0 <= i < |fs| && fs[i] == f;
      assert Members(fs)[i] in Members(gs);
      var j :| 0 <= j < |gs| && Members(gs)[j] == Members(fs)[i];
      Decodes(fs[i].value, gs[j].value, "", "");
      assert gs[j] in gs && Matches(f, gs[j]);
    }
  }
}
