/**
  A lexer over JSON text that only tells strings from structure, and the suffix theorem it
  yields: an object text is never a proper suffix of an object text.
 */
module JsonLexing {
  import opened JsonText

  /** Out of any string, inside a string, or just after a backslash inside a string; `depth` counts open braces. */
  datatype Lexer = Out(depth: nat) | In(depth: nat) | Escaped(depth: nat) | Bad

  function Step(s: Lexer, c: char): Lexer {
    match s
    case Bad => Bad
    case Escaped(d) => In(d)
    case In(d) => if c == '\"' then Out(d) else if c == '\\' then Escaped(d) else In(d)
    case Out(d) =>
      if c == '\"' then In(d)
      else if c == '\\' then Bad
      else if c == '{' then Out(d + 1)
      else if c == '}' then (if d == 0 then Bad else Out(d - 1))
      else Out(d)
  }

  function Run(s: Lexer, text: string): Lexer
    decreases |text|
  {
    if text == "" then s else Run(Step(s, text[0]), text[1..])
  }

  function Shift(s: Lexer, k: nat): Lexer {
    match s
    case Out(d) => Out(d + k)
    case In(d) => In(d + k)
    case Escaped(d) => Escaped(d + k)
    case Bad => Bad
  }

  /** Text that starts and ends outside strings, closes every brace it opens and closes no other. */
  predicate Balanced(text: string) {
    Run(Out(0), text) == Out(0)
  }

  lemma {:induction false} RunConcat(s: Lexer, a: string, b: string)
    ensures Run(s, a + b) == Run(Run(s, a), b)
    decreases |a|
  {
    if a == "" {
      assert a + b == b;
    } else {
      assert (a + b)[1..] == a[1..] + b;
      RunConcat(Step(s, a[0]), a[1..], b);
    }
  }

  lemma {:induction false} RunBad(text: string)
    ensures Run(Bad, text) == Bad
  {
    if text != "" {
      RunBad(text[1..]);
    }
  }

  /** Reading from a deeper level follows the same states, `k` braces deeper. */
  lemma {:induction false} RunShift(s: Lexer, text: string, k: nat)
    requires Run(s, text) != Bad
    ensures Run(Shift(s, k), text) == Shift(Run(s, text), k)
    decreases |text|
  {
    if text != "" {
      if Step(s, text[0]) == Bad {
        RunBad(text[1..]);
      }
      RunShift(Step(s, text[0]), text[1..], k);
    }
  }

  lemma BalancedAt(text: string, d: nat)
    requires Balanced(text)
    ensures Run(Out(d), text) == Out(d)
  {
    RunShift(Out(0), text, d);
  }

  lemma BalancedConcat(a: string, b: string)
    requires Balanced(a) && Balanced(b)
    ensures Balanced(a + b)
  {
    RunConcat(Out(0), a, b);
  }

  predicate IsPlain(c: char) {
    c != '\"' && c != '\\' && c != '{' && c != '}'
  }

  /** Text without quotes, backslashes and braces is balanced. */
  lemma {:induction false} PlainBalanced(text: string)
    requires forall i | 0 <= i < |text| :: IsPlain(text[i])
    ensures Balanced(text)
  {
    if text != "" {
      PlainBalanced(text[1..]);
    }
  }

  lemma BackslashPairStaysInside(x: char, d: nat)
    ensures Run(In(d), ['\\', x]) == In(d)
  {
    assert ['\\', x][1..] == [x] && [x][1..] == "";
    assert Run(Escaped(d), [x]) == Run(In(d), "");
  }

  lemma EscapeStaysInside(c: char, d: nat)
    ensures Run(In(d), Escape(c)) == In(d)
  {
    if HasShortEscape(c) {
      BackslashPairStaysInside(ShortEscapeLetter(c), d);
    } else if ' ' <= c <= '~' {
      InsideRun([c], d);
    } else if c as int < 0x1_0000 {
      UnicodeEscapeStaysInside(c as int, d);
    } else {
      SurrogatesStayInside(c as int - 0x1_0000, d);
    }
  }

  lemma SurrogatesStayInside(n: int, d: nat)
    requires 0 <= n < 0x10_0000
    ensures Run(In(d), UnicodeEscape(0xD800 + n / 1024) + UnicodeEscape(0xDC00 + n % 1024)) == In(d)
  {
    UnicodeEscapeStaysInside(0xD800 + n / 1024, d);
    UnicodeEscapeStaysInside(0xDC00 + n % 1024, d);
    RunConcat(In(d), UnicodeEscape(0xD800 + n / 1024), UnicodeEscape(0xDC00 + n % 1024));
  }

  lemma UnicodeEscapeStaysInside(n: int, d: nat)
    requires 0 <= n < 0x1_0000
    ensures Run(In(d), UnicodeEscape(n)) == In(d)
  {
    var e := UnicodeEscape(n);
    InsideRun(e[2..], d);
    assert Step(In(d), e[0]) == Escaped(d) && Step(Escaped(d), e[1]) == In(d);
    assert e[1..][1..] == e[2..];
  }

  lemma {:induction false} InsideRun(text: string, d: nat)
    requires forall i | 0 <= i < |text| :: text[i] != '\"' && text[i] != '\\'
    ensures Run(In(d), text) == In(d)
  {
    if text != "" {
      InsideRun(text[1..], d);
    }
  }

  lemma {:induction false} EscapeAllStaysInside(s: string, d: nat)
    ensures Run(In(d), EscapeAll(s)) == In(d)
  {
    if s != "" {
      EscapeStaysInside(s[0], d);
      EscapeAllStaysInside(s[1..], d);
      RunConcat(In(d), Escape(s[0]), EscapeAll(s[1..]));
    }
  }

  lemma QuoteBalanced(s: string)
    ensures Balanced(Quote(s))
  {
    EscapeAllStaysInside(s, 0);
    RunConcat(Out(0), "\"", EscapeAll(s) + "\"");
    RunConcat(In(0), EscapeAll(s), "\"");
    assert Quote(s) == "\"" + (EscapeAll(s) + "\"");
    assert Run(Out(0), "\"") == In(0) && Run(In(0), "\"") == Out(0);
  }

  lemma {:induction false} TailBalanced(ts: seq<string>)
    requires forall i | 0 <= i < |ts| :: Balanced(ts[i])
    ensures Balanced(Tail(ts))
  {
    if ts != [] {
      PlainBalanced(", ");
      TailBalanced(ts[1..]);
      BalancedConcat(", ", ts[0]);
      BalancedConcat(", " + ts[0], Tail(ts[1..]));
    }
  }

  lemma JoinBalanced(ts: seq<string>)
    requires forall i | 0 <= i < |ts| :: Balanced(ts[i])
    ensures Balanced(Join(ts))
  {
    if ts != [] {
      TailBalanced(ts[1..]);
      BalancedConcat(ts[0], Tail(ts[1..]));
    }
  }

  lemma MembersTextBalanced(ms: seq<Member>)
    requires forall m | m in ms :: Balanced(m.text)
    ensures Balanced(Join(MemberTexts(SortByKey(ms))))
  {
    SortKeeps(ms);
    var sorted := SortByKey(ms);
    forall i | 0 <= i < |sorted|
      ensures Balanced(MemberText(sorted[i]))
    {
      assert sorted[i] in sorted;
      QuoteBalanced(sorted[i].key);
      PlainBalanced(": ");
      BalancedConcat(Quote(sorted[i].key), ": ");
      BalancedConcat(Quote(sorted[i].key) + ": ", sorted[i].text);
    }
    JoinBalanced(MemberTexts(sorted));
  }

  /** What stands between the braces of an object's text. */
  function ObjectBody(fs: seq<Field>): string {
    Join(MemberTexts(SortByKey(Members(fs))))
  }

  lemma Bracketed(body: string)
    requires Balanced(body)
    ensures Balanced("{" + body + "}") && Balanced("[" + body + "]")
  {
    BalancedAt(body, 1);
    RunConcat(Out(0), "{", body + "}");
    RunConcat(Out(1), body, "}");
    assert "{" + body + "}" == "{" + (body + "}");
    PlainBalanced("[");
    PlainBalanced("]");
    BalancedConcat("[", body);
    BalancedConcat("[" + body, "]");
  }

  lemma NumberBalanced(x: string)
    requires IsNumber(x)
    ensures Balanced(x)
  {
    forall i | 0 <= i < |x| ensures IsPlain(x[i]) {
      assert NumberChar(x[i]);
    }
    PlainBalanced(x);
  }

  /** Every value text is balanced: it can be read on its own, at any depth. */
  lemma {:induction false} DumpsBalanced(v: Json)
    requires WellFormed(v)
    ensures Balanced(Dumps(v))
  {
    match v
    case Null => PlainBalanced(Dumps(v));
    case Bool(b) => PlainBalanced(Dumps(v));
    case Num(x) => NumberBalanced(x);
    case Str(s) => QuoteBalanced(s);
    case Arr(xs) =>
      ItemsBalanced(xs);
      Bracketed(Join(Items(xs)));
      DumpsArr(xs);
    case Obj(fs) =>
      ObjectBodyBalanced(fs);
      Bracketed(ObjectBody(fs));
      DumpsObj(fs);
  }

  lemma {:induction false} ItemsBalanced(xs: seq<Json>)
    requires WellFormed(Arr(xs))
    ensures Balanced(Join(Items(xs)))
    decreases xs
  {
    forall i | 0 <= i < |xs| ensures Balanced(Items(xs)[i]) {
      DumpsBalanced(xs[i]);
    }
    JoinBalanced(Items(xs));
  }

  lemma {:induction false} ObjectBodyBalanced(fs: seq<Field>)
    requires WellFormed(Obj(fs))
    ensures Balanced(ObjectBody(fs))
    decreases fs
  {
    forall i | 0 <= i < |fs| ensures Balanced(Members(fs)[i].text) {
      DumpsBalanced(fs[i].value);
    }
    MembersTextBalanced(Members(fs));
  }

  /** Anywhere strictly inside an object's text the lexer is at least one brace deep. */
  lemma InteriorIsDeep(fs: seq<Field>, k: nat)
    requires WellFormed(Obj(fs)) && 0 < k < |Dumps(Obj(fs))|
    ensures var s := Run(Out(0), Dumps(Obj(fs))[..k]); s != Bad && s.depth >= 1
  {
    var body := ObjectBody(fs);
    ObjectBodyBalanced(fs);
    DumpsObj(fs);
    assert Dumps(Obj(fs))[..k] == "{" + body[..k - 1];
    RunConcat(Out(0), "{", body[..k - 1]);
    RunConcat(Out(0), body[..k - 1], body[k - 1..]);
    assert body == body[..k - 1] + body[k - 1..];
    if Run(Out(0), body[..k - 1]) == Bad {
      RunBad(body[k - 1..]);
    }
    RunShift(Out(0), body[..k - 1], 1);
  }

  predicate Opposite(a: Lexer, b: Lexer) {
    (a.Out? && b.In?) || (a.In? && b.Out?)
  }

  /** Two readings that disagree on being inside a string go on disagreeing: a backslash would ruin one of them. */
  lemma {:induction false} OppositeForever(a: Lexer, b: Lexer, text: string)
    requires Opposite(a, b) && Run(a, text) != Bad && Run(b, text) != Bad
    ensures Opposite(Run(a, text), Run(b, text))
    decreases |text|
  {
    if text != "" {
      RunBad(text[1..]);
      OppositeForever(Step(a, text[0]), Step(b, text[0]), text[1..]);
    }
  }

  /** No object text is a proper suffix of another (or of itself). */
  lemma NoProperSuffix(fs: seq<Field>, gs: seq<Field>, p: string)
    requires WellFormed(Obj(fs)) && WellFormed(Obj(gs))
    requires Dumps(Obj(fs)) == p + Dumps(Obj(gs))
    ensures p == ""
  {
    var long, short := Dumps(Obj(fs)), Dumps(Obj(gs));
    DumpsBalanced(Obj(fs));
    DumpsBalanced(Obj(gs));
    DumpsObj(gs);
    if p != "" {
      assert long[..|p|] == p;
      InteriorIsDeep(fs, |p|);
      var s := Run(Out(0), p);
      RunConcat(Out(0), p, short);
      assert Run(s, short) == Out(0);
      if s.Out? {
        BalancedAt(short, s.depth);
      } else {
        // after the opening brace one reading is inside a string and the other is not
        assert Step(s, short[0]) == In(s.depth) && Step(Out(0), short[0]) == Out(1);
        OppositeForever(Step(s, short[0]), Out(1), short[1..]);
      }
    }
  }
}
