/** What the text of a value looks like: separators, the order of keys, and the escapes of RFC 8259 section 7. */
module JsonFormat {
  import opened JsonText
  import JsonEquality

  // ---- Strings ----

  const HEX := "0123456789abcdef"

  lemma HexDigitIs(n: nat)
    requires n < 16
    ensures HexDigit(n) == HEX[n]
  {
    assert HEX[0] == '0' && HEX[1] == '1' && HEX[2] == '2' && HEX[3] == '3' && HEX[4] == '4' && HEX[5] == '5';
    assert HEX[6] == '6' && HEX[7] == '7' && HEX[8] == '8' && HEX[9] == '9' && HEX[10] == 'a' && HEX[11] == 'b';
    assert HEX[12] == 'c' && HEX[13] == 'd' && HEX[14] == 'e' && HEX[15] == 'f';
  }

  /** A backslash, `u`, and `n` in four lower-case hexadecimal digits. */
  predicate WritesUnit(text: string, n: int) {
    && 0 <= n < 0x1_0000 && |text| == 6 && text[0] == '\\' && text[1] == 'u'
    && text[2] == HEX[n / 4096] && text[3] == HEX[n / 256 % 16] && text[4] == HEX[n / 16 % 16] && text[5] == HEX[n % 16]
  }

  lemma UnicodeEscapeWrites(n: nat)
    requires n < 0x1_0000
    ensures WritesUnit(UnicodeEscape(n), n)
  {
    hide HexDigit;
    HexDigitIs(n / 4096);
    HexDigitIs(n / 256 % 16);
    HexDigitIs(n / 16 % 16);
    HexDigitIs(n % 16);
  }

  /** Seven characters have a letter of their own, and other printable ASCII stands for itself. */
  lemma AsciiEscapes(c: char)
    ensures Escape('\"') == "\\\"" && Escape('\\') == "\\\\" && Escape('\n') == "\\n" && Escape('\r') == "\\r"
    ensures Escape('\t') == "\\t" && Escape(8 as char) == "\\b" && Escape(12 as char) == "\\f"
    ensures ' ' <= c <= '~' && c != '\"' && c != '\\' ==> Escape(c) == [c]
  {
    hide UnicodeEscape;
  }

  /** The rest is written in hexadecimal. */
  lemma UnitEscapes(c: char)
    requires c < ' ' || 126 < c as int < 0x1_0000
    ensures c != '\n' && c != '\r' && c != '\t' && c != 8 as char && c != 12 as char ==> WritesUnit(Escape(c), c as int)
  {
    hide UnicodeEscape, WritesUnit;
    UnicodeEscapeWrites(c as int);
  }

  /** Beyond U+FFFF as a surrogate pair. */
  lemma PairEscapes(c: char) returns (high: int, low: int)
    requires c as int >= 0x1_0000
    ensures 0xD800 <= high <= 0xDBFF && 0xDC00 <= low <= 0xDFFF
    ensures c as int == 0x1_0000 + 1024 * (high - 0xD800) + (low - 0xDC00)
    ensures |Escape(c)| == 12 && WritesUnit(Escape(c)[..6], high) && WritesUnit(Escape(c)[6..], low)
  {
    var n := c as int - 0x1_0000;
    high, low := 0xD800 + n / 1024, 0xDC00 + n % 1024;
    UnicodeEscapeWrites(high);
    UnicodeEscapeWrites(low);
    assert |UnicodeEscape(high)| == 6 && |UnicodeEscape(low)| == 6;
    hide UnicodeEscape, WritesUnit;
    assert Escape(c)[..6] == UnicodeEscape(high) && Escape(c)[6..] == UnicodeEscape(low);
  }

  /** A string text is the escapes of its characters, one after the other, in quotation marks. */
  lemma QuoteIs(c: char, s: string) returns (body: string)
    ensures Quote("") == "\"\"" && Quote(s) == "\"" + body + "\"" && Quote([c] + s) == "\"" + Escape(c) + body + "\""
  {
    body := EscapeAll(s);
    assert ([c] + s)[1..] == s;
  }

  // ---- Arrays and objects ----

  lemma {:induction false} TailSnoc(ts: seq<string>, t: string)
    ensures Tail(ts + [t]) == Tail(ts) + ", " + t
  {
    if ts == [] {
      assert [t][1..] == [];
    } else {
      TailSnoc(ts[1..], t);
      assert (ts + [t])[0] == ts[0] && (ts + [t])[1..] == ts[1..] + [t];
    }
  }

  lemma JoinSnoc(ts: seq<string>, t: string)
    ensures Join([]) == "" && Join(ts + [t]) == if ts == [] then t else Join(ts) + ", " + t
  {
    if ts == [] {
      assert [] + [t] == [t];
    } else {
      TailSnoc(ts[1..], t);
      assert (ts + [t])[0] == ts[0] && (ts + [t])[1..] == ts[1..] + [t];
    }
  }

  /** One more element of an array. */
  lemma ArrayText(xs: seq<Json>, x: Json) returns (body: string)
    ensures Dumps(Arr([])) == "[]" && Dumps(Arr(xs)) == "[" + body + "]"
    ensures Dumps(Arr(xs + [x])) == if xs == [] then "[" + Dumps(x) + "]" else "[" + body + ", " + Dumps(x) + "]"
  {
    hide Dumps, Join;
    DumpsArr([]);
    DumpsArr(xs);
    DumpsArr(xs + [x]);
    assert Items([]) == [] && Items(xs + [x]) == Items(xs) + [Dumps(x)];
    JoinSnoc(Items(xs), Dumps(x));
    body := Join(Items(xs));
  }

  /** By code point, a proper prefix first. */
  lemma {:induction false} BeforeIff(a: string, b: string)
    ensures Before(a, b) <==> exists i | 0 <= i <= |a| && i < |b| :: a[..i] == b[..i] && (i == |a| || a[i] < b[i])
  {
    if a != "" && b != "" && a[0] == b[0] {
      BeforeIff(a[1..], b[1..]);
      if Before(a[1..], b[1..]) {
        var p, q := a[1..], b[1..];
        var i :| 0 <= i <= |p| && i < |q| && p[..i] == q[..i] && (i == |p| || p[i] < q[i]);
        assert a[..i + 1] == [a[0]] + p[..i] && b[..i + 1] == [b[0]] + q[..i];
      }
      if i: nat :| i <= |a| && i < |b| && a[..i] == b[..i] && (i == |a| || a[i] < b[i]) {
        assert i > 0;
        assert a[1..][..i - 1] == a[..i][1..] && b[1..][..i - 1] == b[..i][1..];
      }
    } else if b != "" {
      assert a[..0] == b[..0];
    }
  }

  lemma {:induction false} AscendingIsSorted(ms: seq<Member>)
    requires JsonEquality.Ascending(ms)
    ensures SortByKey(ms) == ms
  {
    if ms != [] {
      AscendingIsSorted(ms[1..]);
      assert ms == [ms[0]] + ms[1..];
    }
  }

  predicate KeysAscend(fs: seq<Field>) {
    forall i, j | 0 <= i < j < |fs| :: Before(fs[i].key, fs[j].key)
  }

  /** One more member of an object, with the greatest key. The members of any object are written in that order. */
  lemma ObjectText(fs: seq<Field>, f: Field) returns (body: string)
    requires KeysAscend(fs + [f])
    ensures Dumps(Obj([])) == "{}" && Dumps(Obj(fs)) == "{" + body + "}"
    ensures Dumps(Obj(fs + [f])) ==
      "{" + (if fs == [] then "" else body + ", ") + Quote(f.key) + ": " + Dumps(f.value) + "}"
  {
    hide Dumps, Join, SortByKey, Quote;
    AscendingIsSorted([]);
    assert Members([]) == [] && MemberTexts([]) == [];
    DumpsObj([]);
    DumpsObj(fs);
    DumpsObj(fs + [f]);
    var ms, m := Members(fs), Member(f.key, Dumps(f.value));
    assert Members(fs + [f]) == ms + [m];
    forall i, j | 0 <= i < j < |ms + [m]| ensures Before((ms + [m])[i].key, (ms + [m])[j].key) {
      assert Before((fs + [f])[i].key, (fs + [f])[j].key);
    }
    AscendingIsSorted(ms + [m]);
    forall i, j | 0 <= i < j < |ms| ensures Before(ms[i].key, ms[j].key) {
      assert Before((ms + [m])[i].key, (ms + [m])[j].key);
    }
    AscendingIsSorted(ms);
    assert MemberTexts(ms + [m]) == MemberTexts(ms) + [MemberText(m)];
    assert fs == [] ==> ms == [] && MemberTexts(ms) == [];
    JoinSnoc(MemberTexts(ms), MemberText(m));
    body := Join(MemberTexts(ms));
  }

  lemma OtherTexts(flag: bool, literal: string)
    ensures Dumps(Null) == "null" && Dumps(Bool(true)) == "true" && Dumps(Bool(false)) == "false"
    ensures Dumps(Num(literal)) == literal && Dumps(Str(literal)) == Quote(literal)
  {
  }
}
