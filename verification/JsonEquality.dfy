/** Equal Python values have the same text: sorting the members hides the insertion order of every dict. */
module JsonEquality {
  import opened JsonText
  import JsonDecoding

  lemma {:induction false} BeforeTotal(a: string, b: string)
    ensures a == b || Before(a, b) || Before(b, a)
  {
    if a != "" && b != "" && a[0] == b[0] {
      BeforeTotal(a[1..], b[1..]);
      assert a == [a[0]] + a[1..] && b == [b[0]] + b[1..];
    }
  }

  lemma {:induction false} BeforeIrreflexive(a: string)
    ensures !Before(a, a)
  {
    if a != "" {
      BeforeIrreflexive(a[1..]);
    }
  }

  lemma {:induction false} BeforeTransitive(a: string, b: string, c: string)
    requires Before(a, b) && Before(b, c)
    ensures Before(a, c)
  {
    if a != "" && a[0] == b[0] == c[0] {
      BeforeTransitive(a[1..], b[1..], c[1..]);
    }
  }

  ghost predicate Ascending(ms: seq<Member>) {
    forall i, j | 0 <= i < j < |ms| :: Before(ms[i].key, ms[j].key)
  }

  ghost predicate DistinctMembers(ms: seq<Member>) {
    forall i, j | 0 <= i < j < |ms| :: ms[i].key != ms[j].key
  }

  lemma {:induction false} InsertAscending(m: Member, ms: seq<Member>)
    requires Ascending(ms) && forall x | x in ms :: x.key != m.key
    ensures Ascending(Insert(m, ms))
  {
    if ms == [] {
    } else if Before(m.key, ms[0].key) {
      forall j | 0 < j < |ms| ensures Before(m.key, ms[j].key) {
        BeforeTransitive(m.key, ms[0].key, ms[j].key);
      }
    } else {
      var rest := Insert(m, ms[1..]);
      InsertAscending(m, ms[1..]);
      InsertKeeps(m, ms[1..]);
      assert ms[0] in ms;
      BeforeTotal(ms[0].key, m.key);
      forall j | 0 <= j < |rest| ensures Before(ms[0].key, rest[j].key) {
        assert rest[j] in rest;
      }
    }
  }

  lemma {:induction false} SortAscending(ms: seq<Member>)
    requires DistinctMembers(ms)
    ensures Ascending(SortByKey(ms))
  {
    if ms != [] {
      SortAscending(ms[1..]);
      SortKeeps(ms[1..]);
      InsertAscending(ms[0], SortByKey(ms[1..]));
    }
  }

  lemma HeadIsMember(ms: seq<Member>)
    requires ms != []
    ensures ms[0] in ms
  {
  }

  /** An ascending sequence is determined by its set of members. */
  lemma {:induction false} AscendingUnique(ms: seq<Member>, ns: seq<Member>)
    requires Ascending(ms) && Ascending(ns) && forall m :: m in ms <==> m in ns
    ensures ms == ns
  {
    if ms == [] {
      if ns != [] {
        HeadIsMember(ns);
        assert false;
      }
    } else {
      assert ms[0] in ns && ns[0] in ms;
      var i :| 0 <= i < |ms| && ms[i] == ns[0];
      var j :| 0 <= j < |ns| && ns[j] == ms[0];
      if i > 0 && j > 0 {
        BeforeTransitive(ms[0].key, ns[0].key, ms[0].key);
      }
      BeforeIrreflexive(ms[0].key);
      assert ms[0] == ns[0];
      RestMembers(ms, ns);
      RestMembers(ns, ms);
      AscendingUnique(ms[1..], ns[1..]);
      assert ms == [ms[0]] + ms[1..] && ns == [ns[0]] + ns[1..];
    }
  }

  lemma RestMembers(ms: seq<Member>, ns: seq<Member>)
    requires ms != [] && ns != [] && ms[0] == ns[0]
    requires Ascending(ms) && forall m | m in ms :: m in ns
    ensures forall m | m in ms[1..] :: m in ns[1..]
  {
    forall m | m in ms[1..] ensures m in ns[1..] {
      var i :| 1 <= i < |ms| && ms[i] == m;
      BeforeIrreflexive(m.key);
      assert Before(ms[0].key, ms[i].key) && m in ms;
      assert ns == [ns[0]] + ns[1..] && m in ns && m != ns[0];
    }
  }

  lemma {:induction false} DistinctCount(ms: seq<Member>)
    requires DistinctMembers(ms)
    ensures |set m | m in ms| == |ms|
  {
    if ms == [] {
      assert (set m | m in ms) == {};
    } else {
      DistinctCount(ms[1..]);
      assert (set m | m in ms) == {ms[0]} + set m | m in ms[1..];
    }
  }

  lemma SameLengthSameMembers(ms: seq<Member>, ns: seq<Member>)
    requires DistinctMembers(ms) && DistinctMembers(ns) && |ms| == |ns|
    requires forall m | m in ms :: m in ns
    ensures forall m :: m in ms <==> m in ns
  {
    DistinctCount(ms);
    DistinctCount(ns);
    var a, b := set m | m in ms, set m | m in ns;
    assert b == a + (b - a);
    assert |b - a| == 0;
    forall m | m in ns ensures m in ms {
      assert m in b && m !in b - a;
    }
  }

  lemma SortCanonical(ms: seq<Member>, ns: seq<Member>)
    requires DistinctMembers(ms) && DistinctMembers(ns) && forall m :: m in ms <==> m in ns
    ensures SortByKey(ms) == SortByKey(ns)
  {
    SortAscending(ms);
    SortAscending(ns);
    SortKeeps(ms);
    SortKeeps(ns);
    AscendingUnique(SortByKey(ms), SortByKey(ns));
  }

  lemma {:induction false} EqualValuesSameText(v: Json, w: Json)
    requires WellFormed(v) && WellFormed(w) && Equal(v, w)
    ensures Dumps(v) == Dumps(w)
    decreases v, 1
  {
    match v {
      case Arr(xs) =>
        forall i | 0 <= i < |xs| ensures Items(xs)[i] == Items(w.items)[i] {
          EqualValuesSameText(xs[i], w.items[i]);
        }
        assert Items(xs) == Items(w.items);
        DumpsArr(xs);
        DumpsArr(w.items);
      case Obj(fs) =>
        var gs := w.fields;
        forall m | m in Members(fs) ensures m in Members(gs) {
          var f := FieldOf(fs, m);
          var g := Partner(fs, gs, f);
          FieldWellFormed(fs, f);
          FieldWellFormed(gs, g);
          MatchingFields(f, g);
          MemberOf(gs, g);
        }
        SameLengthSameMembers(Members(fs), Members(gs));
        SortCanonical(Members(fs), Members(gs));
        DumpsObj(fs);
        DumpsObj(gs);
      case _ =>
    }
  }

  lemma Partner(fs: seq<Field>, gs: seq<Field>, f: Field) returns (g: Field)
    requires Equal(Obj(fs), Obj(gs)) && f in fs
    ensures g in gs && Matches(f, g)
  {
    g :| g in gs && Matches(f, g);
  }

  lemma FieldOf(fs: seq<Field>, m: Member) returns (f: Field)
    requires m in Members(fs)
    ensures f in fs && m == Member(f.key, Dumps(f.value))
  {
    var i :| 0 <= i < |fs| && Members(fs)[i] == m;
    f := fs[i];
  }

  lemma MemberOf(fs: seq<Field>, f: Field)
    requires f in fs
    ensures Member(f.key, Dumps(f.value)) in Members(fs)
  {
    var i :| 0 <= i < |fs| && fs[i] == f;
    assert Members(fs)[i] == Member(f.key, Dumps(f.value));
  }

  lemma FieldWellFormed(fs: seq<Field>, f: Field)
    requires WellFormed(Obj(fs)) && f in fs
    ensures WellFormed(f.value)
  {
  }

  lemma {:induction false} MatchingFields(f: Field, g: Field)
    requires WellFormed(f.value) && WellFormed(g.value) && Matches(f, g)
    ensures Member(f.key, Dumps(f.value)) == Member(g.key, Dumps(g.value))
    decreases f, 0
  {
    EqualValuesSameText(f.value, g.value);
  }

  /** `json.dumps(sort_keys=True)` is injective up to, and insensitive to, key order. */
  lemma SameTextIffEqual(v: Json, w: Json)
    requires WellFormed(v) && WellFormed(w)
    ensures Dumps(v) == Dumps(w) <==> Equal(v, w)
  {
    if Dumps(v) == Dumps(w) {
      JsonDecoding.Decodes(v, w, "", "");
    }
    if Equal(v, w) {
      EqualValuesSameText(v, w);
    }
  }
}
