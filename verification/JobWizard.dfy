/** The job wizard's editable state (`ui/right_hire_ui/states/create_job_state.py`): criteria rows and weights. */
module JobWizard {
  import opened Basics
  import opened Rounding
  import opened Scoring

  datatype Criterion = Criterion(text: string, level: string)

  /** The three skill lists of a parsed job description. */
  datatype Lists = Lists(required: seq<string>, preferred: seq<string>, must: seq<string>)

  // ---- Lists to rows ----

  function Lowered(lower: string -> string, xs: seq<string>): set<string> {
    set x | x in xs :: lower(x)
  }

  function RequiredRows(lower: string -> string, required: seq<string>, must: seq<string>): seq<Criterion> {
    if required == [] then []
    else [Criterion(required[0], if lower(required[0]) in Lowered(lower, must) then "required" else "important")]
         + RequiredRows(lower, required[1..], must)
  }

  function RowsAt(xs: seq<string>, level: string): seq<Criterion> {
    if xs == [] then [] else [Criterion(xs[0], level)] + RowsAt(xs[1..], level)
  }

  function In(lower: string -> string, xs: seq<string>): string -> bool {
    x => lower(x) in Lowered(lower, xs)
  }

  function NotIn(lower: string -> string, xs: seq<string>): string -> bool {
    x => lower(x) !in Lowered(lower, xs)
  }

  /** Must-haves the required skills do not already name. */
  function ExtraMust(lower: string -> string, l: Lists): seq<string> {
    Filter(l.must, NotIn(lower, l.required))
  }

  function OnlyPreferred(lower: string -> string, l: Lists): seq<string> {
    Filter(l.preferred, NotIn(lower, l.required + l.must))
  }

  /** `_criteria_from_parse` */
  function CriteriaFromParse(lower: string -> string, l: Lists): seq<Criterion> {
    RequiredRows(lower, l.required, l.must)
    + RowsAt(ExtraMust(lower, l), "required") + RowsAt(OnlyPreferred(lower, l), "nice")
  }

  // ---- Rows to lists ----

  /** Without the repetitions, first occurrences in order. */
  function Dedup(xs: seq<string>): seq<string> {
    if xs == [] then []
    else
      var d, x := Dedup(xs[..|xs| - 1]), xs[|xs| - 1];
      if x in d then d else d + [x]
  }

  datatype Kind = AnyRequired | Nice | MustHave

  predicate Fits(level: string, kind: Kind) {
    match kind
    case AnyRequired => level != "nice"
    case Nice => level == "nice"
    case MustHave => level == "required"
  }

  /** The stripped texts of the rows of one kind, blank ones left out. */
  function Texts(rows: seq<Criterion>, kind: Kind): seq<string> {
    if rows == [] then []
    else
      (if Strip(rows[0].text) != "" && Fits(rows[0].level, kind) then [Strip(rows[0].text)] else [])
      + Texts(rows[1..], kind)
  }

  function SplitCriteria(rows: seq<Criterion>): Lists {
    Lists(Dedup(Texts(rows, AnyRequired)), Dedup(Texts(rows, Nice)), Dedup(Texts(rows, MustHave)))
  }

  function NormalizedWeights(w: Triple): Triple {
    if Total(w) <= 0.0 then Triple(0.30, 0.20, 0.50)
    else
      var skill, cosine := Round2(w.skillOverlap / Total(w)), Round2(w.cosine / Total(w));
      Triple(skill, cosine, Round2(1.0 - skill - cosine))
  }

  class CreateJobState {
    var criteria: seq<Criterion>
    var skillWeight: real
    var cosineWeight: real
    var judgeWeight: real

    constructor ()
      ensures criteria == [] && Weights() == Triple(0.30, 0.20, 0.50)
    {
      criteria, skillWeight, cosineWeight, judgeWeight := [], 0.30, 0.20, 0.50;
    }

    function Weights(): Triple
      reads this
    {
      Triple(skillWeight, cosineWeight, judgeWeight)
    }

    /** `_split_criteria`: one pass over the rows, appending what is not yet listed. */
    method Split() returns (required: seq<string>, preferred: seq<string>, must: seq<string>)
      ensures Lists(required, preferred, must) == SplitCriteria(criteria)
    {
      required, preferred, must := [], [], [];
      for i := 0 to |criteria|
        invariant Lists(required, preferred, must) == SplitCriteria(criteria[..i])
      {
        var c := criteria[i];
        SplitOneMore(criteria, i);
        var text := Strip(c.text);
        if text == "" {
          continue;
        }
        if c.level == "nice" {
          if text !in preferred {
            preferred := preferred + [text];
          }
          continue;
        }
        if text !in required {
          required := required + [text];
        }
        if c.level == "required" && text !in must {
          must := must + [text];
        }
      }
      assert criteria[..|criteria|] == criteria;
    }

    /** The three fields are updated in sequence; the last absorbs the rounding of the first two. */
    method NormalizeWeights()
      modifies this`skillWeight, this`cosineWeight, this`judgeWeight
      ensures Weights() == NormalizedWeights(old(Weights()))
    {
      var total := skillWeight + cosineWeight + judgeWeight;
      if total <= 0.0 {
        skillWeight, cosineWeight, judgeWeight := 0.30, 0.20, 0.50;
        return;
      }
      skillWeight := Round2(skillWeight / total);
      cosineWeight := Round2(cosineWeight / total);
      judgeWeight := Round2(1.0 - skillWeight - cosineWeight);
    }
  }

  // ---- Facts about the splitting ----

  lemma {:induction false} TextsConcat(a: seq<Criterion>, b: seq<Criterion>, kind: Kind)
    ensures Texts(a + b, kind) == Texts(a, kind) + Texts(b, kind)
  {
    if a == [] {
      assert a + b == b;
    } else {
      assert (a + b)[0] == a[0] && (a + b)[1..] == a[1..] + b;
      TextsConcat(a[1..], b, kind);
    }
  }

  function Add(d: seq<string>, x: string): seq<string> {
    if x in d then d else d + [x]
  }

  /** One more row puts its text, unless blank or there already, at the end of the lists its level belongs to. */
  lemma SplitOneMore(rows: seq<Criterion>, i: nat)
    requires i < |rows|
    ensures
      var l, c := SplitCriteria(rows[..i]), rows[i];
      var text := Strip(c.text);
      SplitCriteria(rows[..i + 1]) ==
        if text == "" then l
        else Lists(
          if c.level != "nice" && text !in l.required then l.required + [text] else l.required,
          if c.level == "nice" && text !in l.preferred then l.preferred + [text] else l.preferred,
          if c.level == "required" && text !in l.must then l.must + [text] else l.must)
  {
    TextsOneMore(rows, i, AnyRequired);
    TextsOneMore(rows, i, Nice);
    TextsOneMore(rows, i, MustHave);
  }

  lemma TextsOneMore(rows: seq<Criterion>, i: nat, kind: Kind)
    requires i < |rows|
    ensures
      var d, text := Dedup(Texts(rows[..i], kind)), Strip(rows[i].text);
      Dedup(Texts(rows[..i + 1], kind)) == if text != "" && Fits(rows[i].level, kind) then Add(d, text) else d
  {
    assert rows[..i + 1] == rows[..i] + [rows[i]];
    TextsConcat(rows[..i], [rows[i]], kind);
    var xs, text := Texts(rows[..i], kind), Strip(rows[i].text);
    assert Texts([rows[i]], kind) == if text != "" && Fits(rows[i].level, kind) then [text] else [];
    assert (xs + [text])[..|xs|] == xs;
    assert xs + [] == xs;
  }

  lemma {:induction false} DedupFacts(xs: seq<string>)
    ensures Distinct(Dedup(xs)) && forall x :: x in Dedup(xs) <==> x in xs
  {
    if xs != [] {
      DedupFacts(xs[..|xs| - 1]);
      assert xs == xs[..|xs| - 1] + [xs[|xs| - 1]];
    }
  }

  lemma {:induction false} DedupDistinct(xs: seq<string>)
    requires Distinct(xs)
    ensures Dedup(xs) == xs
  {
    if xs != [] {
      var init, x := xs[..|xs| - 1], xs[|xs| - 1];
      DedupDistinct(init);
      assert xs == init + [x];
      assert forall i | 0 <= i < |init| :: init[i] == xs[i];
    }
  }

  lemma DedupSnoc(xs: seq<string>, x: string)
    ensures Dedup(xs + [x]) == Add(Dedup(xs), x)
  {
    assert (xs + [x])[..|xs|] == xs;
  }

  lemma FilterAdd(d: seq<string>, x: string, p: string -> bool)
    ensures Filter(Add(d, x), p) == if p(x) then Add(Filter(d, p), x) else Filter(d, p)
  {
    FilterConcat(d, [x], p);
    FilterOne(x, p);
    FilterMembers(d, p);
    assert Filter(d, p) + [] == Filter(d, p);
  }

  lemma {:induction false} DedupFilter(xs: seq<string>, p: string -> bool)
    ensures Dedup(Filter(xs, p)) == Filter(Dedup(xs), p)
  {
    if xs != [] {
      var init, x := xs[..|xs| - 1], xs[|xs| - 1];
      DedupFilter(init, p);
      assert xs == init + [x];
      FilterConcat(init, [x], p);
      FilterOne(x, p);
      DedupSnoc(init, x);
      DedupSnoc(Filter(init, p), x);
      FilterAdd(Dedup(init), x, p);
      assert Filter(init, p) + [] == Filter(init, p);
    }
  }

  lemma {:induction false} MustWithinRequired(rows: seq<Criterion>)
    ensures forall x | x in Texts(rows, MustHave) :: x in Texts(rows, AnyRequired)
  {
    if rows != [] {
      MustWithinRequired(rows[1..]);
    }
  }

  /** Whatever the recruiter edits, the lists are free of repetitions and every must-have is required. */
  lemma EditedRowsSplitCleanly(rows: seq<Criterion>)
    ensures
      var l := SplitCriteria(rows);
      && Distinct(l.required) && Distinct(l.preferred) && Distinct(l.must)
      && forall m | m in l.must :: m in l.required
  {
    DedupFacts(Texts(rows, AnyRequired));
    DedupFacts(Texts(rows, Nice));
    DedupFacts(Texts(rows, MustHave));
    MustWithinRequired(rows);
  }

  // ---- The normal form ----

  predicate Clean(xs: seq<string>) {
    forall x | x in xs :: x != "" && Strip(x) == x
  }

  predicate CleanLists(l: Lists) {
    Clean(l.required) && Clean(l.preferred) && Clean(l.must)
  }

  lemma {:induction false} RowsAtTexts(xs: seq<string>, level: string, kind: Kind)
    requires Clean(xs)
    ensures Texts(RowsAt(xs, level), kind) == if Fits(level, kind) then xs else []
  {
    if xs != [] {
      RowsAtTexts(xs[1..], level, kind);
      assert xs == [xs[0]] + xs[1..];
      assert RowsAt(xs, level)[1..] == RowsAt(xs[1..], level);
    }
  }

  lemma {:induction false} RequiredRowsTexts(lower: string -> string, xs: seq<string>, must: seq<string>)
    requires Clean(xs)
    ensures Texts(RequiredRows(lower, xs, must), AnyRequired) == xs
    ensures Texts(RequiredRows(lower, xs, must), Nice) == []
    ensures Texts(RequiredRows(lower, xs, must), MustHave) == Filter(xs, In(lower, must))
  {
    if xs != [] {
      RequiredRowsTexts(lower, xs[1..], must);
      assert xs == [xs[0]] + xs[1..];
      assert RequiredRows(lower, xs, must)[1..] == RequiredRows(lower, xs[1..], must);
    }
  }

  /** What one pass through the editor does to the three lists. */
  lemma PassThrough(lower: string -> string, l: Lists)
    requires CleanLists(l)
    ensures SplitCriteria(CriteriaFromParse(lower, l)) == Lists(
      Dedup(l.required + ExtraMust(lower, l)),
      Dedup(OnlyPreferred(lower, l)),
      Dedup(Filter(l.required + ExtraMust(lower, l), In(lower, l.must))))
  {
    var extra, nice := ExtraMust(lower, l), OnlyPreferred(lower, l);
    FilterMembers(l.must, NotIn(lower, l.required));
    FilterMembers(l.preferred, NotIn(lower, l.required + l.must));
    var a, b, c := RequiredRows(lower, l.required, l.must), RowsAt(extra, "required"), RowsAt(nice, "nice");
    RequiredRowsTexts(lower, l.required, l.must);
    ThreeParts(a, b, c, AnyRequired);
    ThreeParts(a, b, c, Nice);
    ThreeParts(a, b, c, MustHave);
    RowsAtTexts(extra, "required", AnyRequired);
    RowsAtTexts(extra, "required", Nice);
    RowsAtTexts(extra, "required", MustHave);
    RowsAtTexts(nice, "nice", AnyRequired);
    RowsAtTexts(nice, "nice", Nice);
    RowsAtTexts(nice, "nice", MustHave);
    FilterConcat(l.required, extra, In(lower, l.must));
    FilterAll(extra, In(lower, l.must));
    assert l.required + extra + [] == l.required + extra;
    assert [] + [] + nice == nice;
    assert Filter(l.required, In(lower, l.must)) + extra + [] == Filter(l.required, In(lower, l.must)) + extra;
  }

  lemma ThreeParts(a: seq<Criterion>, b: seq<Criterion>, c: seq<Criterion>, kind: Kind)
    ensures Texts(a + b + c, kind) == Texts(a, kind) + Texts(b, kind) + Texts(c, kind)
  {
    TextsConcat(a + b, c, kind);
    TextsConcat(a, b, kind);
  }

  /**
    After one pass: the must-haves are the same up to case, the required skills are the old ones and
    the must-haves, and the preferred skills are the old ones that are neither.
   */
  lemma PassPreservesImportance(lower: string -> string, l: Lists)
    requires CleanLists(l)
    ensures
      var n := SplitCriteria(CriteriaFromParse(lower, l));
      && Lowered(lower, n.must) == Lowered(lower, l.must)
      && Lowered(lower, n.required) == Lowered(lower, l.required) + Lowered(lower, l.must)
      && Lowered(lower, n.preferred) == Lowered(lower, l.preferred) - Lowered(lower, n.required)
  {
    PassThrough(lower, l);
    var extra := ExtraMust(lower, l);
    var xs := l.required + extra;
    DedupFacts(xs);
    DedupFacts(OnlyPreferred(lower, l));
    DedupFacts(Filter(xs, In(lower, l.must)));
    FilterMembers(xs, In(lower, l.must));
    FilterMembers(l.must, NotIn(lower, l.required));
    FilterMembers(l.preferred, NotIn(lower, l.required + l.must));
    ExtraCompletes(lower, l);
    var n := SplitCriteria(CriteriaFromParse(lower, l));
    forall f | f in Lowered(lower, l.must) ensures f in Lowered(lower, n.must) {
      var x :| x in xs && lower(x) == f;
      assert In(lower, l.must)(x) && x in n.must;
    }
    forall f | f in Lowered(lower, n.must) ensures f in Lowered(lower, l.must) {
      var x :| x in n.must && lower(x) == f;
    }
    OnlyPreferredForms(lower, l);
  }

  lemma ExtraCompletes(lower: string -> string, l: Lists)
    ensures Lowered(lower, l.required + ExtraMust(lower, l)) == Lowered(lower, l.required) + Lowered(lower, l.must)
  {
    var xs := l.required + ExtraMust(lower, l);
    FilterMembers(l.must, NotIn(lower, l.required));
    forall f | f in Lowered(lower, l.required) + Lowered(lower, l.must) ensures f in Lowered(lower, xs) {
      if f in Lowered(lower, l.required) {
        var x :| x in l.required && lower(x) == f;
        assert x in xs;
      } else {
        var x :| x in l.must && lower(x) == f;
        assert NotIn(lower, l.required)(x) && x in xs;
      }
    }
    forall f | f in Lowered(lower, xs) ensures f in Lowered(lower, l.required) + Lowered(lower, l.must) {
      var x :| x in xs && lower(x) == f;
    }
  }

  lemma OnlyPreferredForms(lower: string -> string, l: Lists)
    ensures Lowered(lower, OnlyPreferred(lower, l))
         == Lowered(lower, l.preferred) - (Lowered(lower, l.required) + Lowered(lower, l.must))
  {
    var keep := NotIn(lower, l.required + l.must);
    FilterMembers(l.preferred, keep);
    assert Lowered(lower, l.required + l.must) == Lowered(lower, l.required) + Lowered(lower, l.must);
    forall f | f in Lowered(lower, l.preferred) && f !in Lowered(lower, l.required + l.must)
      ensures f in Lowered(lower, OnlyPreferred(lower, l))
    {
      var x :| x in l.preferred && lower(x) == f;
      assert keep(x);
    }
  }

  /** Lists the editor leaves alone. */
  predicate NormalForm(lower: string -> string, l: Lists) {
    && Distinct(l.required) && Distinct(l.preferred)
    && l.must == Filter(l.required, In(lower, l.must))
    && Lowered(lower, l.required) !! Lowered(lower, l.preferred)
  }

  /** One pass gives a normal form. */
  lemma PassNormalizes(lower: string -> string, l: Lists)
    requires CleanLists(l)
    ensures
      var n := SplitCriteria(CriteriaFromParse(lower, l));
      CleanLists(n) && NormalForm(lower, n)
  {
    PassThrough(lower, l);
    PassPreservesImportance(lower, l);
    var xs := l.required + ExtraMust(lower, l);
    DedupFacts(xs);
    DedupFacts(OnlyPreferred(lower, l));
    FilterMembers(l.must, NotIn(lower, l.required));
    FilterMembers(l.preferred, NotIn(lower, l.required + l.must));
    DedupFilter(xs, In(lower, l.must));
    FilterMembers(Dedup(xs), In(lower, l.must));
    var n := SplitCriteria(CriteriaFromParse(lower, l));
    SameFilter(Dedup(xs), In(lower, l.must), In(lower, n.must));
  }

  lemma {:induction false} SameFilter(xs: seq<string>, p: string -> bool, q: string -> bool)
    requires forall x | x in xs :: p(x) == q(x)
    ensures Filter(xs, p) == Filter(xs, q)
  {
    if xs != [] {
      SameFilter(xs[1..], p, q);
    }
  }

  lemma MustFormsAreRequired(lower: string -> string, l: Lists)
    requires NormalForm(lower, l)
    ensures ExtraMust(lower, l) == []
  {
    FilterMembers(l.required, In(lower, l.must));
    forall m | m in l.must ensures !NotIn(lower, l.required)(m) {
      assert m in l.required;
    }
    FilterNone(l.must, NotIn(lower, l.required));
  }

  /** The normal forms are exactly the lists that pass through the editor unchanged. */
  lemma FixedPointsAreNormalForms(lower: string -> string, l: Lists)
    requires CleanLists(l)
    ensures SplitCriteria(CriteriaFromParse(lower, l)) == l <==> NormalForm(lower, l)
  {
    PassNormalizes(lower, l);
    if NormalForm(lower, l) {
      PassThrough(lower, l);
      MustFormsAreRequired(lower, l);
      assert l.required + [] == l.required;
      DedupDistinct(l.required);
      FilterMembers(l.required, In(lower, l.must));
      forall x | x in l.preferred ensures NotIn(lower, l.required + l.must)(x) {
        assert lower(x) in Lowered(lower, l.preferred);
      }
      FilterAll(l.preferred, NotIn(lower, l.required + l.must));
      DedupDistinct(l.preferred);
      FilterDistinct(l.required, In(lower, l.must));
      DedupDistinct(l.must);
    }
  }

  /** A second pass changes nothing. */
  lemma SecondPassIsIdentity(lower: string -> string, l: Lists)
    requires CleanLists(l)
    ensures
      var n := SplitCriteria(CriteriaFromParse(lower, l));
      SplitCriteria(CriteriaFromParse(lower, n)) == n
  {
    PassNormalizes(lower, l);
    FixedPointsAreNormalForms(lower, SplitCriteria(CriteriaFromParse(lower, l)));
  }

  // ---- normalize_weights ----

  lemma SelfQuotient(t: real)
    requires t > 0.0
    ensures t / t == 1.0
  {
  }

  /** Non-negative weights become three hundredths that add up to one, none negative, each within 0.01 of its share. */
  lemma NormalizedWeightsAreShares(w: Triple)
    requires ProperWeights(w)
    ensures
      var n := NormalizedWeights(w);
      && Total(n) == 1.0 && ProperWeights(n)
      && -0.005 <= n.skillOverlap - w.skillOverlap / Total(w) <= 0.005
      && -0.005 <= n.cosine - w.cosine / Total(w) <= 0.005
      && -0.01 <= n.judge - w.judge / Total(w) <= 0.01
  {
    var t := Total(w);
    var x, y := w.skillOverlap / t, w.cosine / t;
    SumOfQuotients(w.skillOverlap, w.cosine, w.judge, t);
    SelfQuotient(t);
    QuotientMonotone(0.0, w.judge, t);
    QuotientMonotone(0.0, w.skillOverlap, t);
    QuotientMonotone(0.0, w.cosine, t);
    assert 0.0 / t == 0.0;
    RestInHundredths(x, y);
    Round2Near(x);
    Round2Near(y);
  }

  /** The remainder of two rounded shares is a whole number of hundredths, and not negative. */
  lemma RestInHundredths(x: real, y: real)
    requires 0.0 <= x && 0.0 <= y && x + y <= 1.0
    ensures 0.0 <= Round2(x) && 0.0 <= Round2(y)
    ensures Round2(1.0 - Round2(x) - Round2(y)) == 1.0 - Round2(x) - Round2(y) >= 0.0
  {
    Round2Monotone(0.0, x);
    Round2Monotone(0.0, y);
    RoundIntExact(0);
    SharesDoNotOverflow(x * 100.0, y * 100.0, 100);
    RoundIntExact(100 - RoundInt(x * 100.0) - RoundInt(y * 100.0));
  }

  lemma Round2Hundredths(n: int)
    ensures Round2(n as real / 100.0) == n as real / 100.0
  {
    RoundIntExact(n);
  }

  function InHundredths(a: int, b: int): Triple {
    Triple(a as real / 100.0, b as real / 100.0, (100 - a - b) as real / 100.0)
  }

  lemma NormalizedInHundredths(w: Triple) returns (a: int, b: int)
    ensures NormalizedWeights(w) == InHundredths(a, b)
  {
    if Total(w) <= 0.0 {
      a, b := 30, 20;
    } else {
      a, b := RoundInt(w.skillOverlap / Total(w) * 100.0), RoundInt(w.cosine / Total(w) * 100.0);
      Round2Hundredths(100 - a - b);
    }
  }

  lemma HundredthsAreNormal(a: int, b: int)
    ensures NormalizedWeights(InHundredths(a, b)) == InHundredths(a, b)
  {
    var n := InHundredths(a, b);
    assert Total(n) == 1.0;
    assert n.skillOverlap / 1.0 == n.skillOverlap && n.cosine / 1.0 == n.cosine;
    Round2Hundredths(a);
    Round2Hundredths(b);
    Round2Hundredths(100 - a - b);
  }

  /** Normalizing twice is normalizing once, whatever the weights. */
  lemma NormalizeTwice(w: Triple)
    ensures NormalizedWeights(NormalizedWeights(w)) == NormalizedWeights(w)
  {
    var a, b := NormalizedInHundredths(w);
    HundredthsAreNormal(a, b);
  }

  // ---- The rows and the lists in plain terms ----

  lemma {:induction false} TextsAre(rows: seq<Criterion>, kind: Kind, x: string)
    ensures x in Texts(rows, kind) <==>
            x != "" && exists c | c in rows :: Strip(c.text) == x && Fits(c.level, kind)
  {
    if rows != [] {
      TextsAre(rows[1..], kind, x);
      assert rows == [rows[0]] + rows[1..];
    }
  }

  /** Which texts are in the three lists. */
  lemma SplitMembers(rows: seq<Criterion>, x: string)
    ensures
      var l := SplitCriteria(rows);
      && SplitCriteria([]) == Lists([], [], [])
      && (x in l.required <==> x != "" && exists c | c in rows :: Strip(c.text) == x && c.level != "nice")
      && (x in l.preferred <==> x != "" && exists c | c in rows :: Strip(c.text) == x && c.level == "nice")
      && (x in l.must <==> x != "" && exists c | c in rows :: Strip(c.text) == x && c.level == "required")
  {
    TextsAre(rows, AnyRequired, x);
    TextsAre(rows, Nice, x);
    TextsAre(rows, MustHave, x);
    DedupFacts(Texts(rows, AnyRequired));
    DedupFacts(Texts(rows, Nice));
    DedupFacts(Texts(rows, MustHave));
  }

  /** Some text of the list is the same up to case. */
  predicate Listed(lower: string -> string, x: string, xs: seq<string>) {
    exists y | y in xs :: lower(y) == lower(x)
  }

  /** The rows are those of the texts not listed in `others`, in order and at one level. */
  predicate UnlistedRows(lower: string -> string, xs: seq<string>, others: seq<string>, level: string,
      rows: seq<Criterion>)
  {
    if xs == [] then rows == []
    else if Listed(lower, xs[0], others) then UnlistedRows(lower, xs[1..], others, level, rows)
    else rows != [] && rows[0] == Criterion(xs[0], level) && UnlistedRows(lower, xs[1..], others, level, rows[1..])
  }

  lemma {:induction false} RowsOfUnlisted(lower: string -> string, xs: seq<string>, others: seq<string>, level: string)
    ensures UnlistedRows(lower, xs, others, level, RowsAt(Filter(xs, NotIn(lower, others)), level))
  {
    if xs != [] {
      RowsOfUnlisted(lower, xs[1..], others, level);
      var rest := Filter(xs[1..], NotIn(lower, others));
      assert Listed(lower, xs[0], others) <==> !NotIn(lower, others)(xs[0]);
      assert ([xs[0]] + rest)[1..] == rest && [] + rest == rest;
      assert RowsAt([xs[0]] + rest, level)[1..] == RowsAt(rest, level);
    }
  }

  lemma {:induction false} RequiredRowsAre(lower: string -> string, xs: seq<string>, must: seq<string>)
    ensures
      var rows := RequiredRows(lower, xs, must);
      && |rows| == |xs|
      && forall i | 0 <= i < |xs| ::
           rows[i] == Criterion(xs[i], if Listed(lower, xs[i], must) then "required" else "important")
  {
    if xs != [] {
      RequiredRowsAre(lower, xs[1..], must);
      assert Listed(lower, xs[0], must) <==> lower(xs[0]) in Lowered(lower, must);
      assert RequiredRows(lower, xs, must)[1..] == RequiredRows(lower, xs[1..], must);
    }
  }

  /**
    The rows of a parsed description: the required skills, those that are must-haves as required and the others as
    important; the must-haves not among them; and as nice to have the preferred skills that are neither.
   */
  lemma RowsOfParse(lower: string -> string, l: Lists) returns (extra: seq<Criterion>, nice: seq<Criterion>)
    ensures
      var rows := CriteriaFromParse(lower, l);
      && |rows| == |l.required| + |extra| + |nice| && rows[|l.required|..] == extra + nice
      && (forall i | 0 <= i < |l.required| ::
            rows[i].text == l.required[i]
            && rows[i].level == if Listed(lower, l.required[i], l.must) then "required" else "important")
    ensures UnlistedRows(lower, l.must, l.required, "required", extra)
    ensures UnlistedRows(lower, l.preferred, l.required + l.must, "nice", nice)
  {
    extra, nice := RowsAt(ExtraMust(lower, l), "required"), RowsAt(OnlyPreferred(lower, l), "nice");
    RequiredRowsAre(lower, l.required, l.must);
    RowsOfUnlisted(lower, l.must, l.required, "required");
    RowsOfUnlisted(lower, l.preferred, l.required + l.must, "nice");
    var first := RequiredRows(lower, l.required, l.must);
    assert CriteriaFromParse(lower, l) == first + (extra + nice);
  }

  /**
    Weights whose sum is not positive become the defaults. Any others become hundredths that add up to one,
    the first two being their shares to the nearest hundredth, ties to the even one.
   */
  lemma WeightsBecome(w: Triple, k: int)
    ensures
      var total, n := w.skillOverlap + w.cosine + w.judge, NormalizedWeights(w);
      && n.skillOverlap + n.cosine + n.judge == 1.0
      && (total <= 0.0 ==> n == Triple(0.30, 0.20, 0.50))
      && (total > 0.0 ==>
            && (n.skillOverlap == k as real / 100.0 <==> ToNearest(100.0 * (w.skillOverlap / total), k))
            && (n.cosine == k as real / 100.0 <==> ToNearest(100.0 * (w.cosine / total), k)))
  {
    var a, b := NormalizedInHundredths(w);
    if Total(w) > 0.0 {
      Round2Iff(w.skillOverlap / Total(w), k);
      Round2Iff(w.cosine / Total(w), k);
    }
  }

  /** The whole number nearest to `x`, the even one of two. */
  predicate ToNearest(x: real, k: int) {
    (k as real - 0.5 < x < k as real + 0.5) || (k % 2 == 0 && (x == k as real - 0.5 || x == k as real + 0.5))
  }
}
