/**
  The JSON columns of a job, and the three ways they are written: creating the job, the deferred
  parse of its description, and editing weights or thresholds (`app/api/jobs.py`).
 */
module Jobs {
  import opened Basics
  import opened JsonText
  import opened CacheKey
  import opened Pipeline

  /** The columns of a job an evaluation reads; an absent dict reads as an empty one. */
  datatype Job = Job(jd: Json, jdRaw: string, weights: Json, thresholds: Json)

  const EMPTY := Obj([])

  predicate NumbersOnly(column: Json) {
    column.Obj? && forall i | 0 <= i < |column.fields| :: column.fields[i].value.Num?
  }

  /** A `dict[str, float]` of a request. */
  type Floats = v: Json | NumbersOnly(v) && WellFormed(v) witness EMPTY

  /** `JobCreate` */
  datatype Order = Order(raw: string, override: Option<Jd>, weights: Option<Floats>, thresholds: Option<Floats>)

  /** `ParsedJD()`, stored while the description could not be parsed. */
  const UNPARSED := Jd("", [], [], 0.0, "", [])

  function Strings(xs: seq<string>): Json {
    Arr(seq(|xs|, i requires 0 <= i < |xs| => Str(xs[i])))
  }

  /** `ParsedJD.model_dump()`; `literal` prints a float. */
  function DumpJd(literal: real -> string, jd: Jd): Json {
    Obj([Field("title", Str(jd.title)), Field("required_skills", Strings(jd.required)),
         Field("preferred_skills", Strings(jd.preferred)), Field("min_yoe", Num(literal(jd.minYoe))),
         Field("location", Str(jd.location)), Field("must_haves", Strings(jd.mustHaves))])
  }

  function Column(floats: Option<Floats>): Json {
    if floats.Some? then floats.value else EMPTY
  }

  /** `create_job`; `available` says whether the language model answers. */
  function Created(parse: string -> Jd, literal: real -> string, order: Order, available: bool): Job {
    var profile :=
      if order.override.Some? then order.override.value
      else if available then parse(order.raw)
      else UNPARSED;
    Job(DumpJd(literal, profile), order.raw, Column(order.weights), Column(order.thresholds))
  }

  /** `parse_job_description` */
  function Reparsed(literal: real -> string, job: Job, profile: Jd): Job {
    job.(jd := DumpJd(literal, profile))
  }

  /** `update_job` */
  function Patched(job: Job, weights: Option<Floats>, thresholds: Option<Floats>): Job {
    job.(weights := if weights.Some? then weights.value else job.weights,
         thresholds := if thresholds.Some? then thresholds.value else job.thresholds)
  }

  /** JSON objects throughout, numbers in weights and thresholds, and a profile that is not the empty dict. */
  predicate Proper(job: Job) {
    && Valid(Inputs("", job.jd, job.weights, job.thresholds))
    && NumbersOnly(job.weights) && NumbersOnly(job.thresholds) && job.jd != EMPTY
  }

  ghost predicate PrintsNumbers(literal: real -> string) {
    forall x :: IsNumber(literal(x))
  }

  lemma ProfileKeysDiffer(literal: real -> string, jd: Jd)
    ensures DistinctKeys(DumpJd(literal, jd).fields)
  {
    var fs := DumpJd(literal, jd).fields;
    assert |fs| == 6;
    assert |fs[0].key| == 5 && |fs[1].key| == 15 && |fs[2].key| == 16;
    assert |fs[3].key| == 7 && |fs[4].key| == 8 && |fs[5].key| == 10;
  }

  lemma ProfilesAreProper(literal: real -> string, jd: Jd)
    requires PrintsNumbers(literal)
    ensures WellFormed(DumpJd(literal, jd)) && DumpJd(literal, jd) != EMPTY
  {
    ProfileKeysDiffer(literal, jd);
  }

  /** Every job is stored proper and stays so: no request stores an empty profile. */
  lemma CreatedIsProper(parse: string -> Jd, literal: real -> string, order: Order, available: bool)
    requires PrintsNumbers(literal)
    ensures Proper(Created(parse, literal, order, available))
  {
    var profile :=
      if order.override.Some? then order.override.value
      else if available then parse(order.raw)
      else UNPARSED;
    ProfilesAreProper(literal, profile);
  }

  lemma ReparsedIsProper(literal: real -> string, job: Job, profile: Jd)
    requires PrintsNumbers(literal) && Proper(job)
    ensures Proper(Reparsed(literal, job, profile))
  {
    ProfilesAreProper(literal, profile);
  }

  lemma PatchedIsProper(job: Job, weights: Option<Floats>, thresholds: Option<Floats>)
    requires Proper(job)
    ensures Proper(Patched(job, weights, thresholds))
  {
  }

  // ---- Reading a stored profile back ----

  function Lookup(fs: seq<Field>, key: string): Option<Json> {
    if fs == [] then None else if fs[0].key == key then Some(fs[0].value) else Lookup(fs[1..], key)
  }

  lemma {:induction false} LookupFinds(fs: seq<Field>, f: Field)
    requires DistinctKeys(fs) && f in fs
    ensures Lookup(fs, f.key) == Some(f.value)
  {
    if fs[0] == f {
    } else {
      var i :| 0 <= i < |fs| && fs[i] == f;
      assert fs[1..][i - 1] == f;
      LookupFinds(fs[1..], f);
    }
  }

  lemma {:induction false} LookupFound(fs: seq<Field>, key: string) returns (f: Field)
    requires Lookup(fs, key).Some?
    ensures f in fs && f.key == key && Some(f.value) == Lookup(fs, key)
  {
    if fs[0].key == key {
      f := fs[0];
    } else {
      f := LookupFound(fs[1..], key);
    }
  }

  function StringsIn(v: Json): Option<seq<string>> {
    if v.Arr? && (forall i | 0 <= i < |v.items| :: v.items[i].Str?)
    then Some(seq(|v.items|, i requires 0 <= i < |v.items| => v.items[i].text))
    else None
  }

  function TextAt(v: Json, key: string): Option<string>
    requires v.Obj?
  {
    match Lookup(v.fields, key)
    case Some(Str(s)) => Some(s)
    case _ => None
  }

  function StringsAt(v: Json, key: string): Option<seq<string>>
    requires v.Obj?
  {
    var x := Lookup(v.fields, key);
    if x.Some? then StringsIn(x.value) else None
  }

  function FloatAt(number: string -> real, v: Json, key: string): Option<real>
    requires v.Obj?
  {
    match Lookup(v.fields, key)
    case Some(Num(x)) => Some(number(x))
    case _ => None
  }

  /** A profile read by its field names. */
  predicate Loads(number: string -> real, v: Json, jd: Jd) {
    && v.Obj?
    && TextAt(v, "title") == Some(jd.title) && TextAt(v, "location") == Some(jd.location)
    && StringsAt(v, "required_skills") == Some(jd.required) && StringsAt(v, "preferred_skills") == Some(jd.preferred)
    && StringsAt(v, "must_haves") == Some(jd.mustHaves) && FloatAt(number, v, "min_yoe") == Some(jd.minYoe)
  }

  lemma StringsReadBack(xs: seq<string>)
    ensures StringsIn(Strings(xs)) == Some(xs)
  {
    var v := Strings(xs);
    assert forall i | 0 <= i < |v.items| :: v.items[i] == Str(xs[i]);
    assert StringsIn(v).value == xs;
  }

  /** What is dumped under the field names is read back under them. */
  lemma DumpLoads(number: string -> real, literal: real -> string, jd: Jd)
    requires number(literal(jd.minYoe)) == jd.minYoe
    ensures Loads(number, DumpJd(literal, jd), jd)
  {
    var fs := DumpJd(literal, jd).fields;
    ProfileKeysDiffer(literal, jd);
    LookupFinds(fs, Field("title", Str(jd.title)));
    LookupFinds(fs, Field("required_skills", Strings(jd.required)));
    LookupFinds(fs, Field("preferred_skills", Strings(jd.preferred)));
    LookupFinds(fs, Field("min_yoe", Num(literal(jd.minYoe))));
    LookupFinds(fs, Field("location", Str(jd.location)));
    LookupFinds(fs, Field("must_haves", Strings(jd.mustHaves)));
    StringsReadBack(jd.required);
    StringsReadBack(jd.preferred);
    StringsReadBack(jd.mustHaves);
  }

  /** The profile a new job loads: the reviewed one, else the parsed one, else one with nothing in it. */
  lemma CreatedLoads(
      number: string -> real, parse: string -> Jd, literal: real -> string, order: Order, available: bool)
    requires forall x :: number(literal(x)) == x
    ensures
      var job := Created(parse, literal, order, available);
      && (order.override.Some? ==> Loads(number, job.jd, order.override.value))
      && (order.override.None? && available ==> Loads(number, job.jd, parse(order.raw)))
      && (order.override.None? && !available ==> Loads(number, job.jd, Jd("", [], [], 0.0, "", [])))
      && job.jdRaw == order.raw
      && (order.weights.Some? ==> job.weights == order.weights.value)
      && (order.thresholds.Some? ==> job.thresholds == order.thresholds.value)
      && (order.weights.None? ==> job.weights == Obj([])) && (order.thresholds.None? ==> job.thresholds == Obj([]))
  {
    if order.override.Some? {
      DumpLoads(number, literal, order.override.value);
    }
    DumpLoads(number, literal, parse(order.raw));
    DumpLoads(number, literal, Jd("", [], [], 0.0, "", []));
  }

  /** Parsing late replaces the profile alone; a patch replaces what it names alone. */
  lemma EditsAreLocal(
      number: string -> real, literal: real -> string, job: Job, jd: Jd, weights: Option<Floats>,
      thresholds: Option<Floats>)
    requires forall x :: number(literal(x)) == x
    ensures
      var parsed := Reparsed(literal, job, jd);
      Loads(number, parsed.jd, jd) && parsed == job.(jd := parsed.jd)
    ensures
      var patched := Patched(job, weights, thresholds);
      && patched == job.(weights := patched.weights, thresholds := patched.thresholds)
      && (weights.Some? ==> patched.weights == weights.value) && (weights.None? ==> patched.weights == job.weights)
      && (thresholds.Some? ==> patched.thresholds == thresholds.value)
      && (thresholds.None? ==> patched.thresholds == job.thresholds)
  {
    DumpLoads(number, literal, jd);
  }
}
