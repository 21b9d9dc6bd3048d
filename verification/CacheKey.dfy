/** `_cache_key` of the worker: what the SHA-256 digest is taken of, and why it identifies the four inputs. */
module CacheKey {
  import opened JsonText
  import JsonEquality
  import JsonLexing

  /** What one evaluation depends on: the resume text and the job's three JSON columns. */
  datatype Inputs = Inputs(resumeText: string, jd: Json, weights: Json, thresholds: Json)

  predicate Valid(k: Inputs) {
    && k.jd.Obj? && k.weights.Obj? && k.thresholds.Obj?
    && WellFormed(k.jd) && WellFormed(k.weights) && WellFormed(k.thresholds)
  }

  /** The string that is hashed: four parts, no separator. */
  function Payload(k: Inputs): string {
    k.resumeText + Dumps(k.jd) + Dumps(k.weights) + Dumps(k.thresholds)
  }

  /** Equal in all four components, with key order playing no part. */
  ghost predicate SameInputs(k: Inputs, l: Inputs) {
    && k.resumeText == l.resumeText
    && Equal(k.jd, l.jd) && Equal(k.weights, l.weights) && Equal(k.thresholds, l.thresholds)
  }

  /** A text ending in an object text can be split in one place only. */
  lemma LastObjectDecodes(p: string, v: Json, q: string, w: Json)
    requires v.Obj? && w.Obj? && WellFormed(v) && WellFormed(w)
    requires p + Dumps(v) == q + Dumps(w)
    ensures p == q && Dumps(v) == Dumps(w)
  {
    if |p| <= |q| {
      var middle := SplitLonger(p, Dumps(v), q, Dumps(w));
      JsonLexing.NoProperSuffix(v.fields, w.fields, middle);
    } else {
      var middle := SplitLonger(q, Dumps(w), p, Dumps(v));
      JsonLexing.NoProperSuffix(w.fields, v.fields, middle);
    }
  }

  lemma SplitLonger(p: string, a: string, q: string, b: string) returns (middle: string)
    requires |p| <= |q| && p + a == q + b
    ensures q == p + middle && a == middle + b
  {
    middle := q[|p|..];
    assert (p + a)[..|p|] == p && (q + b)[..|p|] == q[..|p|];
    assert (p + a)[|p|..] == a && (q + b)[|p|..] == middle + b;
  }

  /** The payload is uniquely decodable: it is shared exactly by inputs that are equal in all four components. */
  lemma PayloadIdentifiesInputs(k: Inputs, l: Inputs)
    requires Valid(k) && Valid(l)
    ensures Payload(k) == Payload(l) <==> SameInputs(k, l)
  {
    JsonEquality.SameTextIffEqual(k.jd, l.jd);
    JsonEquality.SameTextIffEqual(k.weights, l.weights);
    JsonEquality.SameTextIffEqual(k.thresholds, l.thresholds);
    if Payload(k) == Payload(l) {
      LastObjectDecodes(k.resumeText + Dumps(k.jd) + Dumps(k.weights), k.thresholds,
                        l.resumeText + Dumps(l.jd) + Dumps(l.weights), l.thresholds);
      LastObjectDecodes(k.resumeText + Dumps(k.jd), k.weights, l.resumeText + Dumps(l.jd), l.weights);
      LastObjectDecodes(k.resumeText, k.jd, l.resumeText, l.jd);
    }
  }

  /** The four parts follow each other in this order. */
  lemma PayloadLayout(k: Inputs)
    ensures
      var p, a, b, c := Payload(k), |k.resumeText|, |Dumps(k.jd)|, |Dumps(k.weights)|;
      && |p| == a + b + c + |Dumps(k.thresholds)|
      && p[..a] == k.resumeText && p[a..a + b] == Dumps(k.jd)
      && p[a + b..a + b + c] == Dumps(k.weights) && p[a + b + c..] == Dumps(k.thresholds)
  {
  }
}
