/** Skill overlap, matched skills and matched bullets (`app/pipeline/match.py`). */
module Matching {
  import opened Basics

  /** Python's `needle in hay` on strings. */
  predicate Contains(hay: string, needle: string) {
    needle <= hay || (hay != "" && Contains(hay[1..], needle))
  }

  /** `str.lower` and the taxonomy lookup, neither of which is looked into. */
  datatype TextTools = TextTools(lower: string -> string, canonicalize: string -> string)

  function Canon(tools: TextTools, skill: string): string {
    tools.lower(tools.canonicalize(skill))
  }

  function CanonSet(tools: TextTools, skills: seq<string>): set<string> {
    set s | s in skills :: Canon(tools, s)
  }

  /** The share of the distinct canonical JD skills the candidate has; 1 when the JD lists none. */
  function SkillOverlap(tools: TextTools, candidate: seq<string>, jd: seq<string>): real {
    if jd == [] || CanonSet(tools, jd) == {} then 1.0
    else |CanonSet(tools, candidate) * CanonSet(tools, jd)| as real / |CanonSet(tools, jd)| as real
  }

  function IsMatched(tools: TextTools, candidate: seq<string>): string -> bool {
    s => Canon(tools, s) in CanonSet(tools, candidate)
  }

  function MatchedSkills(tools: TextTools, candidate: seq<string>, jd: seq<string>): seq<string> {
    Filter(jd, IsMatched(tools, candidate))
  }

  function Mentions(tools: TextTools, matched: seq<string>): string -> bool {
    bullet => exists s | s in matched :: Contains(tools.lower(bullet), tools.lower(s))
  }

  function FirstTen(xs: seq<string>): seq<string> {
    if |xs| <= 10 then xs else xs[..10]
  }

  function MatchedBullets(tools: TextTools, matched: seq<string>, bullets: seq<string>): seq<string> {
    FirstTen(Filter(bullets, Mentions(tools, matched)))
  }

  /** The loop over the bullets, and the cap that follows it. */
  method CollectMatchedBullets(tools: TextTools, matched: seq<string>, bullets: seq<string>) returns (r: seq<string>)
    ensures r == MatchedBullets(tools, matched, bullets)
  {
    var lowered := set s | s in matched :: tools.lower(s);
    var collected: seq<string> := [];
    for i := 0 to |bullets|
      invariant collected == Filter(bullets[..i], Mentions(tools, matched))
    {
      assert bullets[..i + 1] == bullets[..i] + [bullets[i]];
      FilterConcat(bullets[..i], [bullets[i]], Mentions(tools, matched));
      FilterOne(bullets[i], Mentions(tools, matched));
      if exists s | s in lowered :: Contains(tools.lower(bullets[i]), s) {
        collected := collected + [bullets[i]];
      }
    }
    assert bullets[..|bullets|] == bullets;
    r := if |collected| <= 10 then collected else collected[..10];
  }

  /** At most ten bullets; each one mentions a matched skill; when fewer than ten come back none was passed over. */
  lemma BulletsAreTheFirstMatches(tools: TextTools, matched: seq<string>, bullets: seq<string>)
    ensures
      var r := MatchedBullets(tools, matched, bullets);
      && |r| <= 10
      && r <= Filter(bullets, Mentions(tools, matched))
      && (forall b | b in r :: b in bullets && Mentions(tools, matched)(b))
      && (|r| < 10 ==> forall b | b in bullets && Mentions(tools, matched)(b) :: b in r)
  {
    FilterMembers(bullets, Mentions(tools, matched));
    var all := Filter(bullets, Mentions(tools, matched));
    forall b | b in FirstTen(all) ensures b in all {
      var i :| 0 <= i < |FirstTen(all)| && FirstTen(all)[i] == b;
      assert all[i] == b;
    }
  }

  lemma NonEmptySkills(tools: TextTools, jd: seq<string>)
    requires jd != []
    ensures |CanonSet(tools, jd)| > 0
  {
    assert jd[0] in jd;
    assert Canon(tools, jd[0]) in CanonSet(tools, jd);
  }

  /** The number of canonical JD skills times the overlap is the number of canonical forms among the matched skills. */
  lemma OverlapCountsMatchedSkills(tools: TextTools, candidate: seq<string>, jd: seq<string>)
    requires jd != []
    ensures SkillOverlap(tools, candidate, jd) * |CanonSet(tools, jd)| as real
         == |CanonSet(tools, MatchedSkills(tools, candidate, jd))| as real
  {
    NonEmptySkills(tools, jd);
    MatchedForms(tools, candidate, jd);
  }

  /** The canonical forms of the matched skills are exactly the shared ones. */
  lemma MatchedForms(tools: TextTools, candidate: seq<string>, jd: seq<string>)
    ensures CanonSet(tools, MatchedSkills(tools, candidate, jd)) == CanonSet(tools, candidate) * CanonSet(tools, jd)
  {
    FilterMembers(jd, IsMatched(tools, candidate));
    var matched := MatchedSkills(tools, candidate, jd);
    forall f | f in CanonSet(tools, candidate) * CanonSet(tools, jd) ensures f in CanonSet(tools, matched) {
      var s :| s in jd && Canon(tools, s) == f;
      assert IsMatched(tools, candidate)(s);
      assert s in matched;
    }
    forall f | f in CanonSet(tools, matched) ensures f in CanonSet(tools, candidate) * CanonSet(tools, jd) {
      var s :| s in matched && Canon(tools, s) == f;
      assert s in jd && IsMatched(tools, candidate)(s);
    }
  }

  /** Overlap 1 means every JD skill is matched, overlap 0 that none is. */
  lemma OverlapExtremes(tools: TextTools, candidate: seq<string>, jd: seq<string>)
    requires jd != []
    ensures SkillOverlap(tools, candidate, jd) == 1.0 <==> MatchedSkills(tools, candidate, jd) == jd
    ensures SkillOverlap(tools, candidate, jd) == 0.0 <==> MatchedSkills(tools, candidate, jd) == []
    ensures 0.0 <= SkillOverlap(tools, candidate, jd) <= 1.0
  {
    NonEmptySkills(tools, jd);
    var a, b := CanonSet(tools, candidate), CanonSet(tools, jd);
    SubsetSize(a * b, b);
    SharesOfWhole(|a * b|, |b|);
    AllMatched(tools, candidate, jd);
    NoneMatched(tools, candidate, jd);
  }

  lemma AllMatched(tools: TextTools, candidate: seq<string>, jd: seq<string>)
    ensures CanonSet(tools, candidate) * CanonSet(tools, jd) == CanonSet(tools, jd) <==>
            MatchedSkills(tools, candidate, jd) == jd
  {
    MatchedForms(tools, candidate, jd);
    if CanonSet(tools, candidate) * CanonSet(tools, jd) == CanonSet(tools, jd) {
      forall s | s in jd ensures IsMatched(tools, candidate)(s) {
        assert Canon(tools, s) in CanonSet(tools, jd);
      }
      FilterAll(jd, IsMatched(tools, candidate));
    }
  }

  lemma NoneMatched(tools: TextTools, candidate: seq<string>, jd: seq<string>)
    ensures CanonSet(tools, candidate) * CanonSet(tools, jd) == {} <==> MatchedSkills(tools, candidate, jd) == []
  {
    MatchedForms(tools, candidate, jd);
    if CanonSet(tools, candidate) * CanonSet(tools, jd) == {} {
      forall s | s in jd ensures !IsMatched(tools, candidate)(s) {
        assert Canon(tools, s) in CanonSet(tools, jd);
        assert Canon(tools, s) !in CanonSet(tools, candidate) * CanonSet(tools, jd);
      }
      FilterNone(jd, IsMatched(tools, candidate));
    }
  }

  lemma SharesOfWhole(n: nat, m: nat)
    requires n <= m && 0 < m
    ensures 0.0 <= n as real / m as real <= 1.0
    ensures n as real / m as real == 1.0 <==> n == m
    ensures n as real / m as real == 0.0 <==> n == 0
  {
  }

  lemma SubsetSize(a: set<string>, b: set<string>)
    requires a <= b
    ensures |a| <= |b| && (|a| == |b| <==> a == b)
  {
    assert b == a + (b - a);
  }

  ghost predicate SameSkills(a: seq<string>, b: seq<string>) {
    forall s :: s in a <==> s in b
  }

  /** Reordering or repeating skills on either side changes nothing. */
  lemma OverlapIgnoresOrder(tools: TextTools, c: seq<string>, c': seq<string>, jd: seq<string>, jd': seq<string>)
    requires SameSkills(c, c') && SameSkills(jd, jd')
    ensures SkillOverlap(tools, c, jd) == SkillOverlap(tools, c', jd')
  {
    assert CanonSet(tools, c) == CanonSet(tools, c');
    assert CanonSet(tools, jd) == CanonSet(tools, jd');
    assert jd == [] <==> jd' == [] by {
      assert jd != [] ==> jd[0] in jd;
      assert jd' != [] ==> jd'[0] in jd';
    }
  }

  ghost predicate MoreSkills(a: seq<string>, b: seq<string>) {
    forall s | s in a :: s in b
  }

  lemma OverlapMonotone(tools: TextTools, c: seq<string>, c': seq<string>, jd: seq<string>)
    requires MoreSkills(c, c')
    ensures SkillOverlap(tools, c, jd) <= SkillOverlap(tools, c', jd)
  {
    if jd != [] {
      NonEmptySkills(tools, jd);
      var b := CanonSet(tools, jd);
      SubsetSize(CanonSet(tools, c) * b, CanonSet(tools, c') * b);
      ShareMonotone(|CanonSet(tools, c) * b|, |CanonSet(tools, c') * b|, |b|);
    }
  }

  lemma ShareMonotone(n: nat, n': nat, m: nat)
    requires n <= n' && 0 < m
    ensures n as real / m as real <= n' as real / m as real
  {
  }

  // ---- The same in plain terms ----

  predicate Around(a: string, needle: string, b: string, hay: string) {
    hay == a + needle + b
  }

  /** Containing is having the needle somewhere between a beginning and an end. */
  lemma {:induction false} ContainsIff(hay: string, needle: string)
    ensures Contains(hay, needle) <==> exists a: string, b: string :: Around(a, needle, b, hay)
  {
    if needle <= hay {
      assert Around("", needle, hay[|needle|..], hay);
    } else if hay != "" {
      ContainsIff(hay[1..], needle);
      if a: string, b: string :| Around(a, needle, b, hay[1..]) {
        assert Around([hay[0]] + a, needle, b, hay);
      }
      if a: string, b: string :| Around(a, needle, b, hay) {
        assert a != "" by { assert a == "" ==> hay == needle + b; }
        assert Around(a[1..], needle, b, hay[1..]);
      }
    }
  }

  /** A JD skill is matched when a skill of the candidate has the same canonical form; the order is the JD's. */
  lemma MatchedIff(tools: TextTools, candidate: seq<string>, jd: seq<string>, more: seq<string>, s: string)
    ensures s in MatchedSkills(tools, candidate, jd) <==>
            && s in jd
            && exists own | own in candidate ::
                 tools.lower(tools.canonicalize(own)) == tools.lower(tools.canonicalize(s))
    ensures MatchedSkills(tools, candidate, jd + more)
         == MatchedSkills(tools, candidate, jd) + MatchedSkills(tools, candidate, more)
    ensures MatchedSkills(tools, candidate, [s])
         == if s in MatchedSkills(tools, candidate, [s]) then [s] else []
  {
    FilterMembers(jd, IsMatched(tools, candidate));
    FilterConcat(jd, more, IsMatched(tools, candidate));
    FilterOne(s, IsMatched(tools, candidate));
  }

  /** The overlap of two sets of lower-case canonical forms; 1 when the JD lists no skill. */
  lemma OverlapIs(tools: TextTools, candidate: seq<string>, jd: seq<string>, own: set<string>, wanted: set<string>)
    requires forall f :: f in own <==> exists s | s in candidate :: tools.lower(tools.canonicalize(s)) == f
    requires forall f :: f in wanted <==> exists s | s in jd :: tools.lower(tools.canonicalize(s)) == f
    ensures jd == [] ==> SkillOverlap(tools, candidate, jd) == 1.0
    ensures jd != [] ==> SkillOverlap(tools, candidate, jd) * |wanted| as real == |own * wanted| as real && |wanted| > 0
  {
    assert CanonSet(tools, candidate) == own && CanonSet(tools, jd) == wanted;
    if jd != [] {
      NonEmptySkills(tools, jd);
    }
  }

  /** A bullet comes back only if its lower-case text contains a matched skill in lower case; below ten all such do. */
  lemma BulletsMention(tools: TextTools, matched: seq<string>, bullets: seq<string>, b: string)
    ensures
      var r := MatchedBullets(tools, matched, bullets);
      var mentions := exists s | s in matched :: Contains(tools.lower(b), tools.lower(s));
      && (b in r ==> b in bullets && mentions)
      && (|r| < 10 && b in bullets && mentions ==> b in r)
  {
    BulletsAreTheFirstMatches(tools, matched, bullets);
  }
}
