/**
 * The recommendation layer of `get_recommendations`, common to both engines:
 * the profile query, and the skill-level hard filter with truncation applied to
 * the over-fetched search results.
 */
module Recommendation {
  import opened Text
  import opened Sorting
  import opened Catalogue

  /** `' '.join(query_parts)` with interests always first, then background and level if non-empty. */
  function BuildQuery(interests: string, background: string, level: string): string
  {
    Join(" ", [interests] + (if background != "" then [background] else [])
                          + (if level != "" then [level] else []))
  }

  lemma QueryLayout(interests: string, background: string, level: string)
    ensures BuildQuery(interests, background, level)
         == interests + (if background != "" then " " + background else "")
                      + (if level != "" then " " + level else "")
  {
    var parts := [interests] + (if background != "" then [background] else [])
                             + (if level != "" then [level] else []);
    if background != "" && level != "" {
      assert parts == [interests, background, level];
      assert parts[1..] == [background, level];
      assert parts[1..][1..] == [level];
      assert Join(" ", [background, level]) == background + " " + level by {
        assert [background, level][1..] == [level];
      }
      assert Join(" ", parts) == interests + " " + (background + " " + level);
    } else if background != "" {
      assert parts == [interests, background];
      assert parts[1..] == [background];
      assert Join(" ", parts) == interests + " " + background;
    } else if level != "" {
      assert parts == [interests, level];
      assert parts[1..] == [level];
      assert Join(" ", parts) == interests + " " + level;
      assert interests + "" + (" " + level) == interests + " " + level;
    } else {
      assert parts == [interests];
      assert interests + "" + "" == interests;
    }
  }

  /** `skill_level and skill_level.lower() in ['beginner', 'intermediate', 'advanced']` */
  predicate IsRecognisedLevel(level: string)
  {
    level != "" && Lower(level) in ["beginner", "intermediate", "advanced"]
  }

  /** `[course for course in rs if course['difficulty'].lower() == level.lower()]` */
  function AtLevel(rs: seq<Result>, level: string): (r: seq<Result>)
    ensures forall x :: x in r <==> x in rs && Lower(x.course.difficulty) == Lower(level)
    ensures SortedDesc(rs, ScoreOf) ==> SortedDesc(r, ScoreOf)
  {
    if rs == [] then []
    else
      var rest := AtLevel(rs[1..], level);
      SortedStep(rs, rest, ScoreOf);
      (if Lower(rs[0].course.difficulty) == Lower(level) then [rs[0]] else []) + rest
  }

  /**
   * The tail of `get_recommendations` after the search: a recognised skill level
   * drops every candidate of another difficulty, then the first `topK` are kept.
   */
  function Compose(candidates: seq<Result>, level: string, topK: nat): (r: seq<Result>)
    ensures |r| <= topK
    ensures forall x :: x in r ==> x in candidates
    ensures IsRecognisedLevel(level) ==>
              forall x :: x in r ==> Lower(x.course.difficulty) == Lower(level)
    ensures !IsRecognisedLevel(level) ==> r == Take(candidates, topK)
    ensures SortedDesc(candidates, ScoreOf) ==> SortedDesc(r, ScoreOf)
    ensures IsRecognisedLevel(level) ==> r == Take(AtLevel(candidates, level), topK)
    ensures IsRecognisedLevel(level) && |r| < topK ==>
              forall x :: x in candidates && Lower(x.course.difficulty) == Lower(level) ==> x in r
  {
    var kept := if IsRecognisedLevel(level) then AtLevel(candidates, level) else candidates;
    assert forall i :: 0 <= i < |Take(kept, topK)| ==> Take(kept, topK)[i] in kept;
    Take(kept, topK)
  }

  /** The level filter keeps the order of its input: it distributes over concatenation. */
  lemma {:induction false} AtLevelAppend(a: seq<Result>, b: seq<Result>, level: string)
    ensures AtLevel(a + b, level) == AtLevel(a, level) + AtLevel(b, level)
  {
    if a == [] {
      assert a + b == b;
    } else {
      assert (a + b)[0] == a[0];
      assert (a + b)[1..] == a[1..] + b;
      AtLevelAppend(a[1..], b, level);
    }
  }

  /** On one result the level filter keeps it exactly when its difficulty matches. */
  lemma AtLevelOne(x: Result, level: string)
    ensures AtLevel([x], level) == if Lower(x.course.difficulty) == Lower(level) then [x] else []
  {
    assert [x][1..] == [];
  }

  /**
   * Under a recognised level, over score-ordered candidates, no candidate of that
   * level that was dropped scores above one that was kept.
   */
  lemma ComposeKeepsBest(candidates: seq<Result>, level: string, topK: nat)
    requires IsRecognisedLevel(level) && SortedDesc(candidates, ScoreOf)
    ensures forall x, i :: x in candidates && Lower(x.course.difficulty) == Lower(level)
                           && x !in Compose(candidates, level, topK)
                           && 0 <= i < |Compose(candidates, level, topK)| ==>
              Compose(candidates, level, topK)[i].score >= x.score
  {
    var kept := AtLevel(candidates, level);
    var r := Compose(candidates, level, topK);
    forall x, i | x in candidates && Lower(x.course.difficulty) == Lower(level) && x !in r && 0 <= i < |r|
      ensures r[i].score >= x.score
    {
      var k :| 0 <= k < |kept| && kept[k] == x;
      assert k >= |r|;
      assert r[i] == kept[i];
    }
  }
}
