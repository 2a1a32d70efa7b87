/**
 * The keyword-overlap engine, `SimpleCourseRAGSystem`: the lower-cased course
 * text, the overlap score with its phrase bonus, the ranked search and the
 * recommendations built on it. The engine's only state is its course list,
 * loaded once and never changed, so it is passed to each operation.
 */
module LexicalSearch {
  import opened Wrappers
  import opened Text
  import opened Sorting
  import opened Catalogue
  import opened Recommendation

  /** `create_course_text`: the searchable text of a course, lower-cased. */
  function CourseText(c: Course): string
  {
    Lower(Join(" ", TextParts(c)))
  }

  /**
   * The lower-cased course text is the six fields, each lower-cased, in fixed order,
   * separated by single spaces.
   */
  lemma CourseTextLayout(c: Course)
    ensures CourseText(c)
         == Lower(c.title) + " " + Lower(c.description) + " " + Lower(c.category) + " "
          + Lower(c.difficulty) + " " + Lower(Join(" ", c.skills)) + " " + Lower(c.prerequisites)
  {
    LowerJoin(" ", TextParts(c));
    assert Lower(" ") == " ";
    var lc := c.(title := Lower(c.title), description := Lower(c.description),
                 category := Lower(c.category), difficulty := Lower(c.difficulty),
                 skills := [Lower(Join(" ", c.skills))], prerequisites := Lower(c.prerequisites));
    assert LowerAll(TextParts(c)) == TextParts(lc);
    TextLayout(lc);
  }

  /** The word tokens of the lower-cased query. */
  function QueryWords(query: string): set<string>
  {
    Tokens(Lower(query))
  }

  /** `len(common_words) / len(query_words)`: the fraction of query tokens found in the text. */
  function Overlap(query: string, courseText: string): (r: real)
    requires QueryWords(query) != {}
    ensures 0.0 <= r <= 1.0
  {
    var qw, cw := QueryWords(query), Tokens(Lower(courseText));
    assert qw * cw <= qw;
    SubsetCard(qw * cw, qw);
    (|qw * cw| as real) / (|qw| as real)
  }

  lemma SubsetCard(a: set<string>, b: set<string>)
    requires a <= b
    ensures |a| <= |b|
  {
    assert b == a + (b - a);
  }

  /** `simple_search_score` */
  function Score(query: string, courseText: string): (r: real)
    ensures 0.0 <= r <= 1.0
  {
    if QueryWords(query) == {} then 0.0
    else
      var base := Overlap(query, courseText);
      var boosted := if Contains(Lower(courseText), Lower(query)) then base + 0.3 else base;
      if boosted <= 1.0 then boosted else 1.0
  }

  /** A query without any `\w` character scores 0 against every text. */
  lemma ScoreWithoutWords(query: string, courseText: string)
    requires forall i :: 0 <= i < |query| ==> !IsWordChar(query[i])
    ensures Score(query, courseText) == 0.0
  {
    NoWordCharsAfterLower(query);
    WordsEmptyIff(Lower(query));
  }

  /**
   * The phrase bonus: when the lower-cased query occurs in the lower-cased text the
   * score is the overlap plus 0.3, capped at 1.0, and at least 0.3; otherwise it is
   * the overlap alone.
   */
  lemma ScorePhraseBonus(query: string, courseText: string)
    requires QueryWords(query) != {}
    ensures Contains(Lower(courseText), Lower(query)) ==>
              Score(query, courseText) >= 0.3
              && Score(query, courseText)
                 == (if Overlap(query, courseText) + 0.3 <= 1.0 then Overlap(query, courseText) + 0.3 else 1.0)
    ensures !Contains(Lower(courseText), Lower(query)) ==>
              Score(query, courseText) == Overlap(query, courseText)
  {
  }

  /** A course scores above 0 exactly when the query has a token and shares one with it or occurs in it. */
  lemma ScorePositiveIff(query: string, courseText: string)
    ensures Score(query, courseText) > 0.0
        <==> QueryWords(query) != {}
             && (QueryWords(query) * Tokens(Lower(courseText)) != {}
                 || Contains(Lower(courseText), Lower(query)))
  {
    if QueryWords(query) != {} && QueryWords(query) * Tokens(Lower(courseText)) != {} {
      var qw, cw := QueryWords(query), Tokens(Lower(courseText));
      var w :| w in qw * cw;
      assert |qw * cw| >= 1 by { assert {w} <= qw * cw; SubsetCard({w}, qw * cw); }
    }
  }

  /** When every query token occurs in the text the score is the full 1.0. */
  lemma ScoreAllWordsFound(query: string, courseText: string)
    requires QueryWords(query) != {}
    requires QueryWords(query) <= Tokens(Lower(courseText))
    ensures Score(query, courseText) == 1.0
  {
    var qw := QueryWords(query);
    assert qw * Tokens(Lower(courseText)) == qw;
    assert Overlap(query, courseText) == (|qw| as real) / (|qw| as real) == 1.0;
  }

  /** A partial word still earns the phrase bonus: "pyth" against "python" scores 0.3. */
  lemma PartialWordScore()
    ensures Score("pyth", "python") == 0.3
  {
    PartialWordTokens();
    PartialWordOccurs();
    assert Overlap("pyth", "python") == 0.0 by {
      assert QueryWords("pyth") * Tokens(Lower("python")) == {};
    }
  }

  /** "pyth" and "python" are one token each, and different ones. */
  lemma PartialWordTokens()
    ensures QueryWords("pyth") == {"pyth"}
    ensures Tokens(Lower("python")) == {"python"}
    ensures QueryWords("pyth") * Tokens(Lower("python")) == {}
  {
    assert Lower("pyth") == "pyth";
    SingleWord("pyth");
    assert Lower("python") == "python";
    SingleWord("python");
    assert "pyth" != "python" by { assert |"pyth"| != |"python"|; }
  }

  /** The lower-cased "pyth" occurs in the lower-cased "python". */
  lemma PartialWordOccurs()
    ensures Contains(Lower("python"), Lower("pyth"))
  {
    assert Lower("python") == "python" && Lower("pyth") == "pyth";
    assert StartsWith("python", "pyth") by { assert "python"[..4] == "pyth"; }
  }

  /** A course copy carrying its score and no rank yet. */
  function Scored(c: Course, query: string): Result
  {
    Result(c, Score(query, CourseText(c)), None)
  }

  /** The scored copies of the courses with a positive score, in catalogue order. */
  function Candidates(courses: seq<Course>, query: string): seq<Result>
  {
    if courses == [] then []
    else
      var init, last := courses[..|courses| - 1], courses[|courses| - 1];
      Candidates(init, query) + (if Score(query, CourseText(last)) > 0.0 then [Scored(last, query)] else [])
  }

  /**
   * The collected copies are exactly the scored copies of the catalogue courses with
   * a positive score, none missed, each with no rank yet.
   */
  lemma {:induction false} CandidatesFacts(courses: seq<Course>, query: string)
    ensures var r := Candidates(courses, query);
            && |r| <= |courses|
            && (forall i :: 0 <= i < |r| ==>
                  r[i].rank == None && r[i].score > 0.0 && r[i].course in courses
                  && r[i] == Scored(r[i].course, query))
            && (forall c :: c in courses && Score(query, CourseText(c)) > 0.0 ==> Scored(c, query) in r)
  {
    if courses != [] {
      var init, last := courses[..|courses| - 1], courses[|courses| - 1];
      assert courses == init + [last];
      CandidatesFacts(init, query);
      var ci := Candidates(init, query);
      var tail := if Score(query, CourseText(last)) > 0.0 then [Scored(last, query)] else [];
      assert Candidates(courses, query) == ci + tail;
      forall c | c in courses && Score(query, CourseText(c)) > 0.0
        ensures Scored(c, query) in ci + tail
      {
        if c != last {
          assert c in init;
        }
      }
    }
  }

  lemma CandidatesSnoc(cs: seq<Course>, c: Course, query: string)
    ensures Candidates(cs + [c], query)
         == Candidates(cs, query) + (if Score(query, CourseText(c)) > 0.0 then [Scored(c, query)] else [])
  {
    assert (cs + [c])[..|cs|] == cs;
  }

  /** Collecting keeps catalogue order: it distributes over concatenation of catalogues. */
  lemma {:induction false} CandidatesAppend(a: seq<Course>, b: seq<Course>, query: string)
    ensures Candidates(a + b, query) == Candidates(a, query) + Candidates(b, query)
  {
    if b == [] {
      assert a + b == a;
    } else {
      var init, last := b[..|b| - 1], b[|b| - 1];
      var tail := if Score(query, CourseText(last)) > 0.0 then [Scored(last, query)] else [];
      assert b == init + [last];
      assert a + b == (a + init) + [last];
      var ca, ci := Candidates(a, query), Candidates(init, query);
      calc {
        Candidates(a + b, query);
        Candidates((a + init) + [last], query);
        { CandidatesSnoc(a + init, last, query); }
        Candidates(a + init, query) + tail;
        { CandidatesAppend(a, init, query); }
        (ca + ci) + tail;
        ca + (ci + tail);
        { CandidatesSnoc(init, last, query); }
        ca + Candidates(b, query);
      }
    }
  }

  /** A single course is collected exactly when it scores above 0. */
  lemma CandidatesOne(c: Course, query: string)
    ensures Candidates([c], query) == if Score(query, CourseText(c)) > 0.0 then [Scored(c, query)] else []
  {
    assert [c][..0] == [];
  }

  /** The same list with `rank` set to 1, 2, ... in list order. */
  function WithRanks(rs: seq<Result>): (r: seq<Result>)
    ensures |r| == |rs|
    ensures forall i :: 0 <= i < |rs| ==>
              r[i].course == rs[i].course && r[i].score == rs[i].score && r[i].rank == Some(i + 1)
  {
    seq(|rs|, i requires 0 <= i < |rs| => rs[i].(rank := Some(i + 1)))
  }

  /** What `search_courses` returns: the top `topK` candidates by descending score, ranked. */
  function SearchResult(courses: seq<Course>, query: string, topK: nat): seq<Result>
  {
    WithRanks(Take(SortDesc(Candidates(courses, query), ScoreOf), topK))
  }

  /** The results hold at most `topK` entries, ranked 1..n in list order. */
  lemma SearchRanked(courses: seq<Course>, query: string, topK: nat)
    ensures |SearchResult(courses, query, topK)| <= topK
    ensures forall i :: 0 <= i < |SearchResult(courses, query, topK)| ==>
              SearchResult(courses, query, topK)[i].rank == Some(i + 1)
  {
  }

  /** Every result is a catalogue course with a positive score, carrying its own score. */
  lemma SearchScored(courses: seq<Course>, query: string, topK: nat)
    ensures forall i :: 0 <= i < |SearchResult(courses, query, topK)| ==>
              var r := SearchResult(courses, query, topK)[i];
              r.course in courses && r.score > 0.0 && r.score == Score(query, CourseText(r.course))
  {
    var cs := Candidates(courses, query);
    CandidatesFacts(courses, query);
    SortDescPermutes(cs, ScoreOf);
    var top := Take(SortDesc(cs, ScoreOf), topK);
    forall i | 0 <= i < |top|
      ensures top[i].course in courses && top[i].score > 0.0
              && top[i].score == Score(query, CourseText(top[i].course))
    {
      assert top[i] in multiset(cs);
    }
  }

  /** The results are ordered by non-increasing score. */
  lemma SearchSorted(courses: seq<Course>, query: string, topK: nat)
    ensures SortedDesc(SearchResult(courses, query, topK), ScoreOf)
  {
    var cs := Candidates(courses, query);
    SortDescPermutes(cs, ScoreOf);
    var top := Take(SortDesc(cs, ScoreOf), topK);
    assert SortedDesc(top, ScoreOf);
  }

  /** The rank loop of `search_courses`: writes `rank = i + 1` into each of the first `topK` entries and keeps those. */
  method RankTop(rs: seq<Result>, topK: nat) returns (ranked: seq<Result>)
    ensures ranked == WithRanks(Take(rs, topK))
  {
    ranked := rs;
    var n := if topK < |rs| then topK else |rs|;
    for i := 0 to n
      invariant |ranked| == |rs|
      invariant forall j :: 0 <= j < i ==> ranked[j] == rs[j].(rank := Some(j + 1))
      invariant forall j :: i <= j < |rs| ==> ranked[j] == rs[j]
    {
      ranked := ranked[i := ranked[i].(rank := Some(i + 1))];
    }
    ranked := ranked[..n];
  }

  /** `search_courses` */
  method SearchCourses(courses: seq<Course>, query: string, topK: nat) returns (results: seq<Result>)
    ensures results == SearchResult(courses, query, topK)
    ensures |results| <= topK
    ensures forall i :: 0 <= i < |results| ==> results[i].rank == Some(i + 1)
    ensures forall i :: 0 <= i < |results| ==>
              results[i].course in courses && results[i].score > 0.0
              && results[i].score == Score(query, CourseText(results[i].course))
    ensures SortedDesc(results, ScoreOf)
  {
    results := [];
    for i := 0 to |courses|
      invariant results == Candidates(courses[..i], query)
    {
      assert courses[..i + 1][..i] == courses[..i];
      var score := Score(query, CourseText(courses[i]));
      if score > 0.0 {
        results := results + [Result(courses[i], score, None)];
      }
    }
    assert courses[..|courses|] == courses;
    results := SortDesc(results, ScoreOf);
    results := RankTop(results, topK);
    SearchRanked(courses, query, topK);
    SearchScored(courses, query, topK);
    SearchSorted(courses, query, topK);
  }

  /** A query without any `\w` character finds nothing. */
  lemma SearchWithoutWords(courses: seq<Course>, query: string, topK: nat)
    requires forall i :: 0 <= i < |query| ==> !IsWordChar(query[i])
    ensures SearchResult(courses, query, topK) == []
  {
    var cs := Candidates(courses, query);
    CandidatesFacts(courses, query);
    if cs != [] {
      ScoreWithoutWords(query, CourseText(cs[0].course));
    }
  }

  function Unranked(rs: seq<Result>): (r: seq<Result>)
    ensures |r| == |rs|
    ensures forall i :: 0 <= i < |rs| ==> r[i] == rs[i].(rank := None)
  {
    seq(|rs|, i requires 0 <= i < |rs| => rs[i].(rank := None))
  }

  /**
   * Ties keep catalogue order: for any score `v`, the results scoring `v` are, in
   * order, the first courses of the catalogue that score `v`.
   */
  lemma SearchTiesInCatalogueOrder(courses: seq<Course>, query: string, topK: nat, v: real)
    ensures var tied := WithKey(Unranked(SearchResult(courses, query, topK)), ScoreOf, v);
            var all := WithKey(Candidates(courses, query), ScoreOf, v);
            |tied| <= |all| && tied == all[..|tied|]
  {
    var cs := Candidates(courses, query);
    CandidatesFacts(courses, query);
    var sorted := SortDesc(cs, ScoreOf);
    var top := Take(sorted, topK);
    assert Unranked(SearchResult(courses, query, topK)) == top by {
      SortDescPermutes(cs, ScoreOf);
      forall i | 0 <= i < |top| ensures top[i].rank == None {
        assert top[i] in multiset(cs);
      }
    }
    WithKeyTake(sorted, topK, ScoreOf, v);
    SortDescStable(cs, ScoreOf, v);
  }

  /** Fewer than `topK` results means every course with a positive score was returned. */
  lemma SearchComplete(courses: seq<Course>, query: string, topK: nat, c: Course)
    requires |SearchResult(courses, query, topK)| < topK
    requires c in courses && Score(query, CourseText(c)) > 0.0
    ensures exists i :: 0 <= i < |SearchResult(courses, query, topK)|
                        && SearchResult(courses, query, topK)[i].course == c
  {
    var cs := Candidates(courses, query);
    CandidatesFacts(courses, query);
    var sorted := SortDesc(cs, ScoreOf);
    SortDescPermutes(cs, ScoreOf);
    assert Scored(c, query) in multiset(sorted);
    var k :| 0 <= k < |sorted| && sorted[k] == Scored(c, query);
    assert SearchResult(courses, query, topK)[k].course == c;
  }

  /**
   * The results are the best: a course with a positive score that was not returned
   * scores no higher than any returned course.
   */
  lemma SearchTopK(courses: seq<Course>, query: string, topK: nat, c: Course)
    requires c in courses && Score(query, CourseText(c)) > 0.0
    requires forall i :: 0 <= i < |SearchResult(courses, query, topK)| ==>
               SearchResult(courses, query, topK)[i].course != c
    ensures forall i :: 0 <= i < |SearchResult(courses, query, topK)| ==>
              SearchResult(courses, query, topK)[i].score >= Score(query, CourseText(c))
  {
    var cs := Candidates(courses, query);
    CandidatesFacts(courses, query);
    var sorted := SortDesc(cs, ScoreOf);
    SortDescPermutes(cs, ScoreOf);
    assert Scored(c, query) in multiset(sorted);
    var k :| 0 <= k < |sorted| && sorted[k] == Scored(c, query);
    var top := Take(sorted, topK);
    var res := SearchResult(courses, query, topK);
    if k < |top| {
      assert false;
    }
    forall i | 0 <= i < |res| ensures res[i].score >= Score(query, CourseText(c)) {
      assert res[i].score == sorted[i].score;
    }
  }

  /** `get_recommendations` over the keyword engine. */
  method GetRecommendations(courses: seq<Course>, interests: string, background: string,
                            level: string, topK: nat) returns (recs: seq<Result>)
    ensures recs == Compose(SearchResult(courses, BuildQuery(interests, background, level), 2 * topK), level, topK)
    ensures |recs| <= topK
    ensures IsRecognisedLevel(level) ==>
              forall x :: x in recs ==> Lower(x.course.difficulty) == Lower(level)
    ensures forall x :: x in recs ==> x.course in courses && x.score > 0.0
    ensures SortedDesc(recs, ScoreOf)
  {
    var query := BuildQuery(interests, background, level);
    var candidates := SearchCourses(courses, query, 2 * topK);
    recs := Compose(candidates, level, topK);
  }
}
