/**
 * The embedding engine, `CourseRAGSystem`. Encoding and the nearest-neighbour
 * index are outside the model: they are the parameter `index`, which maps a query
 * and a count `k` to the `(score, idx)` pairs the index returns, or to `None` when
 * encoding or the index search raised. What is modelled is how that output
 * becomes the result list.
 */
module EmbeddingSearch {
  import opened Wrappers
  import opened Text
  import opened Catalogue
  import opened Recommendation
  import LexicalSearch

  /** `create_course_text`: the searchable text of a course, case preserved. */
  function CourseText(c: Course): (t: string)
    ensures t == c.title + " " + c.description + " " + c.category + " " + c.difficulty + " "
               + Join(" ", c.skills) + " " + c.prerequisites
  {
    TextLayout(c);
    Join(" ", TextParts(c))
  }

  /** The keyword engine's text is exactly this text lower-cased. */
  lemma LowerCaseTextsAgree(c: Course)
    ensures Lower(CourseText(c)) == LexicalSearch.CourseText(c)
  {
  }

  /** One `(score, idx)` pair of the index output. */
  datatype Hit = Hit(score: real, idx: int)

  // ---------------------------------------------------------------------------
  // The assembly loop as written: the guard is only `idx < len(courses)`.
  // ---------------------------------------------------------------------------

  /** `courses[idx]` with Python's negative indexing, for an index Python accepts. */
  function PyIndex(n: nat, idx: int): (k: nat)
    requires -(n as int) <= idx < n
    ensures k < n
  {
    if idx >= 0 then idx else n + idx
  }

  /** Whether some pair passes the guard but is below `-len(courses)`: `courses[idx]` raises. */
  predicate RaisesIndexError(courses: seq<Course>, hits: seq<Hit>)
  {
    exists i :: 0 <= i < |hits| && hits[i].idx < -|courses|
  }

  function GatherAsWritten(courses: seq<Course>, hits: seq<Hit>): seq<Result>
    requires !RaisesIndexError(courses, hits)
  {
    if hits == [] then []
    else
      var i, h := |hits| - 1, hits[|hits| - 1];
      assert !RaisesIndexError(courses, hits[..i]) by {
        assert forall j :: 0 <= j < i ==> hits[..i][j] == hits[j];
      }
      GatherAsWritten(courses, hits[..i])
        + (if h.idx < |courses| then [Result(courses[PyIndex(|courses|, h.idx)], h.score, Some(i + 1))] else [])
  }

  /** The result of lines 112-124 as written; an `IndexError` is caught and yields `[]`. */
  function AssembledAsWritten(courses: seq<Course>, hits: seq<Hit>): seq<Result>
  {
    if RaisesIndexError(courses, hits) then [] else GatherAsWritten(courses, hits)
  }

  method AssembleAsWritten(courses: seq<Course>, hits: seq<Hit>) returns (results: seq<Result>)
    ensures results == AssembledAsWritten(courses, hits)
  {
    results := [];
    for i := 0 to |hits|
      invariant !RaisesIndexError(courses, hits[..i])
      invariant results == GatherAsWritten(courses, hits[..i])
    {
      var h := hits[i];
      assert hits[..i + 1][..i] == hits[..i];
      if h.idx < |courses| {
        if h.idx < -|courses| {
          return [];
        }
        var course := courses[if h.idx >= 0 then h.idx else |courses| + h.idx];
        results := results + [Result(course, h.score, Some(i + 1))];
      }
      assert !RaisesIndexError(courses, hits[..i + 1]) by {
        assert forall j :: 0 <= j < i + 1 ==> hits[..i + 1][j] == hits[j];
      }
    }
    assert hits[..|hits|] == hits;
  }

  /**
   * The index's "no neighbour" sentinel -1 passes the guard and, through negative
   * indexing, returns the last course of the catalogue with rank 1; the corrected
   * assembly returns nothing for it.
   */
  lemma SentinelSelectsLastCourse(courses: seq<Course>, score: real)
    requires courses != []
    ensures AssembledAsWritten(courses, [Hit(score, -1)])
         == [Result(courses[|courses| - 1], score, Some(1))]
    ensures Assembled(courses, [Hit(score, -1)]) == []
  {
    var hits := [Hit(score, -1)];
    assert hits[..0] == [];
    assert !RaisesIndexError(courses, hits);
    assert PyIndex(|courses|, -1) == |courses| - 1;
    assert GatherAsWritten(courses, hits)
        == GatherAsWritten(courses, []) + [Result(courses[|courses| - 1], score, Some(1))];
  }

  /**
   * On index output without negative positions, the loop as written and the
   * corrected one agree: they differ only where a negative position passes the guard.
   */
  lemma {:induction false} AsWrittenAgreesWithoutNegatives(courses: seq<Course>, hits: seq<Hit>)
    requires forall i :: 0 <= i < |hits| ==> hits[i].idx >= 0
    ensures AssembledAsWritten(courses, hits) == Assembled(courses, hits)
  {
    assert !RaisesIndexError(courses, hits);
    if hits != [] {
      var i, h := |hits| - 1, hits[|hits| - 1];
      var init := hits[..i];
      assert forall j :: 0 <= j < i ==> init[j] == hits[j];
      AsWrittenAgreesWithoutNegatives(courses, init);
      assert !RaisesIndexError(courses, init);
      var tail := if Names(courses, h) then [Result(courses[h.idx], h.score, Some(i + 1))] else [];
      assert GatherAsWritten(courses, hits) == GatherAsWritten(courses, init) + tail by {
        if h.idx < |courses| {
          assert PyIndex(|courses|, h.idx) == h.idx;
        }
      }
      assert Assembled(courses, hits) == Assembled(courses, init) + tail;
    }
  }

  // ---------------------------------------------------------------------------
  // The corrected assembly: pairs outside 0 <= idx < len(courses) are skipped.
  // ---------------------------------------------------------------------------

  /** Whether an index position names a course. */
  predicate Names(courses: seq<Course>, h: Hit)
  {
    0 <= h.idx < |courses|
  }

  /** The result the pair at position `i` of the index output stands for. */
  function HitResult(courses: seq<Course>, hits: seq<Hit>, i: nat): Result
    requires i < |hits| && Names(courses, hits[i])
  {
    Result(courses[hits[i].idx], hits[i].score, Some(i + 1))
  }

  /**
   * The results the index output stands for: one per pair naming a course, in
   * index order.
   */
  function Assembled(courses: seq<Course>, hits: seq<Hit>): (r: seq<Result>)
    ensures |r| <= |hits|
  {
    if hits == [] then []
    else
      var i := |hits| - 1;
      Assembled(courses, hits[..i]) + (if Names(courses, hits[i]) then [HitResult(courses, hits, i)] else [])
  }

  /**
   * Each result is a copy of the course a pair names, with the pair's score and
   * ranked by the pair's position.
   */
  lemma {:induction false} AssembledEntries(courses: seq<Course>, hits: seq<Hit>)
    ensures forall k :: 0 <= k < |Assembled(courses, hits)| ==>
              var x := Assembled(courses, hits)[k];
              x.rank.Some? && 1 <= x.rank.value <= |hits|
              && Names(courses, hits[x.rank.value - 1])
              && x == HitResult(courses, hits, x.rank.value - 1)
  {
    if hits != [] {
      var i := |hits| - 1;
      var init := hits[..i];
      var rest := Assembled(courses, init);
      var tail := if Names(courses, hits[i]) then [HitResult(courses, hits, i)] else [];
      AssembledEntries(courses, init);
      var r := rest + tail;
      assert Assembled(courses, hits) == r;
      forall k | 0 <= k < |r|
        ensures r[k].rank.Some? && 1 <= r[k].rank.value <= |hits|
                && Names(courses, hits[r[k].rank.value - 1])
                && r[k] == HitResult(courses, hits, r[k].rank.value - 1)
      {
        if k < |rest| {
          assert r[k] == rest[k];
          var j := rest[k].rank.value - 1;
          assert 0 <= j < |init| && Names(courses, init[j]) && rest[k] == HitResult(courses, init, j);
          assert init[j] == hits[j];
        } else {
          assert r[k] == HitResult(courses, hits, i);
        }
      }
    }
  }

  /** The ranks rise strictly along the results; they leave gaps where pairs were skipped. */
  lemma {:induction false} AssembledRanksRise(courses: seq<Course>, hits: seq<Hit>)
    ensures forall k, l :: 0 <= k < l < |Assembled(courses, hits)| ==>
              var x, y := Assembled(courses, hits)[k], Assembled(courses, hits)[l];
              x.rank.Some? && y.rank.Some? && x.rank.value < y.rank.value
  {
    if hits != [] {
      var i := |hits| - 1;
      var init := hits[..i];
      var rest := Assembled(courses, init);
      var tail := if Names(courses, hits[i]) then [HitResult(courses, hits, i)] else [];
      AssembledRanksRise(courses, init);
      AssembledEntries(courses, init);
      var r := rest + tail;
      assert Assembled(courses, hits) == r;
      forall k, l | 0 <= k < l < |r|
        ensures r[k].rank.Some? && r[l].rank.Some? && r[k].rank.value < r[l].rank.value
      {
        assert r[k] == rest[k];
        if l >= |rest| {
          assert r[l] == HitResult(courses, hits, i);
        } else {
          assert r[l] == rest[l];
        }
      }
    }
  }

  /** No pair naming a course is dropped. */
  lemma {:induction false} AssembledComplete(courses: seq<Course>, hits: seq<Hit>)
    ensures forall i :: 0 <= i < |hits| && Names(courses, hits[i]) ==>
              HitResult(courses, hits, i) in Assembled(courses, hits)
  {
    if hits != [] {
      var i := |hits| - 1;
      var init := hits[..i];
      var rest := Assembled(courses, init);
      var tail := if Names(courses, hits[i]) then [HitResult(courses, hits, i)] else [];
      AssembledComplete(courses, init);
      assert Assembled(courses, hits) == rest + tail;
      forall j | 0 <= j < |hits| && Names(courses, hits[j])
        ensures HitResult(courses, hits, j) in rest + tail
      {
        if j < i {
          assert init[j] == hits[j];
          assert HitResult(courses, init, j) == HitResult(courses, hits, j);
          assert HitResult(courses, init, j) in rest;
        }
      }
    }
  }

  /** The corrected loop: the guard also rejects negative positions. */
  method AssembleResults(courses: seq<Course>, hits: seq<Hit>) returns (results: seq<Result>)
    ensures results == Assembled(courses, hits)
    ensures forall k :: 0 <= k < |results| ==> results[k].course in courses
  {
    results := [];
    for i := 0 to |hits|
      invariant results == Assembled(courses, hits[..i])
    {
      var h := hits[i];
      assert hits[..i + 1][..i] == hits[..i];
      if 0 <= h.idx < |courses| {
        results := results + [Result(courses[h.idx], h.score, Some(i + 1))];
      }
    }
    assert hits[..|hits|] == hits;
    AssembledEntries(courses, hits);
  }

  /**
   * `search_courses`: the index is asked for the `topK` nearest courses to `query`,
   * and returns exactly `topK` pairs; a failure (`None`) is turned into `[]` by the
   * handler.
   */
  method SearchCourses(courses: seq<Course>, query: string, topK: nat,
                       index: (string, nat) -> Option<seq<Hit>>)
    returns (results: seq<Result>)
    requires index(query, topK).Some? ==> |index(query, topK).value| == topK
    ensures index(query, topK).None? ==> results == []
    ensures index(query, topK).Some? ==> results == Assembled(courses, index(query, topK).value)
    ensures |results| <= topK
  {
    match index(query, topK)
    case None =>
      results := [];
    case Some(hits) =>
      results := AssembleResults(courses, hits);
  }

  /** `get_recommendations` over the embedding engine. */
  method GetRecommendations(courses: seq<Course>, interests: string, background: string,
                            level: string, topK: nat, index: (string, nat) -> Option<seq<Hit>>)
    returns (recs: seq<Result>)
    requires var out := index(BuildQuery(interests, background, level), 2 * topK);
             out.Some? ==> |out.value| == 2 * topK
    ensures var out := index(BuildQuery(interests, background, level), 2 * topK);
            recs == if out.None? then [] else Compose(Assembled(courses, out.value), level, topK)
    ensures |recs| <= topK
    ensures IsRecognisedLevel(level) ==>
              forall x :: x in recs ==> Lower(x.course.difficulty) == Lower(level)
    ensures forall x :: x in recs ==> x.course in courses
  {
    var query := BuildQuery(interests, background, level);
    var candidates := SearchCourses(courses, query, 2 * topK, index);
    var out := index(query, 2 * topK);
    if out.Some? {
      AssembledEntries(courses, out.value);
    }
    recs := Compose(candidates, level, topK);
  }
}
