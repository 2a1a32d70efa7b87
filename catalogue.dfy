/**
 * The course store shared by both search engines: the course record, the scored
 * result record, lookup by id and the category / difficulty / skills filter.
 * Apart from the encoder and the index, which are the function parameter `index`
 * of the embedding engine, each engine holds only its course list, set when it is
 * built and never changed afterwards, so each operation takes that list as its
 * first argument.
 */
module Catalogue {
  import opened Wrappers
  import opened Text

  /** One entry of the `courses` array of the course data file. */
  datatype Course = Course(
    id: string,
    title: string,
    description: string,
    category: string,
    difficulty: string,
    duration: string,
    provider: string,
    skills: seq<string>,
    prerequisites: string,
    rating: real,
    enrollmentCount: nat)

  /**
   * A copy of a course with the keys a search adds: `similarity_score` and,
   * once assigned, `rank` (`None` while the key is not yet set).
   */
  datatype Result = Result(course: Course, score: real, rank: Option<nat>)

  function ScoreOf(r: Result): real { r.score }

  function Rating(c: Course): real { c.rating }

  /** The fields that make up a course's searchable text, in order. */
  function TextParts(c: Course): seq<string>
  {
    [c.title, c.description, c.category, c.difficulty, Join(" ", c.skills), c.prerequisites]
  }

  /** The joined text parts are the six fields in order, each pair separated by one space. */
  lemma TextLayout(c: Course)
    ensures Join(" ", TextParts(c))
         == c.title + " " + c.description + " " + c.category + " " + c.difficulty + " "
          + Join(" ", c.skills) + " " + c.prerequisites
  {
    var sk := Join(" ", c.skills);
    JoinCons(" ", sk, [c.prerequisites]);
    JoinCons(" ", c.difficulty, [sk, c.prerequisites]);
    JoinCons(" ", c.category, [c.difficulty, sk, c.prerequisites]);
    JoinCons(" ", c.description, [c.category, c.difficulty, sk, c.prerequisites]);
    JoinCons(" ", c.title, [c.description, c.category, c.difficulty, sk, c.prerequisites]);
    assert TextParts(c) == [c.title] + [c.description, c.category, c.difficulty, sk, c.prerequisites];
  }

  /** `get_course_by_id`: the first course with the given id, or `None`. */
  method GetCourseById(courses: seq<Course>, id: string) returns (r: Option<Course>)
    ensures r.None? <==> forall i :: 0 <= i < |courses| ==> courses[i].id != id
    ensures r.Some? ==> exists i :: 0 <= i < |courses| && courses[i] == r.value && courses[i].id == id
                                 && forall j :: 0 <= j < i ==> courses[j].id != id
  {
    for i := 0 to |courses|
      invariant forall j :: 0 <= j < i ==> courses[j].id != id
    {
      if courses[i].id == id {
        return Some(courses[i]);
      }
    }
    return None;
  }

  /** Python truthiness of an optional string argument: neither `None` nor `""`. */
  predicate Given(o: Option<string>)
  {
    o.Some? && o.value != ""
  }

  /** Python truthiness of an optional list argument: neither `None` nor `[]`. */
  predicate GivenList(o: Option<seq<string>>)
  {
    o.Some? && o.value != []
  }

  /** One of the three tests of `filter_courses`. */
  datatype Criterion =
    | CategoryIs(category: string)
    | DifficultyIs(difficulty: string)
    | HasSkillIn(skills: seq<string>)

  predicate Holds(c: Course, k: Criterion)
  {
    match k
    case CategoryIs(cat) => Lower(c.category) == Lower(cat)
    case DifficultyIs(d) => Lower(c.difficulty) == Lower(d)
    case HasSkillIn(req) => exists i :: 0 <= i < |c.skills| && Lower(c.skills[i]) in LowerAll(req)
  }

  /** `[c for c in s if <test k>]` */
  function Keep(s: seq<Course>, k: Criterion): seq<Course>
  {
    if s == [] then [] else (if Holds(s[0], k) then [s[0]] else []) + Keep(s[1..], k)
  }

  /** `filter_courses`: the three comprehensions applied one after the other. */
  function FilterCourses(courses: seq<Course>, category: Option<string>,
                         difficulty: Option<string>, skills: Option<seq<string>>): seq<Course>
  {
    var byCategory := if Given(category) then Keep(courses, CategoryIs(category.value)) else courses;
    var byDifficulty := if Given(difficulty) then Keep(byCategory, DifficultyIs(difficulty.value)) else byCategory;
    if GivenList(skills) then Keep(byDifficulty, HasSkillIn(skills.value)) else byDifficulty
  }

  /** Whether a course passes every criterion that was given. */
  predicate Matches(c: Course, category: Option<string>,
                    difficulty: Option<string>, skills: Option<seq<string>>)
  {
    && (Given(category) ==> Lower(c.category) == Lower(category.value))
    && (Given(difficulty) ==> Lower(c.difficulty) == Lower(difficulty.value))
    && (GivenList(skills) ==>
          exists i :: 0 <= i < |c.skills| && Lower(c.skills[i]) in LowerAll(skills.value))
  }

  /** Reference definition: one pass keeping the matching courses in catalogue order. */
  function Select(s: seq<Course>, category: Option<string>,
                  difficulty: Option<string>, skills: Option<seq<string>>): seq<Course>
  {
    if s == [] then []
    else (if Matches(s[0], category, difficulty, skills) then [s[0]] else [])
         + Select(s[1..], category, difficulty, skills)
  }

  lemma {:induction false} KeepAppend(a: seq<Course>, b: seq<Course>, k: Criterion)
    ensures Keep(a + b, k) == Keep(a, k) + Keep(b, k)
  {
    if a == [] {
      assert a + b == b;
    } else {
      var h := if Holds(a[0], k) then [a[0]] else [];
      assert (a + b)[0] == a[0];
      assert (a + b)[1..] == a[1..] + b;
      assert Keep(a + b, k) == h + Keep(a[1..] + b, k);
      KeepAppend(a[1..], b, k);
      assert h + (Keep(a[1..], k) + Keep(b, k)) == (h + Keep(a[1..], k)) + Keep(b, k);
    }
  }

  lemma KeepOne(c: Course, k: Criterion)
    ensures Keep([c], k) == if Holds(c, k) then [c] else []
  {
    assert [c][1..] == [];
  }

  /** Each comprehension of `filter_courses`, when it applies, distributes over concatenation. */
  lemma KeepIfAppend(given: bool, a: seq<Course>, b: seq<Course>, k: Criterion)
    ensures (if given then Keep(a + b, k) else a + b)
         == (if given then Keep(a, k) else a) + (if given then Keep(b, k) else b)
  {
    if given {
      KeepAppend(a, b, k);
    }
  }

  /** `filter_courses` distributes over concatenation of catalogues. */
  lemma FilterAppend(a: seq<Course>, b: seq<Course>, category: Option<string>,
                     difficulty: Option<string>, skills: Option<seq<string>>)
    ensures FilterCourses(a + b, category, difficulty, skills)
         == FilterCourses(a, category, difficulty, skills) + FilterCourses(b, category, difficulty, skills)
  {
    var k1 := CategoryIs(if category.Some? then category.value else "");
    var k2 := DifficultyIs(if difficulty.Some? then difficulty.value else "");
    var k3 := HasSkillIn(if skills.Some? then skills.value else []);
    KeepIfAppend(Given(category), a, b, k1);
    var a1, b1 := (if Given(category) then Keep(a, k1) else a), (if Given(category) then Keep(b, k1) else b);
    KeepIfAppend(Given(difficulty), a1, b1, k2);
    var a2, b2 := (if Given(difficulty) then Keep(a1, k2) else a1), (if Given(difficulty) then Keep(b1, k2) else b1);
    KeepIfAppend(GivenList(skills), a2, b2, k3);
  }

  /** A comprehension that applies, over a list of at most the one course `c`. */
  lemma KeepIfOne(given: bool, s: seq<Course>, c: Course, k: Criterion)
    requires s == [c] || s == []
    ensures (if given then Keep(s, k) else s) == if s == [c] && (given ==> Holds(c, k)) then [c] else []
  {
    if s == [c] {
      KeepOne(c, k);
    }
  }

  /** On one course `filter_courses` keeps it exactly when it matches. */
  lemma FilterOne(c: Course, category: Option<string>,
                  difficulty: Option<string>, skills: Option<seq<string>>)
    ensures FilterCourses([c], category, difficulty, skills)
         == if Matches(c, category, difficulty, skills) then [c] else []
  {
    var k1 := CategoryIs(if category.Some? then category.value else "");
    var k2 := DifficultyIs(if difficulty.Some? then difficulty.value else "");
    var k3 := HasSkillIn(if skills.Some? then skills.value else []);
    KeepIfOne(Given(category), [c], c, k1);
    var s1 := if Given(category) then Keep([c], k1) else [c];
    KeepIfOne(Given(difficulty), s1, c, k2);
    var s2 := if Given(difficulty) then Keep(s1, k2) else s1;
    KeepIfOne(GivenList(skills), s2, c, k3);
    assert Matches(c, category, difficulty, skills)
       <==> (Given(category) ==> Holds(c, k1)) && (Given(difficulty) ==> Holds(c, k2))
            && (GivenList(skills) ==> Holds(c, k3));
  }

  /** `filter_courses` keeps exactly the courses matching every given criterion, in catalogue order. */
  lemma {:induction false} FilterCoursesIsSelect(courses: seq<Course>, category: Option<string>,
                                                 difficulty: Option<string>, skills: Option<seq<string>>)
    ensures FilterCourses(courses, category, difficulty, skills) == Select(courses, category, difficulty, skills)
  {
    if courses != [] {
      var c, rest := courses[0], courses[1..];
      assert courses == [c] + rest;
      FilterAppend([c], rest, category, difficulty, skills);
      FilterOne(c, category, difficulty, skills);
      FilterCoursesIsSelect(rest, category, difficulty, skills);
    }
  }

  /** A course is in the filtered list exactly when it is in the catalogue and matches. */
  lemma {:induction false} SelectMembers(s: seq<Course>, category: Option<string>,
                                         difficulty: Option<string>, skills: Option<seq<string>>, c: Course)
    ensures c in Select(s, category, difficulty, skills) <==> c in s && Matches(c, category, difficulty, skills)
  {
    if s != [] {
      SelectMembers(s[1..], category, difficulty, skills, c);
      assert s == [s[0]] + s[1..];
    }
  }

  /** With no criterion given, `filter_courses` returns the catalogue unchanged, in order. */
  lemma {:induction false} FilterWithoutCriteria(courses: seq<Course>, category: Option<string>,
                                                 difficulty: Option<string>, skills: Option<seq<string>>)
    requires !Given(category) && !Given(difficulty) && !GivenList(skills)
    ensures FilterCourses(courses, category, difficulty, skills) == courses
  {
  }
}
