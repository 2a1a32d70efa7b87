# Course recommendation bot: retrieval and ranking core in Dafny

This project models the retrieval and ranking layer of a course-recommendation
chatbot, and proves properties of that model. The layer covers:

- the lexical search engine (`SimpleCourseRAGSystem`), which scores courses by
  keyword overlap plus an exact-phrase bonus, keeps the positive scores, sorts
  them stably by descending score and ranks the top `top_k`;
- the embedding search engine (`CourseRAGSystem`), whose own logic is turning
  the nearest-neighbour index's `(score, idx)` output into ranked course copies;
- lookup by id and the category / difficulty / skills filter that both engines
  share;
- the recommendation composer, which builds a query from a user profile,
  over-fetches `2 * top_k` results, applies a hard skill-level filter and
  truncates to `top_k`;
- the chatbot's keyword-driven profile extraction and the text it builds from
  courses for the language model;
- the web front end's bounded search history and its choice of featured
  courses.

Modules, one per part of the program:

| file | module | models |
|---|---|---|
| `wrappers.dfy` | `Wrappers` | `Option` (Python's `None`) |
| `text.dfy` | `Text` | ASCII `str.lower`, `\b\w+\b` tokens, `in` on strings, `str.join`, integer formatting |
| `sorting.dfy` | `Sorting` | stable `sorted(..., reverse=True)` / `list.sort(..., reverse=True)` and `xs[:n]` |
| `catalogue.dfy` | `Catalogue` | the course record, `get_course_by_id`, `filter_courses` |
| `recommend.dfy` | `Recommendation` | the query builder and level filter of `get_recommendations` |
| `lexical_search.dfy` | `LexicalSearch` | `simple_rag_system.py` |
| `embedding_search.dfy` | `EmbeddingSearch` | `rag_system.py` |
| `chatbot.dfy` | `Chatbot` | `chatbot.py` |
| `app_state.dfy` | `AppState` | search history and featured courses in `app.py` |

Apart from the encoder and the index, which are the function parameter `index`
(see "## Left out"), each engine holds only its course list, set when it is built
and never changed afterwards. So the engines' operations are module-level members
that take `courses: seq<Course>`. The parts of the source that work step by step are
methods with loops, each proved equal to a specification function:

- the collect and rank loops of `search_courses`;
- the search loop of `get_course_by_id`;
- the result-assembly loop of the embedding engine;
- the message loop of `extract_user_info`;
- the string-building loop of `create_context_from_courses`.

The session's search history is a class whose `entries` field its methods update
in place. Scores are exact `real`s.

The skills test of `filter_courses` (`simple_rag_system.py:163-165`) checks each
of the course's own skills, lower-cased, against the lower-cased request list: it
is a genuine intersection (`Catalogue.Holds`, `HasSkillIn`).

## Model

| member | source | states |
|---|---|---|
| Catalogue.TextLayout | simple_rag_system.py:48-55 | the joined text parts are title, description, category, difficulty, space-joined skills and prerequisites, in that order, separated by single spaces |
| LexicalSearch.CourseTextLayout | simple_rag_system.py:48-56 | the lexical engine's course text is each of the six fields lower-cased, in fixed order, single-space separated |
| EmbeddingSearch.CourseText | rag_system.py:56-64 | the embedding engine's course text is the same six fields in the same order and with the same separators, case preserved |
| EmbeddingSearch.LowerCaseTextsAgree | rag_system.py:56-64 | lower-casing the embedding engine's text gives exactly the lexical engine's text (`LexicalSearch.CourseText`) |
| Text.WordsEmptyIff | simple_rag_system.py:69-70 | a string has no `\w+` token exactly when it has no word character |
| Text.SingleWord | simple_rag_system.py:69-70 | a non-empty string made only of word characters is one token, itself |
| LexicalSearch.ScoreWithoutWords | simple_rag_system.py:69-73 | a query with no `\w` character scores 0 against every course text |
| LexicalSearch.Overlap | simple_rag_system.py:76-77 | the shared-token fraction lies in [0, 1] |
| LexicalSearch.Score | simple_rag_system.py:69-83 | the score always lies in [0, 1] |
| LexicalSearch.ScorePhraseBonus | simple_rag_system.py:77-83 | when the lower-cased query occurs in the lower-cased text, the score is min(overlap + 0.3, 1.0) and at least 0.3; otherwise it equals the overlap |
| LexicalSearch.ScorePositiveIff | simple_rag_system.py:69-83 | the score is positive exactly when the query has a token and either shares a token with the text or occurs in it |
| LexicalSearch.ScoreAllWordsFound | simple_rag_system.py:76-83 | when every query token is in the text, the score is 1.0 |
| LexicalSearch.PartialWordScore | simple_rag_system.py:77-83 | a partial word with no shared token still gets the bonus: "pyth" against "python" scores 0.3 |
| LexicalSearch.CandidatesFacts | simple_rag_system.py:99-106 | the collected copies are exactly the catalogue courses with a positive score, each carrying its own score and no rank, and none is missed |
| LexicalSearch.CandidatesAppend | simple_rag_system.py:99-106 | collecting distributes over concatenation of catalogues, so the candidates keep catalogue order |
| LexicalSearch.CandidatesOne | simple_rag_system.py:100-106 | a single course is collected, as its scored copy, exactly when it scores above 0 |
| LexicalSearch.RankTop | simple_rag_system.py:111-115 | the rank loop returns the first `top_k` entries, numbered 1..n in list order, with course and score unchanged |
| LexicalSearch.SearchCourses | simple_rag_system.py:96-115 | the result is the ranked top `top_k` of the stably sorted positive-score copies: at most `top_k`, ranks 1..n, each a catalogue course with a positive score equal to its own score, in non-increasing score order |
| LexicalSearch.SearchRanked | simple_rag_system.py:111-115 | at most `top_k` results, ranked 1..n in list order |
| LexicalSearch.SearchScored | simple_rag_system.py:103-106 | every result is a catalogue course with a positive score equal to its own score |
| LexicalSearch.SearchSorted | simple_rag_system.py:109 | results are in non-increasing score order |
| LexicalSearch.SearchTiesInCatalogueOrder | simple_rag_system.py:109-115 | for each score value, the results with that score are the first catalogue courses with that score, in catalogue order (the sort is stable) |
| LexicalSearch.SearchComplete | simple_rag_system.py:103-115 | when fewer than `top_k` results come back, every course with a positive score is among them |
| LexicalSearch.SearchTopK | simple_rag_system.py:103-115 | a course with a positive score that was not returned scores no higher than any returned course |
| LexicalSearch.SearchWithoutWords | simple_rag_system.py:69-73 | a query without word characters finds nothing |
| LexicalSearch.GetRecommendations | simple_rag_system.py:187-204 | the search over-fetches `2 * top_k` for the profile query; the result has at most `top_k` entries, all of a recognised level's difficulty, all catalogue courses with positive scores, in non-increasing score order |
| Recommendation.QueryLayout | simple_rag_system.py:187-193 | the query is interests, then " " + background if non-empty, then " " + level if non-empty |
| Recommendation.AtLevel | simple_rag_system.py:199-201 | keeps exactly the results whose difficulty equals the level ignoring case, preserving score order |
| Recommendation.Compose | simple_rag_system.py:198-204 | at most `top_k` results, all from the candidates; a recognised level keeps the first `top_k` of the candidates at that level, and only those; any other level leaves the first `top_k` candidates; score order is kept; a short result under a recognised level holds every candidate of that level |
| Recommendation.AtLevelAppend | simple_rag_system.py:199-201 | the level filter distributes over concatenation, so it keeps input order |
| Recommendation.AtLevelOne | simple_rag_system.py:200-201 | a single result is kept exactly when its difficulty matches the level ignoring case |
| Recommendation.ComposeKeepsBest | simple_rag_system.py:199-204 | under a recognised level, over score-ordered candidates, no dropped candidate of that level scores above a kept one |
| Catalogue.GetCourseById | simple_rag_system.py:121-134 | returns `None` exactly when no course has the id, otherwise the first course with it |
| Catalogue.FilterAppend | simple_rag_system.py:151-167 | the three comprehensions together distribute over concatenation of catalogues, so filtering keeps catalogue order |
| Catalogue.FilterOne | simple_rag_system.py:151-167 | on a single course the filter keeps it exactly when it meets every given criterion |
| Catalogue.FilterCoursesIsSelect | simple_rag_system.py:151-167 | the three successive comprehensions equal one pass keeping, in catalogue order, the courses that meet every given criterion (empty string or list = not given) |
| Catalogue.SelectMembers | simple_rag_system.py:153-165 | a course is kept exactly when it is in the catalogue and matches case-insensitive category and difficulty and has a skill in the request list |
| Catalogue.FilterWithoutCriteria | simple_rag_system.py:151-167 | with no criterion given, the catalogue comes back unchanged and in order |
| EmbeddingSearch.AssembleAsWritten | rag_system.py:112-124 | the loop as written: pairs with `idx < len(courses)` are kept, Python negative indexing included, ranked by position; an index below `-len(courses)` raises and the handler returns [] |
| EmbeddingSearch.AsWrittenAgreesWithoutNegatives | rag_system.py:112-124 | on index output without negative positions the loop as written and the corrected loop give the same results, so they differ only where a negative position passes the guard |
| EmbeddingSearch.SentinelSelectsLastCourse | rag_system.py:113-118 | the index's "no neighbour" marker -1 yields the last catalogue course with rank 1 as written, and nothing in the corrected assembly |
| EmbeddingSearch.AssembledEntries | rag_system.py:112-120 | every result stands for a pair naming a course: a copy of that course with the pair's score and rank = the pair's position + 1 |
| EmbeddingSearch.AssembledRanksRise | rag_system.py:112-120 | ranks rise strictly along the results and leave gaps where pairs were skipped |
| EmbeddingSearch.AssembledComplete | rag_system.py:112-120 | no pair naming a course is dropped |
| EmbeddingSearch.AssembleResults | rag_system.py:112-120 | the corrected loop computes `Assembled`, and every result is a catalogue course |
| EmbeddingSearch.SearchCourses | rag_system.py:103-124 | the index is asked for `top_k` neighbours of the query; a failed encoding or index search gives []; otherwise the (corrected) assembled results, at most `top_k` |
| EmbeddingSearch.GetRecommendations | rag_system.py:192-209 | the index is asked for `2 * top_k` neighbours of `BuildQuery(interests, background, level)`, and the result is `Compose` of the assembled results: the same query construction, over-fetch, recognised-level filter and truncation as the lexical engine; at most `top_k`, all catalogue courses |
| Chatbot.LevelKeywordsAgree | chatbot.py:205-211 | the outer level-keyword test holds exactly when the precedence chain names a level |
| Chatbot.ExtractUserInfo | chatbot.py:185-213 | the loop computes the left fold of one message step over the history |
| Chatbot.StepFields | chatbot.py:192-211 | one step changes each field independently: interests and background each append " " + the original content on their own keywords, and the level is set by precedence only when a level keyword occurs |
| Chatbot.ExtractedInterests | chatbot.py:194-198 | interests are " " + content of every user message that mentions an interest keyword, in order, case kept |
| Chatbot.ExtractedBackground | chatbot.py:200-202 | background is " " + content of every user message that mentions a background keyword, in order |
| Chatbot.ExtractedLevel | chatbot.py:204-211 | the level is the one named by the latest user message that names one (beginner/new to, then intermediate, then advanced/expert), "" if none |
| Chatbot.OnlyUserMessagesCount | chatbot.py:192-193 | messages of any other role never change the extracted profile |
| Chatbot.NothingExtracted | chatbot.py:185-193 | when no user message mentions any keyword, all three fields stay empty |
| Chatbot.RenderAll | chatbot.py:80-89 | the loop appends, for each item in order, its rendering numbered from the start value |
| Chatbot.CreateContext | chatbot.py:76-91 | an empty list gives exactly the fixed "no courses" message; otherwise the fixed header followed by one block per course, numbered from 1 |
| Chatbot.ContextBlockAt | chatbot.py:79-91 | the block of the course at position k is numbered k + 1 and sits between the blocks of the courses before it and after it |
| Chatbot.BlockStartsWithTitle | chatbot.py:81 | each block starts with "{i}. {title}" on its own line |
| Chatbot.FormatListsSkills | chatbot.py:54-64 | the course card holds the skills line, skills joined by ", " |
| Text.NatToStringRoundTrip | chatbot.py:62 | the decimal rendering of an enrolment count parses back to the count |
| Sorting.SortDescPermutes | app.py:519 | the sort puts its result in non-increasing key order and is a permutation of its input |
| Sorting.SortDescStable | app.py:519 | among elements with equal keys, input order is kept |
| AppState.AfterSearch | app.py:366-381 | the history changes only for a non-empty query that found results and is not already present; it then ends with the query, and below 5 entries it is the old history with the query appended; it never grows past 5 entries and never gains a duplicate |
| AppState.EvictsOldest | app.py:378-381 | a new query on a full history drops exactly the oldest entry and appends the query |
| AppState.SearchHistory.constructor | app.py:152-153 | the history starts empty and valid |
| AppState.SearchHistory.RecordSearch | app.py:366-381 | the in-place update gives `AfterSearch` of the old entries and keeps the bound and no-duplicates invariant |
| AppState.SearchHistory.Reset | app.py:413 | "Reset All" leaves the history empty |
| AppState.RecentSearches | app.py:388 | the last three entries (fewer if shorter), most recent first |
| AppState.FeaturedAreTopRated | app.py:519 | three catalogue courses (fewer if the catalogue is smaller), highest rating first, and no other course is rated above any of them |
| AppState.FeaturedTiesInCatalogueOrder | app.py:519 | featured courses with equal ratings appear in catalogue order |

## Left out

- Sentence embedding, `faiss.normalize_L2`, and building and searching the index (`rag_system.py:66-90, 105-109`) are foreign libraries over floating point. Together they are the function parameter `index`, from a query and a count to the `(score, idx)` pairs or `None` on failure; the scores are opaque reals.
- The Gemini client and `generate_response` (`chatbot.py:28-42, 110-173`) are a network call. The choice of search query `user_interests or user_message` inside it is not modelled either.
- `load_courses` (file reading and JSON parsing) is input/output: the catalogue is a given sequence.
- Logging is not modelled: the `logger.info` / `logger.error` calls of the search handlers (`simple_rag_system.py:118`, `rag_system.py:123`), of `load_courses` and of the chatbot only write to the log and change no result.
- Streamlit rendering, widgets, `st.rerun` and the random course discovery of `app.py` are user interface or nondeterministic.
- Text.Lower: lowercasing is ASCII only, and `\w` is ASCII letters, digits and `_`; Unicode case mapping and Unicode word characters are not modelled.
- Chatbot.CreateContext: `str()` of a rating (a Python float) is the parameter `showRating`, because float formatting is not modelled; enrolment counts use an exact decimal rendering.
- LexicalSearch.SearchCourses: `top_k` is a `nat`, so Python's negative-slice behaviour for `top_k < 0` is not modelled.
- LexicalSearch.SearchCourses: the `except` branch is not modelled, because nothing in the modelled body can raise.
- Results are values, so the copy-before-mutation that leaves `self.courses` untouched holds by construction, and aliasing between dictionaries is not modelled.
- `get_course_by_id` and `filter_courses` of `rag_system.py:126-172` are textually the same as the lexical engine's and are modelled once, in `Catalogue`.
- EmbeddingSearch.SearchCourses: the index's answer must hold exactly `top_k` pairs, as the index returns them; an encoding or index failure is a `None` answer.
- EmbeddingSearch.SearchCourses: uses the corrected assembly (see Findings), so an index answer with the sentinel -1 gives no result for it, where the code as written returns the last course. The as-written loop is `EmbeddingSearch.AssembleAsWritten`.
- EmbeddingSearch.GetRecommendations: uses the corrected assembly through `SearchCourses`, with the same deviation.

## Findings

| source | as written | input that shows it | evidently intended | confidence | as-written member | corrected member |
|---|---|---|---|---|---|---|
| rag_system.py:114 | the guard `idx < len(self.courses)` admits negative positions, and `self.courses[idx]` then indexes from the end | a non-empty catalogue and index output `[(s, -1)]`: the index pads with -1 when `top_k` exceeds the number of indexed courses; the result is the last course, ranked 1 | skip pairs with `idx < 0` as well as `idx >= len(courses)` | not executed; high | EmbeddingSearch.AssembleAsWritten | EmbeddingSearch.AssembleResults |
