/**
 * The two pieces of logic inline in the web front end: the bounded list of recent
 * searches kept in the session, and the choice of featured courses.
 */
module AppState {
  import opened Sorting
  import opened Catalogue

  /** The most searches the session remembers. */
  const MaxHistory: nat := 5

  predicate NoDuplicates(s: seq<string>)
  {
    forall i, j :: 0 <= i < j < |s| ==> s[i] != s[j]
  }

  /**
   * The history after a search for `query` that found something or not: a new,
   * non-empty query that found results is appended, and the oldest entry goes once
   * the list is longer than `MaxHistory`.
   */
  function AfterSearch(history: seq<string>, query: string, found: bool): (h: seq<string>)
    ensures |history| <= MaxHistory ==> |h| <= MaxHistory
    ensures NoDuplicates(history) ==> NoDuplicates(h)
    ensures query == "" || !found || query in history ==> h == history
    ensures query != "" && found ==> query in h
    ensures query != "" && found && query !in history ==> h[|h| - 1] == query
    ensures query != "" && found && query !in history && |history| < MaxHistory ==> h == history + [query]
    ensures forall x :: x in h ==> x in history || x == query
  {
    if query != "" && found && query !in history then
      var appended := history + [query];
      assert appended[|appended| - 1] == query;
      if |appended| > MaxHistory then appended[1..] else appended
    else history
  }

  /** A new query on a full history evicts exactly the oldest entry. */
  lemma EvictsOldest(history: seq<string>, query: string)
    requires |history| == MaxHistory && query != "" && query !in history
    ensures AfterSearch(history, query, true) == history[1..] + [query]
    ensures history[0] !in AfterSearch(history, query, true) <== NoDuplicates(history)
  {
    assert (history + [query])[1..] == history[1..] + [query];
    if NoDuplicates(history) {
      assert forall i :: 1 <= i < |history| ==> history[i] != history[0];
    }
  }

  /** The session's search history; Streamlit's session state holds one per session. */
  class SearchHistory {
    var entries: seq<string>

    ghost predicate Valid()
      reads this
    {
      |entries| <= MaxHistory && NoDuplicates(entries)
    }

    constructor ()
      ensures Valid() && entries == []
    {
      entries := [];
    }

    /** The history update after a search (the search itself runs only for a non-empty query). */
    method RecordSearch(query: string, results: seq<Result>)
      requires Valid()
      modifies this
      ensures Valid()
      ensures entries == AfterSearch(old(entries), query, results != [])
    {
      if query != "" && results != [] {
        if query !in entries {
          entries := entries + [query];
          if |entries| > MaxHistory {
            entries := entries[1..];
          }
        }
      }
    }

    /** "Reset All" empties the history. */
    method Reset()
      modifies this
      ensures Valid() && entries == []
    {
      entries := [];
    }
  }

  function Reverse<T>(s: seq<T>): (r: seq<T>)
    ensures |r| == |s|
    ensures forall i :: 0 <= i < |s| ==> r[i] == s[|s| - 1 - i]
  {
    if s == [] then [] else Reverse(s[1..]) + [s[0]]
  }

  /** `reversed(history[-3:])`: the "Recent Searches" shown, most recent first. */
  function RecentSearches(history: seq<string>): (r: seq<string>)
    ensures |r| == if |history| < 3 then |history| else 3
    ensures forall i :: 0 <= i < |r| ==> r[i] == history[|history| - 1 - i]
  {
    var last := if |history| < 3 then history else history[|history| - 3..];
    Reverse(last)
  }

  /** `sorted(courses, key=rating, reverse=True)[:3]` */
  function Featured(courses: seq<Course>): seq<Course>
  {
    Take(SortDesc(courses, Rating), 3)
  }

  /**
   * The featured courses are three catalogue courses (fewer if the catalogue is
   * smaller), highest rating first, and no course left out is rated above any of them.
   */
  lemma FeaturedAreTopRated(courses: seq<Course>)
    ensures |Featured(courses)| == if |courses| < 3 then |courses| else 3
    ensures forall i :: 0 <= i < |Featured(courses)| ==> Featured(courses)[i] in courses
    ensures SortedDesc(Featured(courses), Rating)
    ensures forall c, i :: c in courses && c !in Featured(courses) && 0 <= i < |Featured(courses)| ==>
              Featured(courses)[i].rating >= c.rating
  {
    var sorted := SortDesc(courses, Rating);
    SortDescPermutes(courses, Rating);
    var r := Featured(courses);
    forall i | 0 <= i < |r| ensures r[i] in courses {
      assert r[i] in multiset(sorted);
    }
    forall c, i | c in courses && c !in r && 0 <= i < |r| ensures r[i].rating >= c.rating {
      assert c in multiset(sorted);
      var k :| 0 <= k < |sorted| && sorted[k] == c;
      assert k >= |r|;
    }
  }

  /** Courses with equal ratings are featured in catalogue order. */
  lemma FeaturedTiesInCatalogueOrder(courses: seq<Course>, v: real)
    ensures var tied := WithKey(Featured(courses), Rating, v);
            var all := WithKey(courses, Rating, v);
            |tied| <= |all| && tied == all[..|tied|]
  {
    WithKeyTake(SortDesc(courses, Rating), 3, Rating, v);
    SortDescStable(courses, Rating, v);
  }
}
