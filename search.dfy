/**
 * SearchActivity: the live search over the join of `courses` and
 * `class_instances`, matching the typed text against the teacher, the date
 * and the course's day with SQLite's LIKE.
 */
module Search {
  import opened Text
  import opened Database
  import opened Models

  // ---- SQLite LIKE (no ESCAPE clause, ASCII case folding) ----

  /** `%` matches any run of chars, `_` any one char, anything else itself ignoring ASCII case. */
  predicate Like(s: string, pattern: string)
    decreases |s| + |pattern|
  {
    if pattern == [] then s == []
    else if pattern[0] == '%' then Like(s, pattern[1..]) || (s != [] && Like(s[1..], pattern))
    else if pattern[0] == '_' then s != [] && Like(s[1..], pattern[1..])
    else s != [] && LowerChar(s[0]) == LowerChar(pattern[0]) && Like(s[1..], pattern[1..])
  }

  predicate NoWildcards(q: string) {
    forall k :: 0 <= k < |q| ==> q[k] != '%' && q[k] != '_'
  }

  /** The pattern performSearch binds for each `?`. */
  function SearchPattern(query: string): (p: string)
    ensures |p| == |query| + 2 && p[0] == '%' && p[|p| - 1] == '%' && p[1..|p| - 1] == query
  {
    "%" + query + "%"
  }

  /** A trailing `%` matches the rest of any text. */
  lemma {:induction false} LikeTrailingPercent(s: string)
    ensures Like(s, "%")
    decreases |s|
  {
    assert "%"[1..] == [];
    if s != [] {
      LikeTrailingPercent(s[1..]);
    }
  }

  /** A wildcard-free `q` followed by `%` matches exactly the texts that start with `q`, ignoring case. */
  lemma {:induction false} LikePrefix(s: string, q: string)
    requires NoWildcards(q)
    ensures Like(s, q + "%") <==> StartsWith(Lower(s), Lower(q))
    decreases |q|
  {
    if q == [] {
      assert q + "%" == "%";
      LikeTrailingPercent(s);
    } else {
      var p := q + "%";
      assert p[0] == q[0] && p[1..] == q[1..] + "%";
      if s != [] {
        LikePrefix(s[1..], q[1..]) by {
          assert forall k :: 0 <= k < |q[1..]| ==> q[1..][k] == q[k + 1];
        }
        assert Lower(s[1..]) == Lower(s)[1..];
        assert Lower(q[1..]) == Lower(q)[1..];
        if |q| <= |s| {
          assert Lower(s)[..|q|] == [Lower(s)[0]] + Lower(s)[1..][..|q| - 1];
          assert Lower(q) == [Lower(q)[0]] + Lower(q)[1..];
        }
      }
    }
  }

  /**
   * With no wildcard in the typed text, `x LIKE '%' || q || '%'` is a
   * case-insensitive substring test.
   */
  lemma {:induction false} LikeSearchPatternIsContains(s: string, q: string)
    requires NoWildcards(q)
    ensures Like(s, SearchPattern(q)) <==> ContainsIgnoreCase(s, q)
    decreases |s|
  {
    var p := SearchPattern(q);
    assert p[0] == '%' && p[1..] == q + "%";
    LikePrefix(s, q);
    if s != [] {
      LikeSearchPatternIsContains(s[1..], q);
      assert Lower(s[1..]) == Lower(s)[1..];
    }
  }

  /** Typing `%` alone matches every text. */
  lemma PercentQueryMatchesAll(s: string)
    ensures Like(s, SearchPattern("%"))
  {
    assert SearchPattern("%") == "%%%";
    assert "%%%"[1..] == "%%" && "%%"[1..] == "%";
    LikeTrailingPercent(s);
  }

  // ---- The join ----

  /** The WHERE clause for one joined row. */
  predicate Matches(course: CourseRow, instance: InstanceRow, query: string) {
    var p := SearchPattern(query);
    Like(instance.teacher, p) || Like(instance.date, p) || Like(course.dayOfWeek, p)
  }

  /** The result row performSearch builds from one joined pair. */
  function ResultFor(courseId: int, course: CourseRow, instance: InstanceRow): (r: SearchResult)
    ensures r.courseId == courseId && r.courseType == course.classType && r.dayOfWeek == course.dayOfWeek
    ensures r.instanceDate == instance.date && r.instanceTeacher == instance.teacher
  {
    SearchResult(courseId, course.classType, instance.date, instance.teacher, course.dayOfWeek)
  }

  /** Instance `i` joins a course and satisfies the WHERE clause. */
  ghost predicate Hit(courses: map<int, CourseRow>, instances: map<int, InstanceRow>, query: string, i: int) {
    i in instances && instances[i].courseId in courses
    && Matches(courses[instances[i].courseId], instances[i], query)
  }

  /**
   * `results` holds one entry per hit, built from the hit's rows; `rows`
   * names the instance row behind each entry.
   */
  ghost predicate ListsHits(results: seq<SearchResult>, rows: seq<int>,
                            courses: map<int, CourseRow>, instances: map<int, InstanceRow>, query: string) {
    && |rows| == |results|
    && (forall k :: 0 <= k < |rows| ==>
          Hit(courses, instances, query, rows[k])
          && results[k] == ResultFor(instances[rows[k]].courseId, courses[instances[rows[k]].courseId], instances[rows[k]]))
    && (forall i :: Hit(courses, instances, query, i) ==> exists k :: 0 <= k < |rows| && rows[k] == i)
    && (forall k, l :: 0 <= k < l < |rows| ==> rows[k] != rows[l])
  }

  /** An instance whose course row is gone never shows up in a search. */
  lemma OrphansNeverFound(courses: map<int, CourseRow>, instances: map<int, InstanceRow>, query: string,
                          results: seq<SearchResult>, rows: seq<int>, i: int)
    requires ListsHits(results, rows, courses, instances, query)
    requires i in Orphans(courses, instances)
    ensures forall k :: 0 <= k < |rows| ==> rows[k] != i
  {
  }

  class SearchScreen {
    const store: LocalStore
    var searchResults: seq<SearchResult>
    /** The instance row behind each entry of searchResults. */
    ghost var resultRows: seq<int>

    constructor (store: LocalStore)
      ensures this.store == store && searchResults == [] && resultRows == []
    {
      this.store := store;
      searchResults := [];
      resultRows := [];
    }

    /**
     * performSearch, run on every change of the query text: an empty query
     * clears the results, any other lists every joined row it matches, in
     * the cursor's (unspecified) order.
     */
    method PerformSearch(query: string)
      modifies this
      ensures query == [] ==> searchResults == []
      ensures query != [] ==> ListsHits(searchResults, resultRows, store.courses, store.instances, query)
    {
      var courses, instances := store.courses, store.instances;
      var results: seq<SearchResult> := [];
      ghost var rows: seq<int> := [];
      if query != [] {
        var todo := instances.Keys;
        while exists i :: i in todo
          invariant todo <= instances.Keys
          invariant |rows| == |results|
          invariant forall k :: 0 <= k < |rows| ==>
            rows[k] !in todo && Hit(courses, instances, query, rows[k])
            && results[k] == ResultFor(instances[rows[k]].courseId, courses[instances[rows[k]].courseId], instances[rows[k]])
          invariant forall i :: Hit(courses, instances, query, i) && i !in todo ==>
            exists k :: 0 <= k < |rows| && rows[k] == i
          invariant forall k, l :: 0 <= k < l < |rows| ==> rows[k] != rows[l]
          decreases |todo|
        {
          var i :| i in todo;
          var row := instances[i];
          if row.courseId in courses && Matches(courses[row.courseId], row, query) {
            var before := rows;
            results := results + [ResultFor(row.courseId, courses[row.courseId], row)];
            rows := rows + [i];
            assert forall k :: 0 <= k < |before| ==> rows[k] == before[k];
            assert rows[|rows| - 1] == i;
          }
          todo := todo - {i};
        }
      }
      searchResults := results;
      resultRows := rows;
    }
  }
}
