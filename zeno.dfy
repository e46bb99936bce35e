/**
 * The `ZenoTime` class: the sorted identifier list it builds once, the
 * case-insensitive search over it, and the success/error branch of
 * `display_time`.
 */
module Zeno {
  import opened Wrappers
  import opened PyStr
  import opened PySorted

  /**
   * A `ZenoTime` object. Its only state is `all_timezones`, fixed by the
   * constructor and never changed afterwards.
   */
  datatype ZenoTime = ZenoTime(allTimezones: seq<string>) {

    /**
     * `search_timezone(query)`: the identifiers whose lower-cased form
     * contains the lower-cased query, in list order.
     */
    function SearchTimezone(query: string): seq<string> {
      Select(allTimezones, Lower(query))
    }
  }

  /** `ZenoTime()`: sorts the identifiers the timezone database lists. */
  function Init(database: seq<string>): (z: ZenoTime)
    ensures Sorted(z.allTimezones)
    ensures multiset(z.allTimezones) == multiset(database)
    ensures Distinct(z.allTimezones) <==> Distinct(database)
  {
    SortSpec(database);
    PermutationKeepsDistinct(Sort(database), database);
    ZenoTime(Sort(database))
  }

  /** The comprehension's condition `query in tz.lower()`, `query` already lower-cased. */
  predicate Matches(tz: string, loweredQuery: string) {
    Contains(Lower(tz), loweredQuery)
  }

  /** `[tz for tz in zones if query in tz.lower()]`. */
  function Select(zones: seq<string>, loweredQuery: string): seq<string> {
    if zones == [] then []
    else (if Matches(zones[0], loweredQuery) then [zones[0]] else []) + Select(zones[1..], loweredQuery)
  }

  /** `a` is `b` with some elements dropped and the rest kept in order. */
  predicate IsSubsequence(a: seq<string>, b: seq<string>)
    decreases |b|
  {
    if b == [] then a == []
    else IsSubsequence(a, b[1..]) || (a != [] && a[0] == b[0] && IsSubsequence(a[1..], b[1..]))
  }

  lemma {:induction false} SubsequenceMembers(a: seq<string>, b: seq<string>)
    requires IsSubsequence(a, b)
    ensures forall x :: x in a ==> x in b
    decreases |b|
  {
    if b != [] {
      if IsSubsequence(a, b[1..]) {
        SubsequenceMembers(a, b[1..]);
      } else {
        SubsequenceMembers(a[1..], b[1..]);
        assert a == [a[0]] + a[1..];
      }
    }
  }

  /** Dropping elements from a sorted, duplicate-free list leaves it sorted and duplicate-free. */
  lemma {:induction false} SubsequenceKeepsOrder(a: seq<string>, b: seq<string>)
    requires IsSubsequence(a, b)
    ensures Sorted(b) ==> Sorted(a)
    ensures Distinct(b) ==> Distinct(a)
    decreases |b|
  {
    if b != [] {
      if IsSubsequence(a, b[1..]) {
        SubsequenceKeepsOrder(a, b[1..]);
      } else {
        SubsequenceKeepsOrder(a[1..], b[1..]);
        SubsequenceMembers(a[1..], b[1..]);
        assert forall j :: 1 <= j < |a| ==> a[j] == a[1..][j - 1];
        assert forall j :: 1 <= j < |a| ==> a[j] in b[1..];
      }
    }
  }

  lemma {:induction false} SelectCount(zones: seq<string>, loweredQuery: string, x: string)
    ensures multiset(Select(zones, loweredQuery))[x]
         == if Matches(x, loweredQuery) then multiset(zones)[x] else 0
  {
    if zones != [] {
      SelectCount(zones[1..], loweredQuery, x);
      assert zones == [zones[0]] + zones[1..];
    }
  }

  lemma {:induction false} SelectSubsequence(zones: seq<string>, loweredQuery: string)
    ensures IsSubsequence(Select(zones, loweredQuery), zones)
  {
    if zones != [] {
      SelectSubsequence(zones[1..], loweredQuery);
      var r := Select(zones, loweredQuery);
      if Matches(zones[0], loweredQuery) {
        assert r[0] == zones[0] && r[1..] == Select(zones[1..], loweredQuery);
      } else {
        assert r == Select(zones[1..], loweredQuery);
      }
    }
  }

  lemma {:induction false} SelectEverything(zones: seq<string>)
    ensures Select(zones, "") == zones
  {
    if zones != [] {
      SelectEverything(zones[1..]);
      ContainsEmpty(Lower(zones[0]));
    }
  }

  /**
   * The search returns exactly the identifiers whose lower-cased form
   * contains the lower-cased query, each as often as the list holds it.
   */
  lemma SearchExactMatches(z: ZenoTime, query: string, x: string)
    ensures multiset(z.SearchTimezone(query))[x]
         == if Contains(Lower(x), Lower(query)) then multiset(z.allTimezones)[x] else 0
    ensures x in z.SearchTimezone(query) <==> x in z.allTimezones && Contains(Lower(x), Lower(query))
  {
    SelectCount(z.allTimezones, Lower(query), x);
  }

  /**
   * The result keeps the list's relative order, so a sorted, duplicate-free
   * list yields a sorted, duplicate-free result.
   */
  lemma SearchKeepsOrder(z: ZenoTime, query: string)
    ensures IsSubsequence(z.SearchTimezone(query), z.allTimezones)
    ensures Sorted(z.allTimezones) ==> Sorted(z.SearchTimezone(query))
    ensures Distinct(z.allTimezones) ==> Distinct(z.SearchTimezone(query))
  {
    SelectSubsequence(z.allTimezones, Lower(query));
    SubsequenceKeepsOrder(z.SearchTimezone(query), z.allTimezones);
  }

  /**
   * The results of a freshly built object come out sorted, and strictly
   * increasing when the database lists no identifier twice.
   */
  lemma SearchResultSorted(database: seq<string>, query: string)
    ensures Sorted(Init(database).SearchTimezone(query))
    ensures Distinct(database) ==> StrictlySorted(Init(database).SearchTimezone(query))
  {
    var r := Init(database).SearchTimezone(query);
    SearchKeepsOrder(Init(database), query);
    if Distinct(database) {
      SortedDistinctStrict(r);
    }
  }

  /** An empty query matches every identifier. */
  lemma SearchEmptyQuery(z: ZenoTime)
    ensures z.SearchTimezone("") == z.allTimezones
  {
    SelectEverything(z.allTimezones);
  }

  /** The query's case does not matter. */
  lemma SearchCaseInsensitive(z: ZenoTime, query: string)
    ensures z.SearchTimezone(query) == z.SearchTimezone(Lower(query))
  {
    LowerIdempotent(query);
  }

  lemma TokyoLowered()
    ensures Lower("TOKYO") == "tokyo"
  {
  }

  lemma TokyoMatches()
    ensures Matches("Asia/Tokyo", "tokyo")
  {
    LoweredWindow("Asia/Tokyo", "tokyo", 5);
  }

  /** `-s tokyo` and `-s TOKYO` both find `Asia/Tokyo` when the database lists it. */
  lemma SearchFindsTokyo(z: ZenoTime)
    requires "Asia/Tokyo" in z.allTimezones
    ensures "Asia/Tokyo" in z.SearchTimezone("tokyo")
    ensures "Asia/Tokyo" in z.SearchTimezone("TOKYO")
  {
    TokyoLowered();
    TokyoMatches();
    SearchExactMatches(z, "tokyo", "Asia/Tokyo");
    SearchExactMatches(z, "TOKYO", "Asia/Tokyo");
  }

  /**
   * One line of `display_time`: the identifier with its current time, or
   * the invalid-timezone error. `T` stands for the resolved time.
   */
  datatype Line<T> = TimeLine(zone: string, time: T) | InvalidTimezone(zone: string)

  /**
   * `display_time(timezone)`, given what `get_current_time` returned:
   * `None` for an identifier the database does not know.
   */
  function DisplayTime<T>(timezone: string, current: Option<T>): (line: Line<T>)
    ensures line.zone == timezone
    ensures line.InvalidTimezone? <==> current.None?
    ensures current.Some? ==> line == TimeLine(timezone, current.value)
  {
    match current
    case Some(t) => TimeLine(timezone, t)
    case None => InvalidTimezone(timezone)
  }
}
