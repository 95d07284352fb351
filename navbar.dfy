/** The navigation bar's search box: a query whose every change cancels the
    pending debounce timer and, unless the query is blank, arms a new 500 ms
    timer whose expiry starts a search; the first five hits are listed. */
module Navbar {
  import opened Catalog
  import opened Timers

  /** Number of search results listed. */
  const ResultLimit: nat := 5
  /** Year shown for a result that has neither date. */
  const YearFallback: string := "N/A"

  /** The characters `String.prototype.trim` removes: the ECMAScript
      WhiteSpace and LineTerminator code points. */
  predicate IsJsWhitespace(c: char) {
    || c == '\t' || c == '\n' || c == '\U{000B}' || c == '\U{000C}' || c == '\r'
    || c == ' ' || c == '\U{00A0}' || c == '\U{1680}' || ('\U{2000}' <= c <= '\U{200A}')
    || c == '\U{2028}' || c == '\U{2029}' || c == '\U{202F}' || c == '\U{205F}'
    || c == '\U{3000}' || c == '\U{FEFF}'
  }

  /** The first index at or after `i` holding a visible character, or `|s|`. */
  function VisibleFrom(s: string, i: nat): (r: nat)
    requires i <= |s|
    decreases |s| - i
    ensures i <= r <= |s|
    ensures forall k :: i <= k < r ==> IsJsWhitespace(s[k])
    ensures r < |s| ==> !IsJsWhitespace(s[r])
  {
    if i == |s| || !IsJsWhitespace(s[i]) then i else VisibleFrom(s, i + 1)
  }

  /** The end of the last visible character before `j`, or 0. */
  function VisibleUntil(s: string, j: nat): (r: nat)
    requires j <= |s|
    ensures r <= j
    ensures forall k :: r <= k < j ==> IsJsWhitespace(s[k])
    ensures r > 0 ==> !IsJsWhitespace(s[r - 1])
  {
    if j == 0 || !IsJsWhitespace(s[j - 1]) then j else VisibleUntil(s, j - 1)
  }

  /** `s.trim()`: what lies between the leading and the trailing whitespace. */
  function Trim(s: string): (r: string)
    ensures r != [] ==> !IsJsWhitespace(r[0]) && !IsJsWhitespace(r[|r| - 1])
    ensures |r| <= |s|
    ensures forall i :: 0 <= i < |s| && !IsJsWhitespace(s[i]) ==> VisibleFrom(s, 0) <= i < VisibleUntil(s, |s|) && i - VisibleFrom(s, 0) < |r| && r[i - VisibleFrom(s, 0)] == s[i]
    ensures VisibleUntil(s, |s|) <= VisibleFrom(s, 0) ==> r == []
    ensures VisibleFrom(s, 0) < VisibleUntil(s, |s|) ==>
      |r| == VisibleUntil(s, |s|) - VisibleFrom(s, 0) && forall k :: 0 <= k < |r| ==> r[k] == s[VisibleFrom(s, 0) + k]
  {
    var lo, hi := VisibleFrom(s, 0), VisibleUntil(s, |s|);
    if lo < hi then s[lo..hi] else []
  }

  /** `!query.trim()`: nothing but whitespace. */
  predicate IsBlank(q: string) {
    forall i :: 0 <= i < |q| ==> IsJsWhitespace(q[i])
  }

  /** Trimming leaves nothing exactly when the query is blank. */
  lemma TrimEmptyIffBlank(q: string)
    ensures Trim(q) == [] <==> IsBlank(q)
  {
    var lo, hi := VisibleFrom(q, 0), VisibleUntil(q, |q|);
    if lo < |q| {
      assert !IsJsWhitespace(q[lo]);
    }
  }

  /** The year under a result's title: release year, else first-air year, else "N/A". */
  function ResultYear(m: Movie): (r: string)
    ensures r != []
    ensures r == YearFallback || ('-' !in r && (r == YearOf(m.releaseDate) || r == YearOf(m.firstAirDate)))
  {
    YearLabel(m, YearFallback)
  }

  class SearchBox {
    var isSearchActive: bool
    var query: string
    var results: seq<Movie>
    /** `debounceTimeoutRef`; each pending timer carries the query its callback captured. */
    var timer: TimerSlot<string>
    /** Queries whose `searchMovies` call has started and not yet resolved, oldest first. */
    var inFlight: seq<string>

    ghost predicate Valid()
      reads this
    {
      && SlotValid(timer)
      && |results| <= ResultLimit
      && (forall h :: h in timer.pending ==> timer.pending[h] == query && !IsBlank(query))
    }

    /** The rows of the results dropdown. */
    function ShownResults(): (r: seq<Movie>)
      reads this
      ensures r == [] || (isSearchActive && r == results)
      ensures isSearchActive ==> r == results
    {
      if isSearchActive && |results| > 0 then results else []
    }

    constructor ()
      ensures Valid()
      ensures !isSearchActive && query == [] && results == [] && inFlight == []
      ensures timer.pending == map[] && timer.current == None
    {
      isSearchActive := false;
      query := [];
      results := [];
      timer := NewSlot();
      inFlight := [];
    }

    /** The search icon: `setIsSearchActive(true)`. */
    method Open()
      requires Valid()
      modifies this
      ensures Valid() && isSearchActive
      ensures query == old(query) && results == old(results) && timer == old(timer) && inFlight == old(inFlight)
    {
      isSearchActive := true;
    }

    /** `setQuery(value)`; React runs the `[query]` effect only when the value changed. */
    method ChangeQuery(q: string)
      requires Valid()
      modifies this
      ensures Valid()
      ensures query == q && isSearchActive == old(isSearchActive) && inFlight == old(inFlight)
      ensures q == old(query) ==> results == old(results) && timer == old(timer)
      ensures q != old(query) ==> forall h :: h in old(timer.pending) ==> h !in timer.pending
      ensures q != old(query) && IsBlank(q) ==> results == [] && timer.pending == map[]
      ensures q != old(query) && !IsBlank(q) ==>
        && results == old(results) && timer.pending == map[old(timer.nextHandle) := q]
        && timer.current == Some(old(timer.nextHandle))
    {
      if q != query {
        query := q;
        QueryEffect();
      }
    }

    /** The debounce timer `h` expires: `searchMovies(query)` starts with the
        query it captured, which is the current, untrimmed query. */
    method Fire(h: nat)
      requires Valid() && h in timer.pending
      modifies this
      ensures Valid()
      ensures inFlight == old(inFlight) + [old(query)]
      ensures timer.pending == map[] && timer.current == old(timer.current)
      ensures query == old(query) && results == old(results) && isSearchActive == old(isSearchActive)
    {
      var q := timer.pending[h];
      timer := Timers.Fire(timer, h);
      inFlight := inFlight + [q];
    }

    /** The `k`-th started search resolves with `response`. Nothing checks that
        it is still current: a late response replaces the results regardless. */
    method Resolve(k: nat, response: seq<Movie>)
      requires Valid() && k < |inFlight|
      modifies this
      ensures Valid()
      ensures results == Take(response, ResultLimit)
      ensures inFlight == old(inFlight[..k] + inFlight[k + 1..])
      ensures query == old(query) && timer == old(timer) && isSearchActive == old(isSearchActive)
    {
      results := Take(response, ResultLimit);
      inFlight := inFlight[..k] + inFlight[k + 1..];
    }

    /** `handleCloseSearch`: whatever the state before, the box is closed, the
        query and results are empty, and no search is pending. */
    method Close()
      requires Valid()
      modifies this
      ensures Valid()
      ensures !isSearchActive && query == [] && results == [] && timer.pending == map[]
      ensures inFlight == old(inFlight)
    {
      var was := query;
      isSearchActive := false;
      query := [];
      results := [];
      if was != [] {
        QueryEffect();
      }
    }

    /** `handleResultClick(movie)`: the callback, when given, hears of exactly
        this movie once; then the same reset as `Close`. */
    method Select(m: Movie, hasCallback: bool) returns (notified: seq<Movie>)
      requires Valid() && m in ShownResults()
      modifies this
      ensures notified == if hasCallback then [m] else []
      ensures Valid()
      ensures !isSearchActive && query == [] && results == [] && timer.pending == map[]
      ensures inFlight == old(inFlight)
    {
      notified := if hasCallback then [m] else [];
      Close();
    }

    /** The `[query]` effect: `clearTimeout`, then either clear the results or
        arm the 500 ms search timer with the current query. */
    method QueryEffect()
      requires SlotValid(timer) && |results| <= ResultLimit
      modifies this`timer, this`results
      ensures Valid()
      ensures forall h :: h in old(timer.pending) ==> h !in timer.pending
      ensures IsBlank(query) ==> results == [] && timer.pending == map[]
      ensures !IsBlank(query) ==>
        && results == old(results) && timer.pending == map[old(timer.nextHandle) := query]
        && timer.current == Some(old(timer.nextHandle))
    {
      timer := Clear(timer);
      if IsBlank(query) {
        results := [];
      } else {
        timer := Arm(timer, query);
      }
    }
  }

  /** At any moment at most one search is waiting to start, and it would use the current query. */
  lemma OnePendingSearch(s: SearchBox)
    requires s.Valid()
    ensures |s.timer.pending| <= 1
    ensures forall h :: h in s.timer.pending ==> s.timer.pending[h] == s.query
  {
    AtMostOnePending(s.timer);
  }

  /** A query that starts with a visible character is not blank. */
  lemma VisibleStartNotBlank(q: string)
    requires |q| > 0 && !IsJsWhitespace(q[0])
    ensures !IsBlank(q)
  {
  }

  /** Typing "d", "du", "dune" inside the debounce window starts exactly one
      search, for "dune". */
  method TypingStartsOneSearch() returns (s: SearchBox)
    ensures s.inFlight == ["dune"] && s.timer.pending == map[]
  {
    s := new SearchBox();
    s.Open();
    VisibleStartNotBlank("d");
    s.ChangeQuery("d");
    VisibleStartNotBlank("du");
    s.ChangeQuery("du");
    VisibleStartNotBlank("dune");
    s.ChangeQuery("dune");
    s.Fire(s.timer.current.value);
  }

  /** A search that resolves after the box was closed still fills the results:
      the late response is not discarded. */
  method LateResponseAfterClose(m: Movie) returns (s: SearchBox)
    ensures !s.isSearchActive && s.query == [] && s.results == [m]
  {
    s := new SearchBox();
    s.Open();
    VisibleStartNotBlank("dune");
    s.ChangeQuery("dune");
    s.Fire(s.timer.current.value);
    s.Close();
    s.Resolve(0, [m]);
  }
}
