# CineScope client state, modelled in Dafny

CineScope is a small streaming-catalog front end. This project models the
three pieces of its client-side logic that carry state and rules:

- **The hero carousel** (`Hero`). It is a cursor over the first five trending
  movies. It moves forward on its own every 8 seconds, and moves forward or
  back by swipe, by thumbnail click or by timer expiry, wrapping at both ends.
  An effect keyed on the current index re-arms the auto-advance timer. The
  module also holds the small formatters the carousel renders: runtime, year
  badge and genre list.
- **The search box** (`Navbar`). Every query change cancels the pending
  500 ms debounce timer. A blank query (after JavaScript `trim`) empties the
  results; any other query arms one new timer. When that timer fires, the
  search starts with the untrimmed query. The first five hits of the response
  are listed. Closing the box and picking a result both reset it.
- **Trailer selection and the overlay** (`MainView`). A click on a movie
  resolves its video list. It plays the first YouTube trailer, falls back to
  the first video when there is none, and does nothing when the list is empty.
  A splash flag hides the page, and so the overlay, for the first 2.5 seconds.

`Catalog` holds the record shapes the catalog API returns (movie, genre,
video, details, with optional fields as `Option`), `Take` (`slice(0, n)`) and
the year label shared by both views. `Timers` models one `useRef` slot
holding a `setTimeout` handle:

- `current` is what the ref holds. A cleared handle stays there, as in
  JavaScript.
- `pending` maps every live timer to the data its callback captured.
- `nextHandle` supplies fresh handles.

Time is not modelled. A timer fires by an explicit event (`Carousel.Tick`,
`SearchBox.Fire`, `View.LoadingTimerFires`). A network response is a method
parameter.

Component state the source updates in place is modelled as a class. Pure
expressions are modelled as functions.

- `Hero.Carousel` has the fields `index`, `len`, `timer` and `touchStartX`.
  The "timer armed" state is the predicate `Carousel.TimerArmed()` over the
  timer slot.
- `Navbar.SearchBox` holds `isSearchActive`, `query`, `results`, the
  debounce slot, and the searches started so far (`inFlight`).
- `MainView.View` holds `isLoading`, `showModal`, `trailerKey` and whether
  the splash timer is still pending.

React runs an effect only when one of its dependencies changed. A
`setState` with an unchanged value therefore re-runs nothing. The model
follows this:

- Clicking the thumbnail already shown clears the auto-advance timer without
  re-arming it, and so does a tick of a one-movie carousel. In both cases
  the carousel stops advancing (`JumpToCurrentStopsAutoAdvance`,
  `SingleMovieTicksOnce`).
- Setting the query to the value it already has does nothing.

In these places the code does less than its handler names suggest, and the
model follows the code:

- Manual navigation re-arms the timer only when the index actually changes.
- A search response is not checked against the current query. One that
  resolves after the box was closed still fills the results
  (`LateResponseAfterClose`).
- A carousel over no movies renders nothing. Its effect still arms the timer,
  and each tick pushes the index further past the empty window
  (`EmptyCarouselKeepsTicking`). The page only mounts the carousel with at
  least one movie.

## Model

| member | source | states |
|---|---|---|
| Catalog.Take | components/Hero.tsx:20 | `slice(0, n)` keeps exactly the first `min(n, length of s)` elements, in their original order |
| Catalog.YearPart | components/Hero.tsx:129 | `split('-')[0]` is a prefix of the date that contains no '-' and is either the whole date or stops right at the first '-' |
| Catalog.YearOf | components/Hero.tsx:129 | an absent date gives the empty (falsy) year; a present one gives its text before the first '-' |
| Catalog.YearLabel | components/Hero.tsx:129 | the release year when non-empty, else the first-air year when non-empty, else the fallback; a non-empty fallback makes the label non-empty |
| Catalog.YearPartOfIsoDate | components/Hero.tsx:129 | for a date `y-rest` whose year part has no '-', the label is exactly `y` |
| Catalog.DisplayTitle | components/Hero.tsx:120 | `title` or else `name`: a non-empty title wins; an absent or empty title gives the name, or nothing when that is absent too |
| Timers.NewSlot | components/Hero.tsx:17 | `useRef(null)`: no handle and no pending timer |
| Timers.Clear | components/Hero.tsx:23-27 | `clearTimeout(ref.current)` cancels the timer the ref holds and no other; on a consistent slot nothing stays pending |
| Timers.Arm | components/Hero.tsx:41-43 | `ref.current = setTimeout(...)` adds one fresh handle, with its captured payload, and makes it current |
| Timers.Fire | components/Hero.tsx:41-42 | an expiring timer leaves the pending set and nothing else changes |
| Timers.AtMostOnePending | components/Navbar.tsx:35-45 | because every re-arm is preceded by a clear, at most one timer is pending, and it is the one the ref holds |
| Timers.ArmWithoutClearLeavesTwo | components/Navbar.tsx:35-42 | arming again without the clear would leave two live timers, so the clear is what keeps one |
| Hero.NextIndex | components/Hero.tsx:30 | from the last index the next index is 0, otherwise index+1; it is `(index+1) mod len` and stays in `[0, len)` |
| Hero.PrevIndex | components/Hero.tsx:35 | from 0 the previous index is len−1, otherwise index−1; it is `(index−1+len) mod len` and stays in `[0, len)` |
| Hero.PrevUndoesNext | components/Hero.tsx:29-37 | Prev after Next, and Next after Prev, return the original index |
| Hero.AdvanceByIsModular | components/Hero.tsx:39-48 | `n` automatic advances from index `i` land on `(i+n) mod len` |
| Hero.CarouselCycles | components/Hero.tsx:39-48 | left alone, the carousel visits every movie of its window in order and is back where it started after `len` advances |
| Hero.SwipeOf | components/Hero.tsx:70-80 | delta = start − end: more than 50 is Next, less than −50 is Prev, anything in [−50, 50] is no move; the three cases exclude each other |
| Hero.TruncRem | components/Hero.tsx:85 | JavaScript `%` with a positive divisor: the remainder differs from the dividend by a multiple of the divisor and has the dividend's sign |
| Hero.FormatRuntime | components/Hero.tsx:83-87 | for a runtime r ≥ 0: hours ≥ 0, 0 ≤ minutes < 60 and hours·60 + minutes = r; a negative runtime gives negative hours and minutes in (−60, 0] |
| Hero.RuntimeSlotAsWritten | components/Hero.tsx:134-138 | `runtime && <badge/>` as written: the badge shows the formatted runtime, and a runtime of 0 puts a bare number on the page |
| Hero.ZeroRuntimeShowsBareZero | components/Hero.tsx:134-138 | for a runtime of 0 the code as written renders the bare number 0 |
| Hero.RuntimeSlotOf | components/Hero.tsx:134-138 | corrected: the badge appears exactly for a known non-zero runtime and no bare number ever appears; it differs from the code as written exactly at runtime 0 |
| Hero.GenreNames | components/Hero.tsx:144 | at most 3 genre names, namely those of the first genres, in their original order |
| Hero.HeroYear | components/Hero.tsx:129 | the year badge is never empty: a year without '-' taken from the release or first-air date, or "2024" |
| Hero.Carousel.CurrentMovie | components/Hero.tsx:21 | there is a current movie exactly when the index lies inside the window, and it is the movie at that index |
| Hero.Carousel.constructor | components/Hero.tsx:13-20 | mounting: the window is the first `min(5, length of movies)` movies, the index is 0, and the effect has armed exactly one timer |
| Hero.Carousel.Next | components/Hero.tsx:29-32 | the index becomes NextIndex; every timer pending before is cancelled; a new one is armed iff the index changed |
| Hero.Carousel.Prev | components/Hero.tsx:34-37 | the index becomes PrevIndex; every timer pending before is cancelled; a new one is armed iff the index changed |
| Hero.Carousel.Jump | components/Hero.tsx:61-64 | the index becomes the clicked one; every timer pending before is cancelled; a new one is armed iff that index differs from the old one |
| Hero.Carousel.Tick | components/Hero.tsx:41-43 | a firing timer does exactly a Next: the index becomes NextIndex and the fired timer is gone |
| Hero.Carousel.IndexEffect | components/Hero.tsx:39-48 | the effect's cleanup and body cancel every timer pending before and leave exactly one fresh timer pending |
| Hero.Carousel.TouchStart | components/Hero.tsx:66-68 | records where the touch started and changes nothing else |
| Hero.Carousel.TouchEnd | components/Hero.tsx:70-81 | a swipe the rule reads as Next does a Next, one read as Prev does a Prev, and a short one changes neither the index nor the timer |
| Hero.Carousel.PlayClick | components/Hero.tsx:156 | the play button hands out the movie currently shown |
| Hero.Carousel.Unmount | components/Hero.tsx:45-47 | after the effect's cleanup no auto-advance is pending |
| Hero.JumpToCurrentStopsAutoAdvance | components/Hero.tsx:61-64 | clicking the thumbnail already shown leaves no timer armed |
| Hero.SingleMovieTicksOnce | components/Hero.tsx:39-48 | a one-movie carousel ticks once and then no timer is armed |
| Hero.EmptyCarouselKeepsTicking | components/Hero.tsx:89 | with no movies nothing is shown, yet after two ticks the index is 2 and a timer is still armed |
| Navbar.Trim | components/Navbar.tsx:37 | `trim()` is exactly the stretch from the first to the last visible character, inner whitespace included; a blank string trims to empty; the result begins and ends with a visible character |
| Navbar.VisibleFrom | components/Navbar.tsx:37 | the first visible position at or after `i`: everything before it is whitespace |
| Navbar.VisibleUntil | components/Navbar.tsx:37 | the end of the last visible character before `j`: everything after it is whitespace |
| Navbar.TrimEmptyIffBlank | components/Navbar.tsx:37 | a query trims to empty exactly when all of its characters are JavaScript whitespace |
| Navbar.ResultYear | components/Navbar.tsx:130 | a result's year is never empty: a year without '-' from the release or first-air date, or "N/A" |
| Navbar.SearchBox.ShownResults | components/Navbar.tsx:114-120 | the dropdown shows the results, and only while the search box is open |
| Navbar.SearchBox.constructor | components/Navbar.tsx:14-18 | a closed box with an empty query, no results and no timer |
| Navbar.SearchBox.Open | components/Navbar.tsx:142 | opens the box and changes nothing else |
| Navbar.SearchBox.ChangeQuery | components/Navbar.tsx:34-46 | an unchanged query does nothing; otherwise every pending timer is cancelled, then a blank query empties the results and arms nothing, and any other query arms exactly one timer carrying that query |
| Navbar.SearchBox.QueryEffect | components/Navbar.tsx:34-46 | the `[query]` effect: cancel, then clear the results (blank query) or arm one timer for the query |
| Navbar.SearchBox.Fire | components/Navbar.tsx:42-43 | the expiring timer starts a search with the current, untrimmed query and nothing stays pending |
| Navbar.SearchBox.Resolve | components/Navbar.tsx:43-44 | a finished search sets the results to the first `min(5, length of response)` hits, in order, whether or not it is still current |
| Navbar.SearchBox.Close | components/Navbar.tsx:48-52 | whatever the state before: closed, empty query, no results, no timer pending |
| Navbar.SearchBox.Select | components/Navbar.tsx:54-57 | the callback, when given, hears of exactly the chosen movie once; then the same reset as Close |
| Navbar.OnePendingSearch | components/Navbar.tsx:42-45 | at any moment at most one search is waiting to start, and it would use the current query |
| Navbar.VisibleStartNotBlank | components/Navbar.tsx:37 | a query starting with a visible character is not blank |
| Navbar.TypingStartsOneSearch | components/Navbar.tsx:34-46 | typing "d", "du", "dune" within the debounce window starts exactly one search, for "dune" |
| Navbar.LateResponseAfterClose | components/Navbar.tsx:42-52 | a search that resolves after the box was closed still fills the results |
| MainView.FindTrailer | components/MainView.tsx:38-40 | `find` returns the first YouTube trailer: it qualifies, nothing before it does, and there is none exactly when no video qualifies |
| MainView.SelectVideo | components/MainView.tsx:37-53 | the first YouTube trailer if any, else the first video, else nothing; nothing exactly for the empty list |
| MainView.ChosenKey | components/MainView.tsx:37-53 | a key is chosen exactly when the list is non-empty, and it is the key of a video of the list |
| MainView.TrailerBeatsEarlierVideos | components/MainView.tsx:38-44 | a YouTube trailer preceded only by videos that do not qualify provides the chosen key, whatever follows it |
| MainView.View.OverlayShown | components/MainView.tsx:80 | the overlay is on screen exactly when the splash is gone, `showModal` holds and the key is present and non-empty |
| MainView.View.constructor | components/MainView.tsx:24-29 | initially loading, no overlay, no key, and the splash timer armed |
| MainView.View.LoadingTimerFires | components/MainView.tsx:29-31 | the splash timer clears `isLoading` and touches nothing else |
| MainView.View.Unmount | components/MainView.tsx:33 | the cleanup cancels the splash timer and changes nothing else |
| MainView.View.HandleMovieClick | components/MainView.tsx:36-54 | a non-empty list opens the overlay on the chosen key; an empty one changes nothing; `isLoading` never returns to true |
| MainView.View.CloseModal | components/MainView.tsx:56-59 | hides the overlay and forgets the key, and nothing else changes |
| MainView.SelectFromSearch | components/Navbar.tsx:54-57 | picking a search result resets the search box (no timer pending, started searches kept) and opens the overlay on the chosen key of that movie's videos; `isLoading` and the splash timer are untouched |
| MainView.PlayFromCarousel | components/Hero.tsx:156 | the play button opens the overlay on the chosen key of the shown movie's videos; `isLoading` and the splash timer are untouched |

## Left out

- The catalog API client (`lib/tmdb.ts`) is left out because it is HTTP I/O. Its responses become method parameters: the search response, the movie's video list and the details record.
- Real time is left out. The 8000, 500 and 2500 ms delays are not represented; a timer fires by an explicit event.
- Async interleaving is modelled only through `inFlight`, the list of started searches, which may resolve in any order.
- The carousel's details fetch (`components/Hero.tsx:51-59`) is left out, as a last-write-wins async update. The runtime and genre formatters take the details record as a parameter instead.
- `MovieRow`, `Modal`, `IntroLoader`, the page and the layout are left out as markup and DOM scrolling.
- `vote_average.toFixed(1)` is left out because it is floating-point formatting.
- The navigation bar's scroll listener, input focus and the `isLiked` toggle are left out as incidental UI state. So are image URLs and styling.
- Hero.FormatRuntime: the result gives hours and minutes as integers. Their decimal rendering in `${hours}h ${minutes}m` is not modelled, and a non-integer runtime is outside the model.
- Hero.GenreNames: gives the list of names. Joining them with `' • '` is not modelled.
- Hero.Carousel.TouchEnd: touch positions are integers. Fractional `clientX` values are not modelled.
- Hero.Carousel: a change of the `movies` prop after mounting is not modelled. The window is fixed at construction.
- Hero.Carousel.Prev, Hero.Carousel.Jump, Hero.Carousel.TouchEnd and Hero.Carousel.PlayClick require a movie to be shown, because their controls exist only then.

## Findings

| source | as written | input that shows it | evidently intended | confidence | as-written member | corrected member |
|---|---|---|---|---|---|---|
| components/Hero.tsx:134-138 | `{movieDetails?.runtime && <badge/>}` renders the left operand when it is a falsy number | details whose `runtime` is 0: React prints a bare "0" among the badges | no runtime badge and nothing else when the runtime is 0 or unknown | medium, not executed | Hero.RuntimeSlotAsWritten | Hero.RuntimeSlotOf |
