/** The hero carousel: a cursor over the first five trending movies that
    advances on its own every 8 seconds, can be moved by swipe or by clicking a
    thumbnail, and restarts its auto-advance timer after every move. */
module Hero {
  import opened Catalog
  import opened Timers

  /** Number of movies the carousel shows. */
  const CarouselSize: nat := 5
  /** Horizontal travel, in pixels, a touch must exceed to count as a swipe. */
  const SwipeThreshold: int := 50
  /** Year badge shown when neither date yields a year. */
  const YearFallback: string := "2024"
  /** Number of genre names shown. */
  const GenreLimit: nat := 3

  lemma MulAtLeast(d: int, m: int)
    requires d >= 1 && m > 0
    ensures d * m >= m
  {
  }

  /** Division with remainder has one answer: the modular facts below rest on it. */
  lemma ModUnique(a: int, m: int, q: int, r: int)
    requires 0 < m && 0 <= r < m && a == q * m + r
    ensures a % m == r && a / m == q
  {
    var d := q - a / m;
    assert a == (a / m) * m + a % m;
    assert d * m == a % m - r;
    if d >= 1 {
      MulAtLeast(d, m);
    } else if d <= -1 {
      MulAtLeast(-d, m);
    }
  }

  /** `prev === len - 1 ? 0 : prev + 1`. */
  function NextIndex(i: nat, len: nat): (r: nat)
    ensures i < len ==> r < len && r == (i + 1) % len
    ensures len == 0 ==> r == i + 1
  {
    if i + 1 == len then
      ModUnique(i + 1, len, 1, 0);
      0
    else
      if i < len then ModUnique(i + 1, len, 0, i + 1); i + 1
      else i + 1
  }

  /** `prev === 0 ? len - 1 : prev - 1`; only reachable while a movie is shown. */
  function PrevIndex(i: nat, len: nat): (r: nat)
    requires i < len
    ensures r < len && r == (i - 1 + len) % len
  {
    if i == 0 then
      ModUnique(len - 1, len, 0, len - 1);
      len - 1
    else
      ModUnique(i - 1 + len, len, 1, i - 1);
      i - 1
  }

  /** The index after `n` automatic advances. */
  function AdvanceBy(i: nat, len: nat, n: nat): nat
  {
    if n == 0 then i else NextIndex(AdvanceBy(i, len, n - 1), len)
  }

  /** One advance from `a mod m` is `(a + 1) mod m`. */
  lemma NextOfMod(a: nat, m: nat)
    requires 0 < m
    ensures NextIndex(a % m, m) == (a + 1) % m
  {
    var q, k := a / m, a % m;
    assert a == q * m + k;
    if k + 1 < m {
      ModUnique(a + 1, m, q, k + 1);
    } else {
      assert (q + 1) * m == q * m + m;
      ModUnique(a + 1, m, q + 1, 0);
    }
  }

  lemma {:induction false} AdvanceByIsModular(i: nat, len: nat, n: nat)
    requires i < len
    ensures AdvanceBy(i, len, n) == (i + n) % len
  {
    if n == 0 {
      ModUnique(i, len, 0, i);
    } else {
      AdvanceByIsModular(i, len, n - 1);
      NextOfMod(i + n - 1, len);
    }
  }

  /** Left alone, the carousel shows every movie of its window in turn and
      comes back to where it started after `len` advances. */
  lemma CarouselCycles(len: nat)
    requires 0 < len
    ensures forall j :: 0 <= j < len ==> AdvanceBy(0, len, j) == j
    ensures forall i :: 0 <= i < len ==> AdvanceBy(i, len, len) == i
  {
    forall j | 0 <= j < len ensures AdvanceBy(0, len, j) == j {
      AdvanceByIsModular(0, len, j);
      ModUnique(j, len, 0, j);
    }
    forall i | 0 <= i < len ensures AdvanceBy(i, len, len) == i {
      AdvanceByIsModular(i, len, len);
      ModUnique(i + len, len, 1, i);
    }
  }

  lemma PrevUndoesNext(i: nat, len: nat)
    requires i < len
    ensures PrevIndex(NextIndex(i, len), len) == i
    ensures NextIndex(PrevIndex(i, len), len) == i
  {
  }

  datatype Swipe = SwipeNext | SwipePrev | NoSwipe

  /** How a touch that started at `startX` and ended at `endX` is read:
      `delta = startX - endX`, more than `SwipeThreshold` to the left is next,
      more than it to the right is previous, anything shorter is ignored. */
  function SwipeOf(startX: int, endX: int): (r: Swipe)
    ensures r == SwipeNext <==> startX - endX > SwipeThreshold
    ensures r == SwipePrev <==> startX - endX < -SwipeThreshold
    ensures r == NoSwipe <==> -SwipeThreshold <= startX - endX <= SwipeThreshold
  {
    var delta := startX - endX;
    if delta > SwipeThreshold then SwipeNext
    else if delta < -SwipeThreshold then SwipePrev
    else NoSwipe
  }

  /** JavaScript's `%`: the remainder takes the sign of the dividend. */
  function TruncRem(a: int, b: int): (r: int)
    requires b > 0
    ensures (a - r) % b == 0
    ensures a >= 0 ==> 0 <= r < b
    ensures a < 0 ==> -b < r <= 0
  {
    if a >= 0 then
      ModUnique(a - a % b, b, a / b, 0);
      a % b
    else
      var q := (-a) / b;
      assert -a == q * b + (-a) % b;
      assert a + (-a) % b == (-q) * b;
      ModUnique(a + (-a) % b, b, -q, 0);
      -((-a) % b)
  }

  datatype RuntimeText = RuntimeText(hours: int, minutes: int)

  /** `formatRuntime`: `Math.floor(runtime / 60)` hours and `runtime % 60` minutes. */
  function FormatRuntime(runtime: int): (r: RuntimeText)
    ensures runtime >= 0 ==> r.hours >= 0 && 0 <= r.minutes < 60 && r.hours * 60 + r.minutes == runtime
    ensures runtime < 0 ==> r.hours < 0 && -60 < r.minutes <= 0
  {
    RuntimeText(runtime / 60, TruncRem(runtime, 60))
  }

  /** What `{movieDetails?.runtime && <badge/>}` puts on the page. */
  datatype RuntimeSlot = Nothing | BareNumber(n: int) | Badge(text: RuntimeText)

  /** As written: JSX renders the left operand of `&&` when it is falsy and a
      number, so a runtime of 0 shows a bare "0" among the badges. */
  function RuntimeSlotAsWritten(details: Option<MovieDetails>): (r: RuntimeSlot)
    ensures r.BareNumber? <==> details.Some? && details.value.runtime == Some(0)
    ensures r.Badge? ==> details.Some? && details.value.runtime.Some? && r.text == FormatRuntime(details.value.runtime.value)
  {
    match details
    case None => Nothing
    case Some(d) =>
      match d.runtime
      case None => Nothing
      case Some(m) => if m == 0 then BareNumber(0) else Badge(FormatRuntime(m))
  }

  lemma ZeroRuntimeShowsBareZero(d: MovieDetails)
    requires d.runtime == Some(0)
    ensures RuntimeSlotAsWritten(Some(d)) == BareNumber(0)
  {
  }

  /** Corrected: the runtime badge appears exactly for a known non-zero
      runtime, and nothing else is ever rendered in its place. */
  function RuntimeSlotOf(details: Option<MovieDetails>): (r: RuntimeSlot)
    ensures !r.BareNumber?
    ensures r.Badge? <==> details.Some? && details.value.runtime.Some? && details.value.runtime.value != 0
    ensures r.Badge? ==> r.text == FormatRuntime(details.value.runtime.value)
    ensures r != RuntimeSlotAsWritten(details) <==> details.Some? && details.value.runtime == Some(0)
  {
    match details
    case None => Nothing
    case Some(d) =>
      match d.runtime
      case None => Nothing
      case Some(m) => if m == 0 then Nothing else Badge(FormatRuntime(m))
  }

  /** `genres.slice(0, 3).map((g) => g.name)`. */
  function GenreNames(genres: seq<Genre>): (r: seq<string>)
    ensures |r| == Min(GenreLimit, |genres|)
    ensures forall i :: 0 <= i < |r| ==> r[i] == genres[i].name
  {
    var shown := Take(genres, GenreLimit);
    seq(|shown|, i requires 0 <= i < |shown| => shown[i].name)
  }

  /** The year badge: the release year, else the first-air year, else "2024". */
  function HeroYear(m: Movie): (r: string)
    ensures r != []
    ensures r == YearFallback || ('-' !in r && (r == YearOf(m.releaseDate) || r == YearOf(m.firstAirDate)))
  {
    YearLabel(m, YearFallback)
  }

  class Carousel {
    /** `movies.slice(0, 5)`. */
    const items: seq<Movie>
    const len: nat
    /** `currentIndex`. */
    var index: nat
    /** `timeoutRef` and the carousel's pending auto-advance timers. */
    var timer: TimerSlot<()>
    /** `touchStartX`. */
    var touchStartX: int

    ghost predicate Valid()
      reads this
    {
      && len == |items| <= CarouselSize
      && (len > 0 ==> index < len)
      && SlotValid(timer)
    }

    /** An auto-advance is pending. */
    predicate TimerArmed()
      reads this
    {
      timer.pending != map[]
    }

    /** `carouselMovies[currentIndex]`; the component renders nothing while it is undefined. */
    function CurrentMovie(): (m: Option<Movie>)
      reads this
      ensures m.Some? <==> index < |items|
      ensures m.Some? ==> m.value == items[index] && m.value in items
    {
      if index < |items| then Some(items[index]) else None
    }

    /** Mounting: index 0 and the first auto-advance timer armed by the effect. */
    constructor (movies: seq<Movie>)
      ensures Valid()
      ensures items == Take(movies, CarouselSize) && len == Min(CarouselSize, |movies|)
      ensures index == 0 && touchStartX == 0
      ensures TimerArmed() && timer.current.Some? && timer.pending.Keys == {timer.current.value}
    {
      items := Take(movies, CarouselSize);
      len := |Take(movies, CarouselSize)|;
      index := 0;
      touchStartX := 0;
      timer := Arm(Clear(NewSlot()), ());
    }

    /** `handleNextMovie`: move on (wrapping), clear the pending timer; the
        effect arms a fresh one only if the index actually changed. */
    method Next()
      requires Valid()
      modifies this
      ensures Valid()
      ensures index == NextIndex(old(index), len)
      ensures forall h :: h in old(timer.pending) ==> h !in timer.pending
      ensures TimerArmed() <==> index != old(index)
      ensures TimerArmed() ==> timer.pending.Keys == {old(timer.nextHandle)}
      ensures touchStartX == old(touchStartX)
    {
      var was := index;
      index := NextIndex(index, len);
      timer := Clear(timer);
      if index != was {
        IndexEffect();
      }
    }

    /** `handlePrevMovie`: move back (wrapping) and clear the timer, as in `Next`. */
    method Prev()
      requires Valid() && index < len
      modifies this
      ensures Valid()
      ensures index == PrevIndex(old(index), len)
      ensures forall h :: h in old(timer.pending) ==> h !in timer.pending
      ensures TimerArmed() <==> index != old(index)
      ensures TimerArmed() ==> timer.pending.Keys == {old(timer.nextHandle)}
      ensures touchStartX == old(touchStartX)
    {
      var was := index;
      index := PrevIndex(index, len);
      timer := Clear(timer);
      if index != was {
        IndexEffect();
      }
    }

    /** `handleThumbnailClick(i)` for one of the rendered thumbnails. */
    method Jump(i: nat)
      requires Valid() && i < len
      modifies this
      ensures Valid()
      ensures index == i
      ensures forall h :: h in old(timer.pending) ==> h !in timer.pending
      ensures TimerArmed() <==> i != old(index)
      ensures TimerArmed() ==> timer.pending.Keys == {old(timer.nextHandle)}
      ensures touchStartX == old(touchStartX)
    {
      var was := index;
      index := i;
      timer := Clear(timer);
      if index != was {
        IndexEffect();
      }
    }

    /** The pending auto-advance timer `h` fires and calls `handleNextMovie`. */
    method Tick(h: nat)
      requires Valid() && h in timer.pending
      modifies this
      ensures Valid()
      ensures index == NextIndex(old(index), len)
      ensures h !in timer.pending
      ensures TimerArmed() <==> index != old(index)
      ensures TimerArmed() ==> timer.pending.Keys == {old(timer.nextHandle)}
      ensures touchStartX == old(touchStartX)
    {
      timer := Fire(timer, h);
      Next();
    }

    /** `handleTouchStart`. */
    method TouchStart(x: int)
      requires Valid()
      modifies this
      ensures Valid()
      ensures touchStartX == x && index == old(index) && timer == old(timer)
    {
      touchStartX := x;
    }

    /** `handleTouchEnd`: two independent tests on `delta`, so at most one of
        next and previous runs. */
    method TouchEnd(endX: int)
      requires Valid() && index < len
      modifies this
      ensures Valid()
      ensures touchStartX == old(touchStartX)
      ensures SwipeOf(old(touchStartX), endX) == SwipeNext ==> index == NextIndex(old(index), len)
      ensures SwipeOf(old(touchStartX), endX) == SwipePrev ==> index == PrevIndex(old(index), len)
      ensures SwipeOf(old(touchStartX), endX) == NoSwipe ==> index == old(index) && timer == old(timer)
      ensures SwipeOf(old(touchStartX), endX) != NoSwipe ==>
        (forall h :: h in old(timer.pending) ==> h !in timer.pending) && (TimerArmed() <==> index != old(index))
    {
      var delta := touchStartX - endX;
      if delta > SwipeThreshold {
        Next();
      }
      if delta < -SwipeThreshold {
        Prev();
      }
    }

    /** `onPlayClick(currentMovie)`. */
    method PlayClick() returns (m: Movie)
      requires Valid() && index < len
      ensures m == items[index] && Some(m) == CurrentMovie()
    {
      m := items[index];
    }

    /** Unmounting runs the effect's cleanup: no auto-advance fires afterwards. */
    method Unmount()
      requires Valid()
      modifies this
      ensures Valid() && !TimerArmed()
      ensures index == old(index) && touchStartX == old(touchStartX)
    {
      timer := Clear(timer);
    }

    /** The `[currentIndex]` effect after a change: the previous run's cleanup,
        then `resetTimeout()` and `setTimeout(handleNextMovie, 8000)`. */
    method IndexEffect()
      requires SlotValid(timer)
      modifies this`timer
      ensures SlotValid(timer)
      ensures forall h :: h in old(timer.pending) ==> h !in timer.pending
      ensures timer.pending.Keys == {old(timer.nextHandle)}
    {
      timer := Clear(timer);
      timer := Clear(timer);
      timer := Arm(timer, ());
    }
  }

  /** Clicking the thumbnail already shown clears the timer, and React skips
      the effect for an unchanged index, so the carousel stops advancing. */
  method JumpToCurrentStopsAutoAdvance(movies: seq<Movie>) returns (c: Carousel)
    requires |movies| > 0
    ensures c.index == 0 && !c.TimerArmed()
  {
    c := new Carousel(movies);
    c.Jump(0);
  }

  /** A one-movie carousel ticks once; the index stays 0, so no timer is re-armed. */
  method SingleMovieTicksOnce(m: Movie) returns (c: Carousel)
    ensures c.index == 0 && !c.TimerArmed()
  {
    c := new Carousel([m]);
    var h := c.timer.current.value;
    c.Tick(h);
  }

  /** With no movies the component renders nothing, yet the effect keeps
      re-arming and the index grows past the (empty) window on every tick. */
  method EmptyCarouselKeepsTicking() returns (c: Carousel)
    ensures c.index == 2 && c.TimerArmed() && c.CurrentMovie() == None
  {
    c := new Carousel([]);
    c.Tick(c.timer.current.value);
    c.Tick(c.timer.current.value);
  }
}
