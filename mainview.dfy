/** The top-level view: a splash screen for the first 2.5 seconds, then the
    browsing page; clicking any movie looks up its videos and opens the
    trailer overlay for the video the selection rule picks. */
module MainView {
  import opened Catalog
  import Navbar
  import Hero

  /** The video type and host the selection rule prefers. */
  const TrailerKind: string := "Trailer"
  const TrailerSite: string := "YouTube"

  predicate IsYouTubeTrailer(v: Video) {
    v.kind == TrailerKind && v.site == TrailerSite
  }

  /** `videos.find((v) => v.type === 'Trailer' && v.site === 'YouTube')`, as
      the position of the video found. */
  function FindTrailer(videos: seq<Video>): (r: Option<nat>)
    ensures r.Some? ==> r.value < |videos| && IsYouTubeTrailer(videos[r.value])
    ensures r.Some? ==> forall j :: 0 <= j < r.value ==> !IsYouTubeTrailer(videos[j])
    ensures r.None? <==> forall j :: 0 <= j < |videos| ==> !IsYouTubeTrailer(videos[j])
  {
    if |videos| == 0 then None
    else if IsYouTubeTrailer(videos[0]) then Some(0)
    else
      match FindTrailer(videos[1..])
      case None => None
      case Some(i) => Some(i + 1)
  }

  /** The position of the video `handleMovieClick` plays: the first YouTube
      trailer, else the first video, else none. */
  function SelectVideo(videos: seq<Video>): (r: Option<nat>)
    ensures r.None? <==> |videos| == 0
    ensures r.Some? ==> r.value < |videos|
    ensures (exists j :: 0 <= j < |videos| && IsYouTubeTrailer(videos[j])) ==>
      && r.Some? && IsYouTubeTrailer(videos[r.value])
      && forall j :: 0 <= j < r.value ==> !IsYouTubeTrailer(videos[j])
    ensures (forall j :: 0 <= j < |videos| ==> !IsYouTubeTrailer(videos[j])) && |videos| > 0 ==> r == Some(0)
  {
    match FindTrailer(videos)
    case Some(i) => Some(i)
    case None => if |videos| > 0 then Some(0) else None
  }

  /** The trailer key chosen for a video list: there is one exactly when the
      list is non-empty, and it always belongs to a video of the list. */
  function ChosenKey(videos: seq<Video>): (r: Option<string>)
    ensures r.None? <==> |videos| == 0
    ensures r.Some? ==> exists i :: 0 <= i < |videos| && videos[i].key == r.value
    ensures r.Some? ==> r.value == videos[SelectVideo(videos).value].key
  {
    match SelectVideo(videos)
    case None => None
    case Some(i) => Some(videos[i].key)
  }

  /** A YouTube trailer wins over any earlier video of another kind. */
  lemma {:induction false} TrailerBeatsEarlierVideos(before: seq<Video>, trailer: Video, after: seq<Video>)
    requires forall j :: 0 <= j < |before| ==> !IsYouTubeTrailer(before[j])
    requires IsYouTubeTrailer(trailer)
    ensures ChosenKey(before + [trailer] + after) == Some(trailer.key)
  {
    var vs := before + [trailer] + after;
    assert vs[|before|] == trailer;
  }

  class View {
    var isLoading: bool
    var showModal: bool
    var trailerKey: Option<string>
    /** The 2.5-second splash timer has been armed and has neither fired nor been cleared. */
    var loadingTimerPending: bool

    /** `showModal && trailerKey && <Modal/>`, on the page that replaces the splash screen. */
    predicate OverlayShown()
      reads this
    {
      !isLoading && showModal && trailerKey.Some? && trailerKey.value != []
    }

    /** Mounting: the splash screen is up, no overlay, and the splash timer armed. */
    constructor ()
      ensures isLoading && !showModal && trailerKey == None && loadingTimerPending
      ensures !OverlayShown()
    {
      isLoading := true;
      showModal := false;
      trailerKey := None;
      loadingTimerPending := true;
    }

    /** The splash timer fires: `setIsLoading(false)`. */
    method LoadingTimerFires()
      requires loadingTimerPending
      modifies this
      ensures !isLoading && !loadingTimerPending
      ensures showModal == old(showModal) && trailerKey == old(trailerKey)
    {
      loadingTimerPending := false;
      isLoading := false;
    }

    /** Unmounting runs the effect's cleanup, `clearTimeout(timer)`. */
    method Unmount()
      modifies this
      ensures !loadingTimerPending
      ensures isLoading == old(isLoading) && showModal == old(showModal) && trailerKey == old(trailerKey)
    {
      loadingTimerPending := false;
    }

    /** `handleMovieClick` once `fetchMovieVideos(movie.id)` has resolved to
        `videos`: open the overlay on the chosen key, or leave everything as it
        was (only a log line) when there is no video at all. */
    method HandleMovieClick(videos: seq<Video>)
      modifies this
      ensures ChosenKey(videos).Some? ==> showModal && trailerKey == ChosenKey(videos)
      ensures ChosenKey(videos).None? ==> showModal == old(showModal) && trailerKey == old(trailerKey)
      ensures isLoading == old(isLoading) && loadingTimerPending == old(loadingTimerPending)
      ensures OverlayShown() <==> if |videos| > 0 then !isLoading && ChosenKey(videos).value != [] else old(OverlayShown())
    {
      var trailer := FindTrailer(videos);
      if trailer.Some? {
        trailerKey := Some(videos[trailer.value].key);
        showModal := true;
      } else if |videos| > 0 {
        trailerKey := Some(videos[0].key);
        showModal := true;
      }
    }

    /** `handleCloseModal`. */
    method CloseModal()
      modifies this
      ensures !showModal && trailerKey == None && !OverlayShown()
      ensures isLoading == old(isLoading) && loadingTimerPending == old(loadingTimerPending)
    {
      showModal := false;
      trailerKey := None;
    }
  }

  /** A search result is picked: the callback `handleMovieClick` starts (its
      video fetch resolving to `videos`), and the search box resets at once,
      whatever the fetch later yields. */
  method SelectFromSearch(nav: Navbar.SearchBox, view: View, m: Movie, videos: seq<Video>)
    requires nav.Valid() && m in nav.ShownResults()
    modifies nav, view
    ensures nav.Valid() && !nav.isSearchActive && nav.query == [] && nav.results == []
    ensures nav.timer.pending == map[] && nav.inFlight == old(nav.inFlight)
    ensures view.isLoading == old(view.isLoading) && view.loadingTimerPending == old(view.loadingTimerPending)
    ensures ChosenKey(videos).Some? ==> view.showModal && view.trailerKey == ChosenKey(videos)
    ensures ChosenKey(videos).None? ==> view.showModal == old(view.showModal) && view.trailerKey == old(view.trailerKey)
  {
    var notified := nav.Select(m, true);
    assert notified == [m];
    view.HandleMovieClick(videos);
  }

  /** The carousel's play button hands the current movie to `handleMovieClick`. */
  method PlayFromCarousel(c: Hero.Carousel, view: View, videos: seq<Video>) returns (m: Movie)
    requires c.Valid() && c.index < c.len
    modifies view
    ensures Some(m) == c.CurrentMovie()
    ensures view.isLoading == old(view.isLoading) && view.loadingTimerPending == old(view.loadingTimerPending)
    ensures ChosenKey(videos).Some? ==> view.showModal && view.trailerKey == ChosenKey(videos)
    ensures ChosenKey(videos).None? ==> view.showModal == old(view.showModal) && view.trailerKey == old(view.trailerKey)
  {
    m := c.PlayClick();
    view.HandleMovieClick(videos);
  }
}
