/** Shapes of the records the catalog API returns, and the small pure
    formatters that more than one view applies to them. */
module Catalog {

  datatype Option<T> = None | Some(value: T) {
    function GetOr(default: T): T {
      match this
      case Some(v) => v
      case None => default
    }
  }

  /** One catalog item. `title`/`name` and `releaseDate`/`firstAirDate` are
      the movie and series variants of the same field; either may be absent. */
  datatype Movie = Movie(
    id: int,
    title: Option<string>,
    name: Option<string>,
    overview: string,
    posterPath: string,
    backdropPath: string,
    voteAverage: real,
    releaseDate: Option<string>,
    firstAirDate: Option<string>)

  datatype Genre = Genre(id: int, name: string)

  /** One video descriptor; `kind` is the provider's `type` field. */
  datatype Video = Video(id: string, key: string, name: string, site: string, kind: string)

  /** The lazily fetched extension of a movie. `runtime` is absent for series. */
  datatype MovieDetails = MovieDetails(movie: Movie, runtime: Option<int>, genres: seq<Genre>, videos: seq<Video>)

  function Min(a: int, b: int): (r: int)
    ensures r <= a && r <= b && (r == a || r == b)
  {
    if a <= b then a else b
  }

  /** `s.slice(0, n)`: the first `n` elements, or all of them when there are fewer. */
  function Take<T>(s: seq<T>, n: nat): (r: seq<T>)
    ensures |r| == Min(n, |s|)
    ensures forall i :: 0 <= i < |r| ==> r[i] == s[i]
  {
    s[..Min(n, |s|)]
  }

  /** `date.split('-')[0]`: the text before the first '-', or all of it. */
  function YearPart(date: string): (r: string)
    ensures |r| <= |date| && r == date[..|r|]
    ensures '-' !in r
    ensures |r| == |date| || date[|r|] == '-'
  {
    if |date| == 0 || date[0] == '-' then [] else [date[0]] + YearPart(date[1..])
  }

  /** The year of an optional date; empty when the date is absent, just as
      `date?.split('-')[0]` is falsy then. */
  function YearOf(date: Option<string>): (r: string)
    ensures date.None? ==> r == []
    ensures date.Some? ==> r == YearPart(date.value)
  {
    match date
    case None => []
    case Some(d) => YearPart(d)
  }

  /** `release_date?.split('-')[0] || first_air_date?.split('-')[0] || fallback`. */
  function YearLabel(m: Movie, fallback: string): (r: string)
    ensures YearOf(m.releaseDate) != [] ==> r == YearOf(m.releaseDate)
    ensures YearOf(m.releaseDate) == [] && YearOf(m.firstAirDate) != [] ==> r == YearOf(m.firstAirDate)
    ensures r == fallback || (r != [] && '-' !in r && exists d :: d in [m.releaseDate, m.firstAirDate] && d.Some? && r == YearPart(d.value))
    ensures fallback != [] ==> r != []
  {
    var release := YearOf(m.releaseDate);
    var firstAir := YearOf(m.firstAirDate);
    if release != [] then release
    else if firstAir != [] then firstAir
    else fallback
  }

  /** `title || name`: the title when non-empty, else the name (possibly absent, rendered as nothing). */
  function DisplayTitle(m: Movie): (r: string)
    ensures m.title.Some? && m.title.value != [] ==> r == m.title.value
    ensures !(m.title.Some? && m.title.value != []) ==> r == m.name.GetOr([])
  {
    if m.title.Some? && m.title.value != [] then m.title.value
    else if m.name.Some? then m.name.value
    else []
  }

  lemma {:induction false} YearPartOfIsoDate(y: string, rest: string)
    requires '-' !in y
    ensures YearPart(y + "-" + rest) == y
  {
    if y != [] {
      assert (y + "-" + rest)[1..] == y[1..] + "-" + rest;
      YearPartOfIsoDate(y[1..], rest);
    }
  }
}
