/**
 The vocabulary of MediaElch's custom movie scraper: metadata fields, the
 pool of registered scrapers, the per-field provider configuration and the
 per-scraper id tables that the operations in `Resolution`, `Search` and
 `Loading` work on.
 */
module Scrapers {

  datatype Option<T> = None | Some(value: T)

  /**
   The scrapeable fields of a movie (MovieScraperInfos). Only Title and the
   five artwork fields Poster, Backdrop, ClearArt, CdArt and Logo are treated
   specially; the others only ever pass through the configuration.
   */
  datatype Info =
    | Title | Tagline | Rating | Released | Runtime | Certification | Trailer
    | Overview | Poster | Backdrop | Actors | Genres | Studios | Countries
    | Writer | Director | Tags | Set | ExtraFanarts | ClearArt | CdArt | Logo
    | Banner | Thumb

  /**
   A registered scraper object. `handle` stands for the object's identity
   (the pointer), so two values are the same scraper exactly when they are
   equal.
   */
  datatype Scraper = Scraper(handle: nat, identifier: string, hasSettings: bool)

  /** The scrapers the custom scraper owns, in construction order. */
  type Registry = seq<Scraper>

  /** The user's field-to-provider-identifier configuration. */
  type Config = map<Info, string>

  /** One entry of a scraper-to-id hash table, listed in its enumeration order. */
  datatype IdEntry = IdEntry(scraper: Scraper, id: string)

  type IdTable = seq<IdEntry>

  /** Identifier of the IMDb scraper (the one that needs an IMDb id). */
  const ImdbIdentifier: string := "imdb"

  /** Identifier of the TMDb scraper (the one that can bootstrap an IMDb id). */
  const TmdbIdentifier: string := "tmdb"

  /** Identifier that names the fanart.tv image provider in the configuration. */
  const FanartTvIdentifier: string := "images.fanarttv"

  /** The identifier configured for `info`, or "" when the field is unset. */
  function Configured(config: Config, info: Info): string {
    if info in config then config[info] else ""
  }

  predicate NoDuplicates<T(==)>(xs: seq<T>) {
    forall a, b :: 0 <= a < b < |xs| ==> xs[a] != xs[b]
  }

  /** Appending an element not yet present keeps a sequence free of duplicates. */
  lemma AppendFresh<T>(xs: seq<T>, x: T)
    requires x !in xs
    ensures NoDuplicates(xs) ==> NoDuplicates(xs + [x])
    ensures forall y :: y in xs + [x] <==> y in xs || y == x
  {
  }

  /** A sequence without duplicates has as many distinct elements as entries. */
  lemma {:induction false} DistinctCount<T>(xs: seq<T>)
    requires NoDuplicates(xs)
    ensures |set x | x in xs| == |xs|
  {
    if xs != [] {
      var n := |xs| - 1;
      assert NoDuplicates(xs[..n]);
      DistinctCount(xs[..n]);
      assert xs == xs[..n] + [xs[n]];
      assert (set x | x in xs) == (set x | x in xs[..n]) + {xs[n]};
      assert xs[n] !in xs[..n];
    }
  }

  /** A scraper whose id is an IMDb id or can lead to one. */
  predicate IsIdProvider(s: Scraper) {
    s.identifier == ImdbIdentifier || s.identifier == TmdbIdentifier
  }

  predicate HasKey(ids: IdTable, s: Scraper) {
    exists k :: 0 <= k < |ids| && ids[k].scraper == s
  }

  /** `ids.value(s)`: the id recorded for `s`, or "" when there is none. */
  function Lookup(ids: IdTable, s: Scraper): (r: string)
    ensures !HasKey(ids, s) ==> r == ""
    ensures HasKey(ids, s) ==> exists k :: 0 <= k < |ids| && ids[k] == IdEntry(s, r)
  {
    if ids == [] then ""
    else if ids[0].scraper == s then ids[0].id
    else
      var r := Lookup(ids[1..], s);
      assert forall k :: 0 <= k < |ids| - 1 ==> ids[1..][k] == ids[k + 1];
      r
  }

  /**
   The id of the last entry (in enumeration order) whose scraper carries
   `identifier`, or "" when no entry does; loading keeps overwriting its
   local id variable, so the last match wins.
   */
  function KnownId(ids: IdTable, identifier: string): (r: string)
    ensures (forall k :: 0 <= k < |ids| ==> ids[k].scraper.identifier != identifier) ==> r == ""
    ensures r != "" ==> exists k :: 0 <= k < |ids| && ids[k].scraper.identifier == identifier && ids[k].id == r
    ensures forall k :: (0 <= k < |ids| && ids[k].scraper.identifier == identifier
                         && forall j :: k < j < |ids| ==> ids[j].scraper.identifier != identifier)
                        ==> r == ids[k].id
    decreases |ids|
  {
    if ids == [] then ""
    else
      var last := ids[|ids| - 1];
      if last.scraper.identifier == identifier then last.id
      else KnownId(ids[..|ids| - 1], identifier)
  }
}
