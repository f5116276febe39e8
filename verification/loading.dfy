/**
 Loading through the custom movie scraper: the IMDb-id gate in front of a
 load, the one TMDb lookup that can fill a missing IMDb id, and the
 per-scraper dispatch plan (ids, field subsets, fanart.tv flags, load
 count). The network and the individual scrapers stay opaque: the lookup's
 reply is an input, and a plan says what each scraper is asked to load.
 */
module Loading {
  import opened Scrapers
  import opened Resolution

  /** Field `i` resolves to the IMDb scraper. */
  predicate ResolvesToImdb(reg: Registry, config: Config, i: Info) {
    var s := ScraperForInfo(reg, config, i);
    s.Some? && s.value.identifier == ImdbIdentifier
  }

  /** Scans the fields in order and stops at the first one served by the IMDb scraper. */
  function NeedsImdbId(reg: Registry, config: Config, infos: seq<Info>): (r: bool)
    ensures r <==> exists i :: i in infos && ResolvesToImdb(reg, config, i)
  {
    if infos == [] then false
    else if ResolvesToImdb(reg, config, infos[0]) then true
    else
      assert forall i :: i in infos <==> i == infos[0] || i in infos[1..];
      NeedsImdbId(reg, config, infos[1..])
  }

  /**
   Each scraper serving a field, paired with the one id it is given: the
   TMDb scraper gets the TMDb id (the IMDb id when the TMDb id is empty),
   the IMDb scraper gets the IMDb id, any other scraper whatever `ids`
   holds for it ("" when nothing).
   */
  function ScrapersWithIds(reg: Registry, config: Config, ids: IdTable, infos: seq<Info>,
                           tmdbId: string, imdbId: string): (m: map<Scraper, string>)
    ensures forall s :: s in m <==> Serves(reg, config, infos, s)
    ensures forall s :: s in m && s.identifier == TmdbIdentifier ==>
              m[s] == if tmdbId == "" then imdbId else tmdbId
    ensures forall s :: s in m && s.identifier == ImdbIdentifier ==> m[s] == imdbId
    ensures forall s :: s in m && !IsIdProvider(s) ==> m[s] == Lookup(ids, s)
    decreases |infos|
  {
    if infos == [] then map[]
    else
      var n := |infos| - 1;
      assert forall i :: i in infos <==> i in infos[..n] || i == infos[n] by {
        assert infos == infos[..n] + [infos[n]];
      }
      var prev := ScrapersWithIds(reg, config, ids, infos[..n], tmdbId, imdbId);
      match ScraperForInfo(reg, config, infos[n])
      case None => prev
      case Some(s) =>
        if s in prev then prev
        else if s.identifier == TmdbIdentifier then prev[s := if tmdbId == "" then imdbId else tmdbId]
        else if s.identifier == ImdbIdentifier then prev[s := imdbId]
        else prev[s := Lookup(ids, s)]
  }

  /** Which `setForceFanart...(true)` calls a load makes. */
  datatype FanartFlags = FanartFlags(backdrop: bool, poster: bool, clearArt: bool, cdArt: bool, logo: bool)

  /** What one scraper is asked to load: its single id and its field subset. */
  datatype Dispatch = Dispatch(id: string, infos: set<Info>)

  /**
   The effect of `loadAllData`: the load count recorded on the movie's
   controller, the fanart.tv flags, and one dispatch per scraper.
   */
  datatype LoadPlan = LoadPlan(loads: nat, fanart: FanartFlags, dispatches: map<Scraper, Dispatch>)

  /** Artwork `field` is requested and configured to come from fanart.tv. */
  predicate ForcesFanart(config: Config, infos: seq<Info>, field: Info) {
    field in infos && Configured(config, field) == FanartTvIdentifier
  }

  /**
   The dispatch loop of `loadAllData`: each scraper that got an id is asked
   for its own field subset, skipping any scraper whose subset is empty.
   When the scrapers with ids are exactly the serving ones, none is skipped.
   */
  function Dispatches(reg: Registry, config: Config, infos: seq<Info>, withIds: map<Scraper, string>): (d: map<Scraper, Dispatch>)
    requires forall s :: s in withIds ==> Serves(reg, config, infos, s)
    ensures d.Keys == withIds.Keys
    ensures forall s :: s in d ==> d[s] == Dispatch(withIds[s], InfosForScraper(reg, config, s, infos))
  {
    var d := map s | s in withIds && InfosForScraper(reg, config, s, infos) != {}
               :: Dispatch(withIds[s], InfosForScraper(reg, config, s, infos));
    assert d.Keys == withIds.Keys by {
      forall s | s in withIds
        ensures s in d
      {
        assert Serves(reg, config, infos, s);
        var i :| i in infos && ScraperForInfo(reg, config, i) == Some(s);
        assert i in InfosForScraper(reg, config, s, infos);
      }
    }
    d
  }

  /**
   `loadAllData`: the scrapers that get an id are exactly the ones
   dispatched, each with its own field subset, and the load count is the
   number of dispatches.
   */
  function LoadAllData(reg: Registry, config: Config, ids: IdTable, infos: seq<Info>,
                       tmdbId: string, imdbId: string): (p: LoadPlan)
    ensures p.dispatches.Keys == ScrapersWithIds(reg, config, ids, infos, tmdbId, imdbId).Keys
    ensures forall s :: s in p.dispatches ==> p.dispatches[s].infos == InfosForScraper(reg, config, s, infos)
    ensures p.loads == |p.dispatches|
  {
    var withIds := ScrapersWithIds(reg, config, ids, infos, tmdbId, imdbId);
    var flags := FanartFlags(ForcesFanart(config, infos, Backdrop), ForcesFanart(config, infos, Poster),
                             ForcesFanart(config, infos, ClearArt), ForcesFanart(config, infos, CdArt),
                             ForcesFanart(config, infos, Logo));
    LoadPlan(|withIds|, flags, Dispatches(reg, config, infos, withIds))
  }

  /**
   Exactly the distinct resolved scrapers are dispatched, and the recorded
   load count is the number of those scrapers.
   */
  lemma LoadAllDataCount(reg: Registry, config: Config, ids: IdTable, infos: seq<Info>, tmdbId: string, imdbId: string)
    ensures var p := LoadAllData(reg, config, ids, infos, tmdbId, imdbId);
      && (forall s :: s in p.dispatches <==> s in ScrapersForInfos(reg, config, infos))
      && p.loads == |ScrapersForInfos(reg, config, infos)|
      && p.loads == |p.dispatches|
  {
    DispatchedExactlyTheResolved(reg, config, ids, infos, tmdbId, imdbId);
    var p := LoadAllData(reg, config, ids, infos, tmdbId, imdbId);
    var withIds := ScrapersWithIds(reg, config, ids, infos, tmdbId, imdbId);
    var scrapers := ScrapersForInfos(reg, config, infos);
    var distinct := set s | s in scrapers;
    assert withIds.Keys == distinct by {
      forall s ensures s in withIds.Keys <==> s in distinct {
      }
    }
    DistinctCount(scrapers);
    assert p.loads == |withIds.Keys|;
  }

  /**
   Each dispatched scraper receives exactly its own field subset and the id
   its kind calls for.
   */
  lemma LoadAllDataDispatches(reg: Registry, config: Config, ids: IdTable, infos: seq<Info>, tmdbId: string, imdbId: string)
    ensures var p := LoadAllData(reg, config, ids, infos, tmdbId, imdbId);
      && (forall s :: s in p.dispatches ==> p.dispatches[s].infos == InfosForScraper(reg, config, s, infos))
      && (forall s :: s in p.dispatches && s.identifier == TmdbIdentifier ==>
            p.dispatches[s].id == if tmdbId == "" then imdbId else tmdbId)
      && (forall s :: s in p.dispatches && s.identifier == ImdbIdentifier ==> p.dispatches[s].id == imdbId)
      && (forall s :: s in p.dispatches && !IsIdProvider(s) ==> p.dispatches[s].id == Lookup(ids, s))
  {
  }

  /** Every scraper that has an id in the plan also has a non-empty field subset. */
  lemma DispatchedExactlyTheResolved(reg: Registry, config: Config, ids: IdTable, infos: seq<Info>, tmdbId: string, imdbId: string)
    ensures var p := LoadAllData(reg, config, ids, infos, tmdbId, imdbId);
      && p.dispatches.Keys == ScrapersWithIds(reg, config, ids, infos, tmdbId, imdbId).Keys
      && p.loads == |p.dispatches|
  {
    var p := LoadAllData(reg, config, ids, infos, tmdbId, imdbId);
    var withIds := ScrapersWithIds(reg, config, ids, infos, tmdbId, imdbId);
    forall s | s in withIds
      ensures s in p.dispatches
    {
      var i :| i in infos && ScraperForInfo(reg, config, i) == Some(s);
      assert i in InfosForScraper(reg, config, s, infos);
    }
    assert p.dispatches.Keys == withIds.Keys;
  }

  /** Each fanart.tv flag is set exactly when its artwork field is requested from fanart.tv. */
  lemma LoadAllDataFanartFlags(reg: Registry, config: Config, ids: IdTable, infos: seq<Info>, tmdbId: string, imdbId: string)
    ensures var f := LoadAllData(reg, config, ids, infos, tmdbId, imdbId).fanart;
      && (f.backdrop <==> Backdrop in infos && Configured(config, Backdrop) == "images.fanarttv")
      && (f.poster <==> Poster in infos && Configured(config, Poster) == "images.fanarttv")
      && (f.clearArt <==> ClearArt in infos && Configured(config, ClearArt) == "images.fanarttv")
      && (f.cdArt <==> CdArt in infos && Configured(config, CdArt) == "images.fanarttv")
      && (f.logo <==> Logo in infos && Configured(config, Logo) == "images.fanarttv")
  {
  }

  /**
   The dispatched field subsets never overlap, and every requested field
   that resolves to a scraper is in the subset of exactly that scraper.
   */
  lemma DispatchesPartitionFields(reg: Registry, config: Config, ids: IdTable, infos: seq<Info>, tmdbId: string, imdbId: string)
    ensures var p := LoadAllData(reg, config, ids, infos, tmdbId, imdbId);
      && (forall s1, s2 :: s1 in p.dispatches && s2 in p.dispatches && s1 != s2 ==>
            p.dispatches[s1].infos !! p.dispatches[s2].infos)
      && (forall i :: i in infos && ScraperForInfo(reg, config, i).Some? ==>
            var s := ScraperForInfo(reg, config, i).value;
            s in p.dispatches && i in p.dispatches[s].infos)
      && (forall s, i :: s in p.dispatches && i in p.dispatches[s].infos ==>
            i in infos && ScraperForInfo(reg, config, i) == Some(s))
  {
    LoadAllDataCount(reg, config, ids, infos, tmdbId, imdbId);
    LoadAllDataDispatches(reg, config, ids, infos, tmdbId, imdbId);
    var p := LoadAllData(reg, config, ids, infos, tmdbId, imdbId);
    forall i | i in infos && ScraperForInfo(reg, config, i).Some?
      ensures ScraperForInfo(reg, config, i).value in p.dispatches
    {
      assert Serves(reg, config, infos, ScraperForInfo(reg, config, i).value);
    }
  }

  /** What a TMDb lookup must carry to resume the load. */
  datatype PendingLookup = PendingLookup(ids: IdTable, infos: seq<Info>, tmdbId: string)

  /**
   Where a load stands after one step: `scraperLoadDone` was signalled with
   nothing dispatched, a TMDb lookup is in flight, the plan was dispatched,
   or the step returned without signalling anything.
   */
  datatype LoadOutcome =
    | SignalDone
    | AwaitImdbLookup(pending: PendingLookup)
    | Dispatched(plan: LoadPlan)
    | NoSignal

  /**
   The IMDb-id gate of `loadData`. When some field is served by the IMDb
   scraper and no IMDb id is known, a valid TMDb id starts one lookup and
   an invalid one ends the load at once; otherwise the plan is dispatched
   with the ids found in `ids`. `isValidTmdbId` stands for TmdbId::isValid.
   */
  function LoadData(reg: Registry, config: Config, isValidTmdbId: string -> bool,
                    ids: IdTable, infos: seq<Info>): (r: LoadOutcome)
    ensures !r.NoSignal?
    ensures r.SignalDone? <==> (exists i :: i in infos && ResolvesToImdb(reg, config, i))
                               && KnownId(ids, ImdbIdentifier) == "" && !isValidTmdbId(KnownId(ids, TmdbIdentifier))
    ensures r.AwaitImdbLookup? <==> (exists i :: i in infos && ResolvesToImdb(reg, config, i))
                                    && KnownId(ids, ImdbIdentifier) == "" && isValidTmdbId(KnownId(ids, TmdbIdentifier))
    ensures r.AwaitImdbLookup? ==> r.pending == PendingLookup(ids, infos, KnownId(ids, TmdbIdentifier))
    ensures r.Dispatched? ==>
              r.plan == LoadAllData(reg, config, ids, infos, KnownId(ids, TmdbIdentifier), KnownId(ids, ImdbIdentifier))
  {
    var tmdbId := KnownId(ids, TmdbIdentifier);
    var imdbId := KnownId(ids, ImdbIdentifier);
    if NeedsImdbId(reg, config, infos) && imdbId == "" then
      if !isValidTmdbId(tmdbId) then SignalDone
      else AwaitImdbLookup(PendingLookup(ids, infos, tmdbId))
    else
      Dispatched(LoadAllData(reg, config, ids, infos, tmdbId, imdbId))
  }

  /**
   The reply to the TMDb lookup: a network error, a body that is not valid
   JSON, or a JSON object whose `imdb_id` read as a string is `imdbIdField`
   ("" when absent or not a string).
   */
  datatype LookupReply = NetworkError | JsonParseError | Json(imdbIdField: string)

  /**
   `onLoadTmdbFinished`: a non-empty `imdb_id` resumes the load with that
   id; an empty one or a network error signals `scraperLoadDone` with
   nothing dispatched; a parse error returns without signalling. It never
   starts a second lookup.
   */
  function OnLoadTmdbFinished(reg: Registry, config: Config, pending: PendingLookup, reply: LookupReply): (r: LoadOutcome)
    ensures !r.AwaitImdbLookup?
    ensures r.Dispatched? <==> reply.Json? && reply.imdbIdField != ""
    ensures r.Dispatched? ==>
              r.plan == LoadAllData(reg, config, pending.ids, pending.infos, pending.tmdbId, reply.imdbIdField)
    ensures r.SignalDone? <==> reply.NetworkError? || reply == Json("")
    ensures r.NoSignal? <==> reply.JsonParseError?
  {
    match reply
    case NetworkError => SignalDone
    case JsonParseError => NoSignal
    case Json(imdbId) =>
      if imdbId != "" then Dispatched(LoadAllData(reg, config, pending.ids, pending.infos, pending.tmdbId, imdbId))
      else SignalDone
  }

  /** A whole load request: the gate, then (when it suspended) the lookup's reply. */
  datatype RequestTrace = RequestTrace(lookups: nat, outcome: LoadOutcome)

  /** The gate followed by the lookup handler as the source has it. */
  function LoadRequest(reg: Registry, config: Config, isValidTmdbId: string -> bool,
                       ids: IdTable, infos: seq<Info>, reply: LookupReply): (t: RequestTrace)
    ensures t.lookups <= 1 && !t.outcome.AwaitImdbLookup?
    ensures t.lookups == 1 <==> LoadData(reg, config, isValidTmdbId, ids, infos).AwaitImdbLookup?
    ensures t.lookups == 0 ==> t.outcome == LoadData(reg, config, isValidTmdbId, ids, infos)
  {
    var first := LoadData(reg, config, isValidTmdbId, ids, infos);
    if first.AwaitImdbLookup? then RequestTrace(1, OnLoadTmdbFinished(reg, config, first.pending, reply))
    else RequestTrace(0, first)
  }

  /**
   A request whose fields need no IMDb id goes straight to dispatch with
   no lookup.
   */
  lemma NoImdbFieldDispatchesDirectly(reg: Registry, config: Config, isValidTmdbId: string -> bool,
                                      ids: IdTable, infos: seq<Info>, reply: LookupReply)
    requires forall i :: i in infos ==> !ResolvesToImdb(reg, config, i)
    ensures LoadRequest(reg, config, isValidTmdbId, ids, infos, reply)
            == RequestTrace(0, Dispatched(LoadAllData(reg, config, ids, infos,
                                                      KnownId(ids, TmdbIdentifier), KnownId(ids, ImdbIdentifier))))
  {
  }

  /**
   After a successful lookup the IMDb scraper is dispatched, and it gets
   the id the lookup returned.
   */
  lemma LookedUpIdReachesImdbScraper(reg: Registry, config: Config, isValidTmdbId: string -> bool,
                                     ids: IdTable, infos: seq<Info>, imdbId: string)
    requires LoadData(reg, config, isValidTmdbId, ids, infos).AwaitImdbLookup?
    requires imdbId != ""
    ensures var t := LoadRequest(reg, config, isValidTmdbId, ids, infos, Json(imdbId));
      && t.lookups == 1 && t.outcome.Dispatched?
      && (exists s :: s in t.outcome.plan.dispatches && s.identifier == ImdbIdentifier)
      && forall s :: s in t.outcome.plan.dispatches && s.identifier == ImdbIdentifier ==>
           t.outcome.plan.dispatches[s].id == imdbId
  {
    var i :| i in infos && ResolvesToImdb(reg, config, i);
    var s := ScraperForInfo(reg, config, i).value;
    var tmdbId := KnownId(ids, TmdbIdentifier);
    LoadAllDataCount(reg, config, ids, infos, tmdbId, imdbId);
    LoadAllDataDispatches(reg, config, ids, infos, tmdbId, imdbId);
    assert Serves(reg, config, infos, s);
  }

  /**
   With a parse error in the lookup reply the request as written ends
   neither in `scraperLoadDone` nor in a dispatch: the load stays open.
   */
  lemma ParseErrorLeavesRequestOpen(reg: Registry, config: Config, isValidTmdbId: string -> bool,
                                    ids: IdTable, infos: seq<Info>)
    requires LoadData(reg, config, isValidTmdbId, ids, infos).AwaitImdbLookup?
    ensures LoadRequest(reg, config, isValidTmdbId, ids, infos, JsonParseError) == RequestTrace(1, NoSignal)
  {
  }

  /** A concrete request that the parse error leaves open. */
  lemma ParseErrorExample()
    ensures var imdb := Scraper(0, ImdbIdentifier, false);
      var tmdb := Scraper(1, TmdbIdentifier, false);
      LoadRequest([imdb, tmdb], map[Title := ImdbIdentifier], s => s != "",
                  [IdEntry(tmdb, "603")], [Title], JsonParseError).outcome == NoSignal
  {
    var imdb := Scraper(0, ImdbIdentifier, false);
    var tmdb := Scraper(1, TmdbIdentifier, false);
    var reg := [imdb, tmdb];
    var config := map[Title := ImdbIdentifier];
    assert ScraperForInfo(reg, config, Title) == Some(imdb);
    assert ResolvesToImdb(reg, config, Title);
    assert KnownId([IdEntry(tmdb, "603")], ImdbIdentifier) == "";
    assert KnownId([IdEntry(tmdb, "603")], TmdbIdentifier) == "603";
  }

  /**
   The lookup handler with a parse error handled like an empty `imdb_id`:
   `scraperLoadDone` is signalled instead of leaving the load open.
   */
  function OnLoadTmdbFinishedSettled(reg: Registry, config: Config, pending: PendingLookup, reply: LookupReply): (r: LoadOutcome)
    ensures r.SignalDone? || r.Dispatched?
    ensures r.Dispatched? <==> reply.Json? && reply.imdbIdField != ""
    ensures !reply.JsonParseError? ==> r == OnLoadTmdbFinished(reg, config, pending, reply)
  {
    if reply.JsonParseError? then SignalDone else OnLoadTmdbFinished(reg, config, pending, reply)
  }

  /** A whole load request with the settled lookup handler. */
  function LoadRequestSettled(reg: Registry, config: Config, isValidTmdbId: string -> bool,
                              ids: IdTable, infos: seq<Info>, reply: LookupReply): (t: RequestTrace)
    ensures t.lookups <= 1
    ensures t.outcome.SignalDone? || t.outcome.Dispatched?
    ensures reply != JsonParseError ==> t == LoadRequest(reg, config, isValidTmdbId, ids, infos, reply)
  {
    var first := LoadData(reg, config, isValidTmdbId, ids, infos);
    if first.AwaitImdbLookup? then RequestTrace(1, OnLoadTmdbFinishedSettled(reg, config, first.pending, reply))
    else RequestTrace(0, first)
  }

  /** Title and plot from one provider: one dispatch covering both fields, one load. */
  lemma OneProviderForTwoFields()
    ensures var a := Scraper(7, "a", false);
      var t := LoadRequest([a], map[Title := "a", Overview := "a"], s => s != "", [], [Title, Overview], NetworkError);
      && t.lookups == 0 && t.outcome.Dispatched?
      && t.outcome.plan.loads == 1
      && t.outcome.plan.dispatches == map[a := Dispatch("", {Title, Overview})]
  {
    var a := Scraper(7, "a", false);
    var reg := [a];
    var config := map[Title := "a", Overview := "a"];
    var infos := [Title, Overview];
    assert ScraperForInfo(reg, config, Title) == Some(a);
    assert ScraperForInfo(reg, config, Overview) == Some(a);
    assert !NeedsImdbId(reg, config, infos);
    OneProviderPlan(a, reg, config, infos);
  }

  lemma OneProviderPlan(a: Scraper, reg: Registry, config: Config, infos: seq<Info>)
    requires a == Scraper(7, "a", false) && reg == [a] && config == map[Title := "a", Overview := "a"]
    requires infos == [Title, Overview]
    ensures LoadAllData(reg, config, [], infos, "", "").loads == 1
    ensures LoadAllData(reg, config, [], infos, "", "").dispatches == map[a := Dispatch("", {Title, Overview})]
  {
    assert ScraperForInfo(reg, config, Title) == Some(a);
    assert ScraperForInfo(reg, config, Overview) == Some(a);
    var withIds := ScrapersWithIds(reg, config, [], infos, "", "");
    assert withIds.Keys == {a} by {
      assert Serves(reg, config, infos, a);
    }
    assert withIds == map[a := ""];
    assert InfosForScraper(reg, config, a, infos) == {Title, Overview};
  }

  /**
   Poster from the IMDb scraper with only a TMDb id known: one lookup with
   that id; a reply carrying `tt999` dispatches the IMDb scraper with it.
   */
  lemma PosterNeedsLookup()
    ensures var imdb := Scraper(0, ImdbIdentifier, false);
      var tmdb := Scraper(1, TmdbIdentifier, false);
      var ids := [IdEntry(tmdb, "123")];
      && LoadData([imdb, tmdb], map[Poster := ImdbIdentifier], s => s != "", ids, [Poster])
         == AwaitImdbLookup(PendingLookup(ids, [Poster], "123"))
      && LoadRequest([imdb, tmdb], map[Poster := ImdbIdentifier], s => s != "", ids, [Poster], Json("tt999")).outcome
         == Dispatched(LoadPlan(1, FanartFlags(false, false, false, false, false), map[imdb := Dispatch("tt999", {Poster})]))
  {
    var imdb := Scraper(0, ImdbIdentifier, false);
    var tmdb := Scraper(1, TmdbIdentifier, false);
    var reg := [imdb, tmdb];
    var config := map[Poster := ImdbIdentifier];
    var ids := [IdEntry(tmdb, "123")];
    PosterGate(imdb, tmdb, reg, config, ids);
    var isValid: string -> bool := s => s != "";
    var first := LoadData(reg, config, isValid, ids, [Poster]);
    assert first.AwaitImdbLookup? && first.pending == PendingLookup(ids, [Poster], "123");
    PosterPlan(imdb, reg, config, ids);
    assert OnLoadTmdbFinished(reg, config, first.pending, Json("tt999"))
           == Dispatched(LoadAllData(reg, config, ids, [Poster], "123", "tt999"));
  }

  lemma PosterGate(imdb: Scraper, tmdb: Scraper, reg: Registry, config: Config, ids: IdTable)
    requires imdb == Scraper(0, ImdbIdentifier, false) && tmdb == Scraper(1, TmdbIdentifier, false)
    requires reg == [imdb, tmdb] && config == map[Poster := ImdbIdentifier] && ids == [IdEntry(tmdb, "123")]
    ensures LoadData(reg, config, s => s != "", ids, [Poster]) == AwaitImdbLookup(PendingLookup(ids, [Poster], "123"))
  {
    assert ScraperForInfo(reg, config, Poster) == Some(imdb);
    assert ResolvesToImdb(reg, config, Poster);
    assert KnownId(ids, ImdbIdentifier) == "";
    assert KnownId(ids, TmdbIdentifier) == "123";
  }

  lemma PosterPlan(imdb: Scraper, reg: Registry, config: Config, ids: IdTable)
    requires imdb == Scraper(0, ImdbIdentifier, false) && reg == [imdb, Scraper(1, TmdbIdentifier, false)]
    requires config == map[Poster := ImdbIdentifier]
    ensures LoadAllData(reg, config, ids, [Poster], "123", "tt999")
            == LoadPlan(1, FanartFlags(false, false, false, false, false), map[imdb := Dispatch("tt999", {Poster})])
  {
    PosterFlags(imdb, reg, config, ids);
    PosterDispatches(imdb, reg, config, ids);
    PosterIds(imdb, reg, config, ids);
  }

  lemma PosterFlags(imdb: Scraper, reg: Registry, config: Config, ids: IdTable)
    requires imdb == Scraper(0, ImdbIdentifier, false) && reg == [imdb, Scraper(1, TmdbIdentifier, false)]
    requires config == map[Poster := ImdbIdentifier]
    ensures LoadAllData(reg, config, ids, [Poster], "123", "tt999").fanart == FanartFlags(false, false, false, false, false)
  {
  }

  lemma PosterDispatches(imdb: Scraper, reg: Registry, config: Config, ids: IdTable)
    requires imdb == Scraper(0, ImdbIdentifier, false) && reg == [imdb, Scraper(1, TmdbIdentifier, false)]
    requires config == map[Poster := ImdbIdentifier]
    ensures LoadAllData(reg, config, ids, [Poster], "123", "tt999").dispatches == map[imdb := Dispatch("tt999", {Poster})]
  {
    PosterIds(imdb, reg, config, ids);
    PosterSubset(imdb, reg, config);
  }

  lemma PosterIds(imdb: Scraper, reg: Registry, config: Config, ids: IdTable)
    requires imdb == Scraper(0, ImdbIdentifier, false) && reg == [imdb, Scraper(1, TmdbIdentifier, false)]
    requires config == map[Poster := ImdbIdentifier]
    ensures ScrapersWithIds(reg, config, ids, [Poster], "123", "tt999") == map[imdb := "tt999"]
  {
    assert ScraperForInfo(reg, config, Poster) == Some(imdb);
    var withIds := ScrapersWithIds(reg, config, ids, [Poster], "123", "tt999");
    assert withIds.Keys == {imdb} by {
      assert Serves(reg, config, [Poster], imdb);
    }
  }

  lemma PosterSubset(imdb: Scraper, reg: Registry, config: Config)
    requires imdb == Scraper(0, ImdbIdentifier, false) && reg == [imdb, Scraper(1, TmdbIdentifier, false)]
    requires config == map[Poster := ImdbIdentifier]
    ensures InfosForScraper(reg, config, imdb, [Poster]) == {Poster}
  {
    assert ScraperForInfo(reg, config, Poster) == Some(imdb);
  }

  /** The same request with a network error: nothing dispatched, `scraperLoadDone` once. */
  lemma PosterLookupNetworkError()
    ensures var imdb := Scraper(0, ImdbIdentifier, false);
      var tmdb := Scraper(1, TmdbIdentifier, false);
      LoadRequest([imdb, tmdb], map[Poster := ImdbIdentifier], s => s != "",
                  [IdEntry(tmdb, "123")], [Poster], NetworkError) == RequestTrace(1, SignalDone)
  {
    var imdb := Scraper(0, ImdbIdentifier, false);
    var tmdb := Scraper(1, TmdbIdentifier, false);
    var reg := [imdb, tmdb];
    var config := map[Poster := ImdbIdentifier];
    assert ScraperForInfo(reg, config, Poster) == Some(imdb);
    assert ResolvesToImdb(reg, config, Poster);
    assert KnownId([IdEntry(tmdb, "123")], ImdbIdentifier) == "";
    assert KnownId([IdEntry(tmdb, "123")], TmdbIdentifier) == "123";
  }
}
