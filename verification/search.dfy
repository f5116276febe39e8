/**
 Search delegation of the custom movie scraper: searches go to the scraper
 configured for the title, and only that scraper's results are passed on.
 Also the choice of further scrapers that still need a search of their own
 before a load.
 */
module Search {
  import opened Scrapers
  import opened Resolution

  /** The part of a search result this model looks at. */
  datatype SearchResult = SearchResult(name: string, id: string)

  datatype ErrorKind = InternalError | ProviderError

  /** ScraperSearchError: no error, or an error of some kind with a message. */
  datatype SearchError = NoError | Failed(kind: ErrorKind, message: string)

  /** One `searchDone(results, error)` signal. */
  datatype Emission = Emission(results: seq<SearchResult>, error: SearchError)

  /** What a search request does: answer at once, or forward the text to a scraper. */
  datatype SearchAction = Emit(emission: Emission) | Delegate(scraper: Scraper, text: string)

  const MisconfiguredMessage: string :=
    "The custom movie scraper is not configured correctly. Please go to settings and reconfigure it."

  const InternalErrorMessage: string := "Internal Error: Please report!"

  /**
   Without a title scraper the search answers with exactly one synthetic
   result naming the misconfiguration (and no error); otherwise the text is
   handed unchanged to the title scraper.
   */
  function Search(reg: Registry, config: Config, text: string): (r: SearchAction)
    ensures r.Emit? <==> ScraperForInfo(reg, config, Title).None?
    ensures r.Emit? ==> |r.emission.results| == 1 && r.emission.error.NoError?
                        && r.emission.results[0].name == MisconfiguredMessage
    ensures r.Delegate? ==> ScraperForInfo(reg, config, Title) == Some(r.scraper)
                            && r.scraper in reg && r.text == text
  {
    match ScraperForInfo(reg, config, Title)
    case None => Emit(Emission([SearchResult(MisconfiguredMessage, "")], NoError))
    case Some(s) => Delegate(s, text)
  }

  /**
   A scraper finished a search. Errors are always passed on (with no
   results); a sender that is not a movie scraper yields an internal error;
   successful results are passed on only when the sender is the scraper
   currently configured for the title, and dropped otherwise.
   */
  function OnTitleSearchDone(reg: Registry, config: Config, sender: Option<Scraper>,
                             results: seq<SearchResult>, error: SearchError): (r: Option<Emission>)
    ensures error.Failed? ==> r == Some(Emission([], error))
    ensures error.NoError? && sender.None? ==>
              r == Some(Emission([], Failed(InternalError, InternalErrorMessage)))
    ensures error.NoError? && sender.Some? ==> (r.Some? <==> sender == ScraperForInfo(reg, config, Title))
    ensures error.NoError? && sender.Some? && r.Some? ==> r.value == Emission(results, NoError)
  {
    if error.Failed? then Some(Emission([], error))
    else if sender.None? then Some(Emission([], Failed(InternalError, InternalErrorMessage)))
    else if sender == ScraperForInfo(reg, config, Title) then Some(Emission(results, error))
    else None
  }

  /** Results of the scraper a search was delegated to come back out unchanged. */
  lemma DelegatedResultsRepublished(reg: Registry, config: Config, text: string, results: seq<SearchResult>)
    requires Search(reg, config, text).Delegate?
    ensures OnTitleSearchDone(reg, config, Some(Search(reg, config, text).scraper), results, NoError)
            == Some(Emission(results, NoError))
  {
  }

  /**
   If the title scraper changes while a delegated search is in flight, the
   late results of the old title scraper are dropped.
   */
  lemma StaleResultsDropped(reg: Registry, before: Config, after: Config, text: string, results: seq<SearchResult>)
    requires Search(reg, before, text).Delegate?
    requires ScraperForInfo(reg, after, Title) != ScraperForInfo(reg, before, Title)
    ensures OnTitleSearchDone(reg, after, Some(Search(reg, before, text).scraper), results, NoError) == None
  {
  }

  /** Some entry of the already-loaded table belongs to the IMDb or TMDb scraper. */
  predicate IdProviderKnown(alreadyLoaded: IdTable) {
    exists k :: 0 <= k < |alreadyLoaded| && IsIdProvider(alreadyLoaded[k].scraper)
  }

  /** Some requested field is configured to come from fanart.tv. */
  predicate FanartRequested(config: Config, infos: seq<Info>) {
    exists i :: i in infos && Configured(config, i) == FanartTvIdentifier
  }

  /**
   The first selection pass: keeps the candidates, in order and once each,
   that are not the title scraper, not an IMDb/TMDb scraper when such an id
   is already known, and not already loaded.
   */
  function SkipKnown(candidates: seq<Scraper>, title: Scraper, idKnown: bool, alreadyLoaded: IdTable): (r: seq<Scraper>)
    ensures NoDuplicates(r)
    ensures forall s :: s in r <==> s in candidates && s != title
                                    && !(idKnown && IsIdProvider(s)) && !HasKey(alreadyLoaded, s)
    decreases |candidates|
  {
    if candidates == [] then []
    else
      var n := |candidates| - 1;
      assert candidates == candidates[..n] + [candidates[n]];
      var prev := SkipKnown(candidates[..n], title, idKnown, alreadyLoaded);
      var s := candidates[n];
      if s == title || s in prev
         || (s.identifier == TmdbIdentifier && idKnown)
         || (s.identifier == ImdbIdentifier && idKnown)
         || HasKey(alreadyLoaded, s)
      then prev
      else prev + [s]
  }

  predicate HasIdProvider(scrapers: seq<Scraper>) {
    exists k :: 0 <= k < |scrapers| && IsIdProvider(scrapers[k])
  }

  /**
   The second selection pass: when fanart.tv artwork is `wanted` and no
   selected scraper can supply an IMDb id, the first registered TMDb scraper
   is appended; otherwise the selection is kept as it is.
   */
  function AddTmdbForFanart(reg: Registry, selected: seq<Scraper>, wanted: bool): (r: seq<Scraper>)
    ensures NoDuplicates(selected) ==> NoDuplicates(r)
    ensures |r| == |selected| || |r| == |selected| + 1
    ensures r[..|selected|] == selected
    ensures |r| == |selected| + 1 ==>
              wanted && !HasIdProvider(selected) && r[|selected|] in reg && r[|selected|].identifier == TmdbIdentifier
    ensures |r| == |selected| + 1 ==>
              exists k :: 0 <= k < |reg| && reg[k] == r[|selected|]
                          && forall j :: 0 <= j < k ==> reg[j].identifier != TmdbIdentifier
    ensures (wanted && !HasIdProvider(selected) && exists j :: 0 <= j < |reg| && reg[j].identifier == TmdbIdentifier)
            ==> |r| == |selected| + 1
  {
    if wanted && !HasIdProvider(selected) then
      match FirstWithIdentifier(reg, TmdbIdentifier, 0)
      case Some(j) =>
        assert IsIdProvider(reg[j]) && reg[j] !in selected;
        AppendFresh(selected, reg[j]);
        selected + [reg[j]]
      case None => selected
    else selected
  }

  /**
   The scrapers that must run their own search before `infos` can be
   loaded: the resolved scrapers other than the title scraper that have no
   id yet, plus the first registered TMDb scraper when fanart.tv artwork is
   wanted and nothing selected so far can supply an IMDb id.
   */
  function ScrapersNeedSearch(reg: Registry, config: Config, infos: seq<Info>, alreadyLoaded: IdTable): (r: seq<Scraper>)
    ensures ScraperForInfo(reg, config, Title).None? ==> r == []
    ensures NoDuplicates(r)
    ensures forall s :: s in r ==> s in reg && !HasKey(alreadyLoaded, s)
    ensures IdProviderKnown(alreadyLoaded) ==> forall s :: s in r ==> !IsIdProvider(s)
  {
    match ScraperForInfo(reg, config, Title)
    case None => []
    case Some(title) =>
      var idKnown := IdProviderKnown(alreadyLoaded);
      ServedScrapersAreRegistered(reg, config, infos);
      var selected := SkipKnown(ScrapersForInfos(reg, config, infos), title, idKnown, alreadyLoaded);
      var r := AddTmdbForFanart(reg, selected, FanartRequested(config, infos) && !idKnown);
      assert forall k :: 0 <= k < |selected| ==> r[k] == selected[k];
      r
  }

  /**
   The title scraper is never selected in the first pass; it can only be
   the TMDb scraper appended last for fanart.tv artwork.
   */
  lemma NeedSearchSkipsTitle(reg: Registry, config: Config, infos: seq<Info>, alreadyLoaded: IdTable)
    ensures var r := ScrapersNeedSearch(reg, config, infos, alreadyLoaded);
      forall k :: 0 <= k < |r| && ScraperForInfo(reg, config, Title) == Some(r[k]) ==>
        k == |r| - 1 && r[k].identifier == TmdbIdentifier && FanartRequested(config, infos)
  {
    if ScraperForInfo(reg, config, Title).Some? {
      var title := ScraperForInfo(reg, config, Title).value;
      var idKnown := IdProviderKnown(alreadyLoaded);
      var selected := SkipKnown(ScrapersForInfos(reg, config, infos), title, idKnown, alreadyLoaded);
      var r := ScrapersNeedSearch(reg, config, infos, alreadyLoaded);
      assert r == AddTmdbForFanart(reg, selected, FanartRequested(config, infos) && !idKnown);
      assert title !in selected;
      assert forall k :: 0 <= k < |selected| ==> r[k] == selected[k];
    }
  }

  /** A selected scraper serves a requested field, or is the TMDb scraper added for fanart.tv. */
  lemma NeedSearchOnlyServedOrFanartTmdb(reg: Registry, config: Config, infos: seq<Info>, alreadyLoaded: IdTable)
    ensures var r := ScrapersNeedSearch(reg, config, infos, alreadyLoaded);
      forall s :: s in r && !Serves(reg, config, infos, s) ==>
        s == r[|r| - 1] && s.identifier == TmdbIdentifier
        && FanartRequested(config, infos) && !IdProviderKnown(alreadyLoaded)
  {
  }

  /**
   With a title scraper configured, every scraper serving a requested field
   is selected unless it is the title scraper, is already loaded, or is an
   IMDb/TMDb scraper while such an id is known.
   */
  lemma NeedSearchComplete(reg: Registry, config: Config, infos: seq<Info>, alreadyLoaded: IdTable, s: Scraper)
    requires ScraperForInfo(reg, config, Title).Some? && Serves(reg, config, infos, s)
    requires ScraperForInfo(reg, config, Title) != Some(s) && !HasKey(alreadyLoaded, s)
    requires !(IdProviderKnown(alreadyLoaded) && IsIdProvider(s))
    ensures s in ScrapersNeedSearch(reg, config, infos, alreadyLoaded)
  {
  }

  /**
   When fanart.tv artwork is requested and no IMDb/TMDb id is known, some
   selected scraper can supply the IMDb id, provided a TMDb scraper is
   registered.
   */
  lemma NeedSearchProvidesIdForFanart(reg: Registry, config: Config, infos: seq<Info>, alreadyLoaded: IdTable)
    requires ScraperForInfo(reg, config, Title).Some? && FanartRequested(config, infos)
    requires !IdProviderKnown(alreadyLoaded)
    requires exists j :: 0 <= j < |reg| && reg[j].identifier == TmdbIdentifier
    ensures HasIdProvider(ScrapersNeedSearch(reg, config, infos, alreadyLoaded))
  {
  }
}
