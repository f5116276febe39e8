# MediaElch custom movie scraper and Locale, modelled in Dafny

This project models two parts of MediaElch.

The first is the **custom movie scraper**. A user configuration maps each movie metadata field (Title, Poster, Backdrop, …) to the identifier of a registered scraper. From that configuration the custom scraper:

- resolves fields to scrapers;
- decides which further scrapers still need a search;
- delegates title searches and filters their results;
- runs the IMDb-id gate in front of a load, including the single TMDb lookup that can fill a missing IMDb id;
- builds the per-scraper dispatch plan: one id and one field subset per scraper, the recorded load count, and the "force fanart.tv" artwork flags.

The second is **`Locale`**, a small value type that parses `lang-country` strings and prints them back.

Everything is written as pure functions over immutable data:

- the scraper pool is a `seq<Scraper>`;
- a scraper's object identity is a `handle` field;
- the configuration is a `map<Info, string>`;
- a `QSet<MovieScraperInfos>` is the `seq<Info>` of its enumeration order;
- a `QHash<scraper, id>` is the `seq<IdEntry>` of its enumeration order.

Order matters for the hash table because `loadData` keeps the *last* TMDb/IMDb entry it meets. The network is never called. The reply of the TMDb lookup is an input (`LookupReply`), and `TmdbId::isValid` is a function parameter.

Files:

- `scrapers.dfy` (module `Scrapers`): the shared vocabulary.
- `resolution.dfy` (module `Resolution`): field-to-scraper resolution.
- `search.dfy` (module `Search`): search delegation and `scrapersNeedSearch`.
- `loading.dfy` (module `Loading`): the IMDb-id gate, the TMDb lookup outcomes and `loadAllData`.
- `locale.dfy` (module `Locale`): the `Locale` value type.

The identifiers of the IMDb and TMDb scrapers are declared in headers that are not part of this model. They are taken as `"imdb"` and `"tmdb"`. The logic only needs them to be distinct and non-empty. The fanart.tv identifier `"images.fanarttv"` is the one the source compares against.

## Model

| member | source | states |
|---|---|---|
| Scrapers.Lookup | src/scrapers/movie/CustomMovieScraper.cpp:262 | `ids.value(scraper)`: "" when the table has no entry for the scraper, otherwise the id stored with that scraper |
| Scrapers.KnownId | src/scrapers/movie/CustomMovieScraper.cpp:158-170 | the TMDb/IMDb id read from the id table is "" when no entry carries that identifier, and otherwise the value of the last such entry in enumeration order |
| Resolution.FirstWithIdentifier | src/scrapers/movie/CustomMovieScraper.cpp:310-319 | finds the first registered scraper with the identifier, or reports that none has it |
| Resolution.ScraperForInfo | src/scrapers/movie/CustomMovieScraper.cpp:304-320 | no scraper exactly when the configured identifier is empty or unset, or when no registered scraper has it; otherwise the first registered scraper whose identifier matches |
| Resolution.ScrapersForInfos | src/scrapers/movie/CustomMovieScraper.cpp:322-340 | only resolved (non-null) scrapers, each at most once, exactly those some field resolves to, in the order the fields first name them |
| Resolution.InfosForScraper | src/scrapers/movie/CustomMovieScraper.cpp:342-352 | exactly the requested fields whose resolved scraper is the given one |
| Resolution.InfosForScraperPartition | src/scrapers/movie/CustomMovieScraper.cpp:342-352 | subsets of distinct scrapers are disjoint; together the subsets of the resolved scrapers cover exactly the resolvable fields |
| Resolution.ScraperSupports | src/scrapers/movie/CustomMovieScraper.cpp:354-365 | the supported fields are exactly those configured with a non-empty identifier |
| Resolution.ResolvedFieldsAreSupported | src/scrapers/movie/CustomMovieScraper.cpp:304-365 | every field that resolves to a scraper is a supported field |
| Search.Search | src/scrapers/movie/CustomMovieScraper.cpp:52-65 | without a Title scraper, exactly one synthetic "not configured correctly" result with no error and no delegation; otherwise the text is forwarded unchanged to the Title scraper |
| Search.OnTitleSearchDone | src/scrapers/movie/CustomMovieScraper.cpp:67-84 | an error is always forwarded with no results; a non-scraper sender gives an internal error; successful results are re-emitted exactly when the sender is the currently resolved Title scraper |
| Search.DelegatedResultsRepublished | src/scrapers/movie/CustomMovieScraper.cpp:52-84 | the results of the scraper a search was delegated to are re-emitted unchanged |
| Search.StaleResultsDropped | src/scrapers/movie/CustomMovieScraper.cpp:81-83 | after the Title scraper changes, the late results of the old one are dropped |
| Search.SkipKnown | src/scrapers/movie/CustomMovieScraper.cpp:104-121 | first selection pass: no duplicates; keeps a candidate exactly when it is not the Title scraper, not already loaded, and not IMDb/TMDb while such an id is known |
| Search.AddTmdbForFanart | src/scrapers/movie/CustomMovieScraper.cpp:123-147 | appends at most one scraper, the first registered TMDb one, and only when fanart.tv is wanted and nothing selected can supply an IMDb id; when a TMDb scraper exists and that holds, it is appended |
| Search.ScrapersNeedSearch | src/scrapers/movie/CustomMovieScraper.cpp:86-150 | empty without a Title scraper; no duplicates; only registered scrapers that are not already loaded; no IMDb/TMDb scraper once such an id is known |
| Search.NeedSearchSkipsTitle | src/scrapers/movie/CustomMovieScraper.cpp:104-147 | the Title scraper never comes from the first pass; it can appear only as the last element, and only as the TMDb scraper added for fanart.tv |
| Search.NeedSearchOnlyServedOrFanartTmdb | src/scrapers/movie/CustomMovieScraper.cpp:104-147 | every selected scraper serves a requested field, except possibly a last TMDb scraper added for fanart.tv while no IMDb/TMDb id is known |
| Search.NeedSearchComplete | src/scrapers/movie/CustomMovieScraper.cpp:104-121 | with a Title scraper, every serving scraper is selected unless it is the Title scraper, is already loaded, or is IMDb/TMDb while such an id is known |
| Search.NeedSearchProvidesIdForFanart | src/scrapers/movie/CustomMovieScraper.cpp:123-147 | when fanart.tv is requested, no IMDb/TMDb id is known and a TMDb scraper is registered, some selected scraper can supply the IMDb id |
| Loading.NeedsImdbId | src/scrapers/movie/CustomMovieScraper.cpp:172-182 | the scan with early break finds an IMDb-served field exactly when some requested field resolves to the IMDb scraper |
| Loading.ScrapersWithIds | src/scrapers/movie/CustomMovieScraper.cpp:247-264 | keys are exactly the serving scrapers; TMDb gets the TMDb id (the IMDb id when the TMDb id is empty), IMDb gets the IMDb id, any other scraper gets its `ids.value` |
| Loading.Dispatches | src/scrapers/movie/CustomMovieScraper.cpp:291-301 | when every scraper with an id serves a requested field, the empty-subset skip never fires: each of them is dispatched with its id and exactly its `infosForScraper` subset |
| Loading.LoadAllData | src/scrapers/movie/CustomMovieScraper.cpp:241-302 | the dispatched scrapers are exactly the scrapers given an id, each asked for exactly its own field subset, and the recorded load count equals the number of dispatches |
| Loading.LoadAllDataCount | src/scrapers/movie/CustomMovieScraper.cpp:247-267 | the dispatched scrapers are exactly the distinct resolved scrapers, and the recorded load count equals both their number and the number of dispatches |
| Loading.LoadAllDataDispatches | src/scrapers/movie/CustomMovieScraper.cpp:291-301 | each dispatched scraper receives exactly its `infosForScraper` subset and the id its kind calls for |
| Loading.DispatchedExactlyTheResolved | src/scrapers/movie/CustomMovieScraper.cpp:291-297 | no scraper that got an id is skipped for an empty field subset, so dispatches and id assignments coincide |
| Loading.LoadAllDataFanartFlags | src/scrapers/movie/CustomMovieScraper.cpp:270-289 | each of the five force-fanart flags is set exactly when that field is requested and its configured provider is "images.fanarttv" |
| Loading.DispatchesPartitionFields | src/scrapers/movie/CustomMovieScraper.cpp:291-301 | dispatched field subsets never overlap; each resolvable requested field goes to exactly its resolved scraper and to no other |
| Loading.LoadData | src/scrapers/movie/CustomMovieScraper.cpp:152-204 | signals `scraperLoadDone` at once exactly when an IMDb-served field is requested, no IMDb id is known and the TMDb id is invalid; starts one lookup with the TMDb id exactly when that id is valid instead; otherwise dispatches `loadAllData` with the ids found |
| Loading.OnLoadTmdbFinished | src/scrapers/movie/CustomMovieScraper.cpp:206-239 | a non-empty `imdb_id` dispatches with that id; an empty one or a network error signals done with no dispatch; a parse error returns without signalling; never a second lookup |
| Loading.LoadRequest | src/scrapers/movie/CustomMovieScraper.cpp:184-238 | a request makes at most one lookup, and makes one exactly when the gate suspends; it never ends suspended |
| Loading.NoImdbFieldDispatchesDirectly | src/scrapers/movie/CustomMovieScraper.cpp:172-203 | when no requested field resolves to IMDb, the request dispatches straight away with no lookup |
| Loading.LookedUpIdReachesImdbScraper | src/scrapers/movie/CustomMovieScraper.cpp:223-264 | after a lookup returns a non-empty IMDb id, the IMDb scraper is dispatched, and every IMDb scraper receives that id |
| Loading.ParseErrorLeavesRequestOpen | src/scrapers/movie/CustomMovieScraper.cpp:216-222 | a suspended request whose reply does not parse ends with one lookup and no signal at all |
| Loading.ParseErrorExample | src/scrapers/movie/CustomMovieScraper.cpp:216-222 | a concrete Title-from-IMDb request with TMDb id "603" is left open by a parse error |
| Loading.OnLoadTmdbFinishedSettled | src/scrapers/movie/CustomMovieScraper.cpp:214-238 | corrected handler: every reply either dispatches (non-empty `imdb_id`) or signals done; it agrees with the as-written handler on every reply except a parse error |
| Loading.LoadRequestSettled | src/scrapers/movie/CustomMovieScraper.cpp:184-238 | with the corrected handler, every request ends in `scraperLoadDone` or a dispatch, after at most one lookup |
| Loading.OneProviderForTwoFields | src/scrapers/movie/CustomMovieScraper.cpp:241-301 | Title and Overview from one provider give one dispatch covering both fields and a load count of 1 |
| Loading.PosterNeedsLookup | src/scrapers/movie/CustomMovieScraper.cpp:184-264 | Poster from IMDb with only TMDb id "123" looks up with "123"; the reply "tt999" dispatches only the IMDb scraper, with "tt999" |
| Loading.PosterLookupNetworkError | src/scrapers/movie/CustomMovieScraper.cpp:233-238 | the same request with a network error dispatches nothing and signals done once |
| Locale.Split | src/data/Locale.h:23 | `QString::split` keeps empty parts: at least one piece, no piece holds the separator, joining the pieces gives the input back, and there is one piece exactly when the separator is absent |
| Locale.Parse | src/data/Locale.h:21-28 | neither parsed part contains '-'; a string without '-' becomes the language whole |
| Locale.ParseWithoutDash | src/data/Locale.h:23-27 | a string without '-' parses to language = the whole string and an empty country, so `hasCountry()` is false |
| Locale.ParseLanguageCountry | src/data/Locale.h:21-28 | `"L-C"` with dash-free L and C parses to language L and country C |
| Locale.ParseDropsTail | src/data/Locale.h:23-26 | everything from the second '-' on is dropped: `"a-b-c"` gives language a and country b |
| Locale.ToStringSplits | src/data/Locale.h:34-36 | `toString(d)` prints `lang + d + country` when the country is non-empty and just `lang` otherwise: splitting the output on d gives back [lang, country] or [lang] |
| Locale.ConstructRoundTrip | src/data/Locale.h:30-36 | the two-argument constructor keeps both parts unchanged, and they survive `toString()` followed by re-parsing |
| Locale.ParseRoundTrip | src/data/Locale.h:21-34 | `Locale(s).toString() == s` when s has no '-', or exactly one '-' with a non-empty part after it |
| Locale.ParseRoundTripOnlyIf | src/data/Locale.h:21-34 | the converse: a string that survives `Locale(s).toString()` has no '-', or exactly one '-' with a non-empty part after it; two or more dashes or a trailing dash never round-trip |
| Locale.TrailingDashIsLost | src/data/Locale.h:21-36 | outside that condition the round trip can fail: `"en-"` prints back as `"en"` |

## Left out

- Settings reloads: `scraperForInfo` and `scrapersForInfos` call `loadSettings` on scrapers that have settings. These are side effects on opaque scrapers, so they are not modelled. The `hasSettings` field is carried but never read.
- `Movie::clear(infos)` and the `setTmdbId`/`setId` writes at the start of `loadData` are left out, because the movie record is not part of this model. The ids those writes would store are the ones `KnownId` extracts.
- The `isCustomScraper` controller property is not in `LoadPlan`. It is always set to true.
- The force-fanart flags record only which `setForceFanart…(true)` calls happen. The source never sets a flag back to false.
- Completion counting is not modelled. Decrementing the load counter and firing the aggregate completion exactly once both happen in the movie controller, which is not part of this model. `loadAllData` only records the count and does not itself signal completion when zero scrapers are dispatched.
- The lookup request itself is not modelled: URL construction, API key, `QNetworkAccessManager`, `NetworkReplyWatcher`, and the `Storage` properties used to carry state across the suspension. `PendingLookup` stands for that carried state. `LookupReply` stands for the reply.
- `showNetworkError(*reply)` on the lookup's network-error path (line 234) is a user-interface side effect and is left out. So is the `qWarning`/`qCritical` logging (lines 57, 76, 186, 220, 227, 235). Only the signals and dispatches are modelled.
- Loading.LoadRequest: the gate and the resumed handler read one configuration. The source reads `Settings::instance()->customMovieScraper()` again after the network round-trip (`scraperForInfo` at lines 249 and 294, and the flag checks at lines 271-288). The model assumes the configuration does not change while the lookup is in flight. `Loading.OnLoadTmdbFinished` takes its own configuration and can be applied to a changed one.
- Individual scrapers' own `search`/`loadData` are opaque. A plan only records what each one is asked to do.
- `Info` lists the usual MovieScraperInfos fields. The enum's header is not part of this model. Only Title and the five artwork fields are treated specially.
- `ScraperSearchError` kinds other than the internal error are merged into `ProviderError`. Search results carry only a name and an id.
- `titleScraper()` and `scraperNativelySupports()` (src/scrapers/movie/CustomMovieScraper.cpp:367-375) have no member of their own: they return `scraperForInfo(Title)` and `scraperSupports()`, which `Resolution.ScraperForInfo` with `Title` and `Resolution.ScraperSupports` cover.
- Left out as fixed-value trivia: `instance()`, `name()`, `identifier()`, `isAdult()`, `supportedLanguages`, `changeLanguage`, `defaultLanguageKey`, `hasSettings`, `loadSettings`/`saveSettings` of the custom scraper itself, and `settingsWidget`.
- `Locale::languageTranslated` and `Locale::English` are declared, but their implementation and data are not part of this model.
- MainWindow.cpp and src/globals/Manager.h are context only. The scraper pool that `Manager::constructNativeScrapers` builds is the `Registry` sequence.

## Findings

| source | as written | input that shows it | evidently intended | confidence | as-written member | corrected member |
|---|---|---|---|---|---|---|
| src/scrapers/movie/CustomMovieScraper.cpp:219-222 | when the TMDb reply is not valid JSON, `onLoadTmdbFinished` logs a warning and returns without calling `scraperLoadDone` | Title configured to "imdb", id table holding only TMDb id "603", reply body that fails to parse: the load neither dispatches nor completes | a malformed reply is a soft miss like an empty `imdb_id`, so `scraperLoadDone` is signalled and nothing is dispatched | medium, not executed | Loading.ParseErrorLeavesRequestOpen | Loading.LoadRequestSettled |

`Loading.ParseErrorExample` exhibits the concrete input. `Loading.OnLoadTmdbFinished` and `Loading.LoadRequest` keep the code as written. The corrected pair, `Loading.OnLoadTmdbFinishedSettled` and `Loading.LoadRequestSettled`, agrees with them on every other reply. They are proved to always end in a completion signal or a dispatch.
