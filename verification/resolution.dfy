/**
 Field-to-scraper resolution of the custom movie scraper: which registered
 scraper serves a field, which scrapers serve a field set, and which fields
 a given scraper is responsible for.
 */
module Resolution {
  import opened Scrapers

  /** Index of the first scraper at or after `from` whose identifier is `id`. */
  function FirstWithIdentifier(reg: Registry, id: string, from: nat): (r: Option<nat>)
    requires from <= |reg|
    ensures r.Some? ==> from <= r.value < |reg| && reg[r.value].identifier == id
    ensures r.Some? ==> forall j :: from <= j < r.value ==> reg[j].identifier != id
    ensures r.None? ==> forall j :: from <= j < |reg| ==> reg[j].identifier != id
    decreases |reg| - from
  {
    if from == |reg| then None
    else if reg[from].identifier == id then Some(from)
    else FirstWithIdentifier(reg, id, from + 1)
  }

  /**
   The scraper configured for `info`: none when the configured identifier is
   empty or unset, or when no registered scraper has it; otherwise the first
   registered scraper with that identifier.
   */
  function ScraperForInfo(reg: Registry, config: Config, info: Info): (r: Option<Scraper>)
    ensures r.None? <==> (Configured(config, info) == ""
                          || forall j :: 0 <= j < |reg| ==> reg[j].identifier != Configured(config, info))
    ensures r.Some? ==> r.value.identifier == Configured(config, info)
    ensures r.Some? ==> exists k :: 0 <= k < |reg| && reg[k] == r.value
                          && forall j :: 0 <= j < k ==> reg[j].identifier != r.value.identifier
  {
    var id := Configured(config, info);
    if id == "" then None
    else
      match FirstWithIdentifier(reg, id, 0)
      case None => None
      case Some(k) => Some(reg[k])
  }

  /** Some field of `infos` resolves to `s`. */
  ghost predicate Serves(reg: Registry, config: Config, infos: seq<Info>, s: Scraper) {
    exists i :: i in infos && ScraperForInfo(reg, config, i) == Some(s)
  }

  /**
   `x` is met before `y` when the fields are scanned in order: some field
   resolves to `x` before (or without) any field resolving to `y`.
   */
  ghost predicate SeenBefore(reg: Registry, config: Config, infos: seq<Info>, x: Scraper, y: Scraper) {
    exists k :: 0 <= k < |infos| && ScraperForInfo(reg, config, infos[k]) == Some(x)
      && forall j :: 0 <= j <= k ==> ScraperForInfo(reg, config, infos[j]) != Some(y)
  }

  lemma SeenBeforeExtends(reg: Registry, config: Config, infos: seq<Info>, n: nat, x: Scraper, y: Scraper)
    requires n <= |infos|
    requires SeenBefore(reg, config, infos[..n], x, y)
    ensures SeenBefore(reg, config, infos, x, y)
  {
    var k :| 0 <= k < n && ScraperForInfo(reg, config, infos[..n][k]) == Some(x)
      && forall j :: 0 <= j <= k ==> ScraperForInfo(reg, config, infos[..n][j]) != Some(y);
    assert forall j :: 0 <= j < n ==> infos[..n][j] == infos[j];
  }

  /**
   The resolved scrapers of `infos`, without the unresolved fields, each
   scraper once, in the order the fields first name them.
   */
  function ScrapersForInfos(reg: Registry, config: Config, infos: seq<Info>): (r: seq<Scraper>)
    ensures NoDuplicates(r)
    ensures forall s :: s in r <==> Serves(reg, config, infos, s)
    ensures forall a, b :: 0 <= a < b < |r| ==> SeenBefore(reg, config, infos, r[a], r[b])
    decreases |infos|
  {
    if infos == [] then []
    else
      var n := |infos| - 1;
      var prev := ScrapersForInfos(reg, config, infos[..n]);
      assert forall i :: i in infos <==> i in infos[..n] || i == infos[n] by {
        assert infos == infos[..n] + [infos[n]];
      }
      forall a, b | 0 <= a < b < |prev|
        ensures SeenBefore(reg, config, infos, prev[a], prev[b])
      {
        SeenBeforeExtends(reg, config, infos, n, prev[a], prev[b]);
      }
      match ScraperForInfo(reg, config, infos[n])
      case Some(s) =>
        if s in prev then prev
        else
          var r := prev + [s];
          forall a | 0 <= a < |prev|
            ensures SeenBefore(reg, config, infos, prev[a], s)
          {
            assert Serves(reg, config, infos[..n], prev[a]);
            var i :| i in infos[..n] && ScraperForInfo(reg, config, i) == Some(prev[a]);
            var k :| 0 <= k < n && infos[..n][k] == i;
            assert infos[k] == i;
            forall j | 0 <= j <= k
              ensures ScraperForInfo(reg, config, infos[j]) != Some(s)
            {
              assert infos[j] in infos[..n] by { assert infos[..n][j] == infos[j]; }
            }
          }
          r
      case None => prev
  }

  /** The fields of `infos` whose resolved scraper is `s`. */
  function InfosForScraper(reg: Registry, config: Config, s: Scraper, infos: seq<Info>): (r: set<Info>)
    ensures forall i :: i in r <==> i in infos && ScraperForInfo(reg, config, i) == Some(s)
    decreases |infos|
  {
    if infos == [] then {}
    else
      var n := |infos| - 1;
      assert infos == infos[..n] + [infos[n]];
      var prev := InfosForScraper(reg, config, s, infos[..n]);
      if ScraperForInfo(reg, config, infos[n]) == Some(s) then prev + {infos[n]} else prev
  }

  /** The fields the configuration gives a non-empty provider identifier. */
  function ScraperSupports(config: Config): (r: set<Info>)
    ensures forall i :: i in r <==> Configured(config, i) != ""
  {
    set i | i in config && config[i] != ""
  }

  /** Every field that resolves to a scraper is one the custom scraper supports. */
  lemma ResolvedFieldsAreSupported(reg: Registry, config: Config, info: Info)
    ensures ScraperForInfo(reg, config, info).Some? ==> info in ScraperSupports(config)
  {
  }

  /**
   Different scrapers are responsible for disjoint field subsets, and the
   subsets of the resolved scrapers together are exactly the resolvable
   fields of `infos`.
   */
  lemma InfosForScraperPartition(reg: Registry, config: Config, infos: seq<Info>)
    ensures forall s1, s2 :: s1 != s2 ==>
              InfosForScraper(reg, config, s1, infos) !! InfosForScraper(reg, config, s2, infos)
    ensures forall i :: i in infos && ScraperForInfo(reg, config, i).Some? ==>
              exists s :: s in ScrapersForInfos(reg, config, infos) && i in InfosForScraper(reg, config, s, infos)
    ensures forall s, i :: s in ScrapersForInfos(reg, config, infos) && i in InfosForScraper(reg, config, s, infos) ==>
              i in infos && ScraperForInfo(reg, config, i).Some?
  {
    forall i | i in infos && ScraperForInfo(reg, config, i).Some?
      ensures exists s :: s in ScrapersForInfos(reg, config, infos) && i in InfosForScraper(reg, config, s, infos)
    {
      var s := ScraperForInfo(reg, config, i).value;
      assert Serves(reg, config, infos, s);
      assert s in ScrapersForInfos(reg, config, infos);
      assert i in InfosForScraper(reg, config, s, infos);
    }
  }

  /** Every scraper a field resolves to is a registered one. */
  lemma ServedScrapersAreRegistered(reg: Registry, config: Config, infos: seq<Info>)
    ensures forall s :: Serves(reg, config, infos, s) ==> s in reg
  {
  }
}
