/**
 * The seasons list (app.py, get_seasons): every year the races query returns
 * becomes a link object holding the year as text and the URL of that
 * season's race list.
 */
module Seasons {
  import opened Wrappers
  import opened Decimal

  datatype SeasonLink = SeasonLink(season: string, url: string)

  const RoutePrefix := "/api/f1/"
  const RouteSuffix := ".json"

  /** `f'/api/f1/{year}.json'` */
  function SeasonUrl(year: int): (url: string)
    ensures |url| > |RoutePrefix| + |RouteSuffix|
    ensures url[..|RoutePrefix|] == RoutePrefix
    ensures url[|url| - |RouteSuffix|..] == RouteSuffix
    ensures url[|RoutePrefix|..|url| - |RouteSuffix|] == IntToDecimal(year)
  {
    RoutePrefix + IntToDecimal(year) + RouteSuffix
  }

  /** The list comprehension over the fetched years, in fetch order. */
  function SeasonLinks(years: seq<int>): (links: seq<SeasonLink>)
    ensures |links| == |years|
  {
    seq(|years|, i requires 0 <= i < |years| => SeasonLink(IntToDecimal(years[i]), SeasonUrl(years[i])))
  }

  /**
   * The route '/api/f1/<int:season>.json' of get_season_races: the fixed
   * prefix, a non-empty run of digits and the fixed suffix. The integer
   * converter takes no sign, so no negative season matches.
   */
  function SeasonRoute(path: string): Option<nat> {
    if |path| > |RoutePrefix| + |RouteSuffix|
       && path[..|RoutePrefix|] == RoutePrefix
       && path[|path| - |RouteSuffix|..] == RouteSuffix
    then ParseNat(path[|RoutePrefix|..|path| - |RouteSuffix|])
    else None
  }

  /**
   * Each link names its own year: its `season` text reads back as that year,
   * and its URL is routed to the race list of that same season (for every
   * year that is not negative, which is every year a races table holds).
   */
  lemma SeasonLinkNamesItsYear(years: seq<int>, i: int)
    requires 0 <= i < |years|
    ensures ParseInt(SeasonLinks(years)[i].season) == Some(years[i])
    ensures years[i] >= 0 ==> SeasonRoute(SeasonLinks(years)[i].url) == Some(years[i])
    ensures years[i] < 0 ==> SeasonRoute(SeasonLinks(years)[i].url) == None
  {
    var y := years[i];
    var digits := IntToDecimal(y);
    var url := SeasonLinks(years)[i].url;
    IntDecimalRoundTrip(y);
    assert url == RoutePrefix + digits + RouteSuffix;
    assert url[..|RoutePrefix|] == RoutePrefix;
    assert url[|url| - |RouteSuffix|..] == RouteSuffix;
    assert url[|RoutePrefix|..|url| - |RouteSuffix|] == digits;
    if y >= 0 {
      NatDecimalRoundTrip(y);
    } else {
      assert !IsDigit(digits[0]);
    }
  }

  /** Different years give different links, so no link is listed for two seasons. */
  lemma SeasonLinksDistinct(years: seq<int>, i: int, j: int)
    requires 0 <= i < |years| && 0 <= j < |years|
    requires years[i] != years[j]
    ensures SeasonLinks(years)[i].season != SeasonLinks(years)[j].season
    ensures SeasonLinks(years)[i].url != SeasonLinks(years)[j].url
  {
    SeasonLinkNamesItsYear(years, i);
    SeasonLinkNamesItsYear(years, j);
    var a, b := SeasonLinks(years)[i].url, SeasonLinks(years)[j].url;
    if a == b {
      var da, db := IntToDecimal(years[i]), IntToDecimal(years[j]);
      assert a[|RoutePrefix|..|a| - |RouteSuffix|] == da;
      assert b[|RoutePrefix|..|b| - |RouteSuffix|] == db;
      IntToDecimalInjective(years[i], years[j]);
    }
  }
}
