/** The scatter chart callback: the launches whose payload lies in the
    slider's range, optionally narrowed to one site.  The chart is modelled
    by its title and the rows it plots (x = payload, y = class, colour =
    booster category, all read off the rows). */
module ScatterChart {
  import opened Frame
  import opened LaunchData

  datatype Scatter = Scatter(title: string, points: seq<Record>)

  function ScatterTitle(site: string): string {
    if site == AllSites then "Correlation between Payload and Success for All Sites"
    else "Correlation between Payload and Success for site " + site
  }

  /** The title depends on the site argument alone and tells every selection apart. */
  lemma ScatterTitleIdentifiesSite(a: string, b: string)
    requires ScatterTitle(a) == ScatterTitle(b)
    ensures a == b
  {
    var prefix := "Correlation between Payload and Success for site ";
    ScatterTitleSiteMark(a);
    ScatterTitleSiteMark(b);
    if a != AllSites && b != AllSites {
      assert a == (prefix + a)[|prefix|..];
      assert b == (prefix + b)[|prefix|..];
    }
  }

  /** Where the two forms of the scatter title first differ. */
  lemma ScatterTitleSiteMark(site: string)
    ensures |ScatterTitle(site)| > 44
    ensures ScatterTitle(site)[44] == if site == AllSites then 'A' else 's'
  {
  }

  /** The slider's value before the user moves it: the table's payload extremes. */
  function DefaultRange(t: seq<Record>): (range: (real, real))
    requires |t| > 0
    ensures forall r :: r in t ==> range.0 <= r.payload <= range.1
    ensures exists r :: r in t && r.payload == range.0
    ensures exists r :: r in t && r.payload == range.1
  {
    (MinPayload(t), MaxPayload(t))
  }

  /** `get_scatter_chart(site, [low, high])`. */
  function SelectScatter(t: seq<Record>, site: string, low: real, high: real): (c: Scatter)
    ensures site == AllSites ==> c.title == "Correlation between Payload and Success for All Sites"
    ensures site != AllSites ==> c.title == "Correlation between Payload and Success for site " + site
  {
    var inRange := Where(t, InPayloadRange(low, high));
    if site == AllSites then Scatter(ScatterTitle(site), inRange)
    else Scatter(ScatterTitle(site), Where(inRange, AtSite(site)))
  }

  /** Whether the scatter for `site` and `[low, high]` plots row `r`. */
  predicate Plotted(r: Record, site: string, low: real, high: real) {
    low <= r.payload <= high && (site == AllSites || r.site == site)
  }

  /** The scatter plots exactly the rows in the range, inclusive at both
      ends, and of the selected site unless it is `ALL`. */
  lemma ScatterPoints(t: seq<Record>, site: string, low: real, high: real)
    ensures forall r :: r in SelectScatter(t, site, low, high).points <==> r in t && Plotted(r, site, low, high)
  {
    AtSiteAll(site);
  }

  /** Every copy of a plotted row is plotted, and no copy of any other row. */
  lemma ScatterKeepsCopies(t: seq<Record>, site: string, low: real, high: real)
    ensures forall r :: multiset(SelectScatter(t, site, low, high).points)[r] ==
              if Plotted(r, site, low, high) then multiset(t)[r] else 0
  {
    var inRange := Where(t, InPayloadRange(low, high));
    WhereMultiplicity(t, InPayloadRange(low, high));
    if site != AllSites {
      WhereMultiplicity(inRange, AtSite(site));
      AtSiteAll(site);
    }
  }

  /** The plotted rows keep their table order. */
  lemma ScatterKeepsOrder(t: seq<Record>, site: string, low: real, high: real)
    ensures IsSubsequence(SelectScatter(t, site, low, high).points, t)
  {
    var inRange := Where(t, InPayloadRange(low, high));
    WhereIsSubsequence(t, InPayloadRange(low, high));
    if site != AllSites {
      WhereIsSubsequence(inRange, AtSite(site));
      SubsequenceTransitive(Where(inRange, AtSite(site)), inRange, t);
    }
  }

  lemma AtSiteAll(site: string)
    ensures forall r :: AtSite(site)(r) <==> r.site == site
  {
    forall r ensures AtSite(site)(r) <==> r.site == site {
      AtSiteHolds(site, r);
    }
  }

  /** An inverted range (`low > high`) plots nothing; it is not swapped. */
  lemma InvertedRangeIsEmpty(t: seq<Record>, site: string, low: real, high: real)
    requires low > high
    ensures SelectScatter(t, site, low, high).points == []
  {
    var points := SelectScatter(t, site, low, high).points;
    ScatterPoints(t, site, low, high);
    NoElementIsEmpty(points);
  }

  /** Widening the payload range never removes a point, for the same site. */
  lemma WideningKeepsPoints(t: seq<Record>, site: string, low1: real, high1: real, low2: real, high2: real)
    requires low2 <= low1 && high1 <= high2
    ensures IsSubsequence(SelectScatter(t, site, low1, high1).points, SelectScatter(t, site, low2, high2).points)
    ensures |SelectScatter(t, site, low1, high1).points| <= |SelectScatter(t, site, low2, high2).points|
  {
    var narrow, wide := InPayloadRange(low1, high1), InPayloadRange(low2, high2);
    WhereMonotone(t, narrow, wide);
    if site != AllSites {
      WherePreservesSubsequence(Where(t, narrow), Where(t, wide), AtSite(site));
    }
    SubsequenceLength(SelectScatter(t, site, low1, high1).points, SelectScatter(t, site, low2, high2).points);
  }

  /** Choosing one site instead of `ALL` can only remove points, and keeps
      only rows of that site, in the order of that site's rows in the table. */
  lemma SiteNarrowsAllSites(t: seq<Record>, site: string, low: real, high: real)
    requires site != AllSites
    ensures forall r :: r in SelectScatter(t, site, low, high).points ==> r.site == site
    ensures IsSubsequence(SelectScatter(t, site, low, high).points, SelectScatter(t, AllSites, low, high).points)
    ensures IsSubsequence(SelectScatter(t, site, low, high).points, Where(t, AtSite(site)))
  {
    ScatterPoints(t, site, low, high);
    var inRange := Where(t, InPayloadRange(low, high));
    WhereIsSubsequence(inRange, AtSite(site));
    WhereIsSubsequence(t, InPayloadRange(low, high));
    WherePreservesSubsequence(inRange, t, AtSite(site));
  }

  /** A site string that names no site of the table plots nothing. */
  lemma UnknownSiteNoPoints(t: seq<Record>, site: string, low: real, high: real)
    requires site != AllSites && site !in SiteSet(t)
    ensures SelectScatter(t, site, low, high).points == []
  {
    var points := SelectScatter(t, site, low, high).points;
    ScatterPoints(t, site, low, high);
    NoElementIsEmpty(points);
  }

  /** With the slider at its initial range and the dropdown at `ALL`, every row is plotted. */
  lemma DefaultRangeKeepsEveryRow(t: seq<Record>)
    requires |t| > 0
    ensures SelectScatter(t, AllSites, DefaultRange(t).0, DefaultRange(t).1).points == t
  {
    var range := DefaultRange(t);
    WhereKeepsAll(t, InPayloadRange(range.0, range.1));
  }

  /** The range `[min, min]` plots exactly the rows of least payload. */
  lemma MinimumOnlyRange(t: seq<Record>)
    requires |t| > 0
    ensures forall r :: r in SelectScatter(t, AllSites, MinPayload(t), MinPayload(t)).points <==>
              r in t && r.payload == MinPayload(t)
  {
    ScatterPoints(t, AllSites, MinPayload(t), MinPayload(t));
  }
}
