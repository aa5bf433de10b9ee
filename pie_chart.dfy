/** The pie chart callback: successes per site for `ALL`, otherwise the
    success and failure counts of one site.  The chart is modelled by what
    it shows (its title and its slices), not by how it is drawn. */
module PieChart {
  import opened Frame
  import opened LaunchData

  /** A pie chart: either one slice per site valued by the sum of `class`,
      or one slice per `class` value valued by its number of rows. */
  datatype Pie =
    | SuccessesBySite(title: string, successes: map<string, int>)
    | OutcomeCounts(title: string, counts: map<int, int>)

  function PieTitle(site: string): string {
    if site == AllSites then "Total Success Launches By Site"
    else "Total Success Launches for site " + site
  }

  /** The title depends on the site argument alone and tells every selection apart. */
  lemma PieTitleIdentifiesSite(a: string, b: string)
    requires PieTitle(a) == PieTitle(b)
    ensures a == b
  {
    var prefix := "Total Success Launches for site ";
    if a != AllSites && b != AllSites {
      assert a == (prefix + a)[|prefix|..];
      assert b == (prefix + b)[|prefix|..];
    }
  }

  /** The distinct `class` values of some rows. */
  function ClassSet(rows: seq<Record>): set<int> { Elements(Classes(rows)) }

  /** `get_pie_chart(site)`. */
  function SelectPie(t: seq<Record>, site: string): (p: Pie)
    ensures site == AllSites ==> p.SuccessesBySite? && p.title == "Total Success Launches By Site"
    ensures site == AllSites ==> p.successes.Keys == SiteSet(t)
    ensures site != AllSites ==> p.OutcomeCounts? && p.title == "Total Success Launches for site " + site
  {
    if site == AllSites then
      SuccessesBySite(PieTitle(site), map s | s in SiteSet(t) :: SumOf(Where(t, AtSite(s)), ClassOf))
    else
      var rows := Where(t, AtSite(site));
      OutcomeCounts(PieTitle(site), map c | c in ClassSet(rows) :: |Where(rows, HasClass(c))|)
  }

  /** For `ALL` there is one slice per site of the table, and with 0/1
      outcomes each slice is the number of that site's successful launches. */
  lemma AllSitesSliceIsSuccessCount(t: seq<Record>)
    requires BinaryOutcomes(t)
    ensures SelectPie(t, AllSites).successes.Keys == SiteSet(t)
    ensures forall s :: s in SiteSet(t) ==>
              SelectPie(t, AllSites).successes[s] == |Where(Where(t, AtSite(s)), HasClass(1))|
  {
    forall s | s in SiteSet(t)
      ensures SelectPie(t, AllSites).successes[s] == |Where(Where(t, AtSite(s)), HasClass(1))|
    {
      ClassSumCountsSuccesses(Where(t, AtSite(s)));
    }
  }

  /** The `ALL` slices, each site taken once in first-seen order, add up to
      the sum of the whole `class` column: no success is lost or counted twice. */
  lemma AllSitesSlicesSumToTotal(t: seq<Record>)
    ensures Elements(Unique(Sites(t))) == SelectPie(t, AllSites).successes.Keys
    ensures SumOverKeys(Unique(Sites(t)), SelectPie(t, AllSites).successes) == SumOf(t, ClassOf)
  {
    var p := SelectPie(t, AllSites);
    var us := Unique(Sites(t));
    assert Elements(us) == SiteSet(t);
    SumOverKeysIsGroupTotals(us, p.successes, t, SiteOf, ClassOf);
    GroupByTotal(t, SiteOf, ClassOf);
  }

  /** With 0/1 outcomes the `ALL` slices add up to the number of successful launches. */
  lemma AllSitesSlicesSumToSuccesses(t: seq<Record>)
    requires BinaryOutcomes(t)
    ensures SumOverKeys(Unique(Sites(t)), SelectPie(t, AllSites).successes) == |Where(t, HasClass(1))|
  {
    AllSitesSlicesSumToTotal(t);
    ClassSumCountsSuccesses(t);
  }

  /** For one site there is a slice for each `class` value among that site's
      rows and no other, each with a positive count; with 0/1 outcomes there
      are at most the two slices 0 and 1. */
  lemma SiteSlicesAreClassesPresent(t: seq<Record>, site: string)
    requires site != AllSites
    ensures SelectPie(t, site).counts.Keys == (set r | r in t && r.site == site :: r.cls)
    ensures forall c :: c in SelectPie(t, site).counts ==> SelectPie(t, site).counts[c] >= 1
    ensures BinaryOutcomes(t) ==> SelectPie(t, site).counts.Keys <= {0, 1}
  {
    var rows := Where(t, AtSite(site));
    var p := SelectPie(t, site);
    forall c | c in ClassSet(rows) ensures c in (set r | r in t && r.site == site :: r.cls) {
      var i :| 0 <= i < |rows| && Classes(rows)[i] == c;
      assert rows[i] in rows;
      AtSiteHolds(site, rows[i]);
    }
    forall c | c in (set r | r in t && r.site == site :: r.cls) ensures c in ClassSet(rows) {
      var r :| r in t && r.site == site && r.cls == c;
      AtSiteHolds(site, r);
      var i :| 0 <= i < |rows| && rows[i] == r;
      assert Classes(rows)[i] == c;
    }
    forall c | c in p.counts ensures p.counts[c] >= 1 {
      var i :| 0 <= i < |rows| && Classes(rows)[i] == c;
      assert rows[i] in Where(rows, HasClass(c));
    }
  }

  /** For one site, slice `c` is the number of that site's rows whose `class`
      is `c`, and a class with no such row has no slice. */
  lemma SiteSliceIsClassCount(t: seq<Record>, site: string, c: int)
    requires site != AllSites
    ensures c in SelectPie(t, site).counts <==> multiset(Classes(Where(t, AtSite(site))))[c] > 0
    ensures c in SelectPie(t, site).counts ==>
              SelectPie(t, site).counts[c] == multiset(Classes(Where(t, AtSite(site))))[c]
  {
    var rows := Where(t, AtSite(site));
    GroupSizeIsKeyCount(rows, ClassOf, c);
  }

  /** For one site, the slices, each class taken once, add up to the number of that site's rows. */
  lemma SiteSlicesSumToSiteRows(t: seq<Record>, site: string)
    requires site != AllSites
    ensures Distinct(Unique(Classes(Where(t, AtSite(site)))))
    ensures Elements(Unique(Classes(Where(t, AtSite(site))))) == SelectPie(t, site).counts.Keys
    ensures SumOverKeys(Unique(Classes(Where(t, AtSite(site)))), SelectPie(t, site).counts)
            == |Where(t, AtSite(site))|
  {
    var rows := Where(t, AtSite(site));
    var p := SelectPie(t, site);
    var us := Unique(Classes(rows));
    assert Elements(us) == ClassSet(rows);
    forall c | c in us ensures p.counts[c] == SumOf(Where(rows, KeyIs(ClassOf, c)), One) {
      SumOfAllOnes(Where(rows, KeyIs(ClassOf, c)), One);
    }
    SumOverKeysIsGroupTotals(us, p.counts, rows, ClassOf, One);
    GroupByTotal(rows, ClassOf, One);
    SumOfAllOnes(rows, One);
  }

  /** A site string that names no site of the table gives a pie with no slices. */
  lemma UnknownSiteEmptyPie(t: seq<Record>, site: string)
    requires site != AllSites && site !in SiteSet(t)
    ensures SelectPie(t, site).counts == map[]
  {
    WhereOfAbsentKey(t, SiteOf, site);
  }
}
