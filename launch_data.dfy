/** The launch table the dashboard loads once at start-up, and the values
    derived from it before any chart is drawn. */
module LaunchData {
  import opened Frame

  /** One row of the launch table: `Launch Site`, `Payload Mass (kg)`,
      `class` (1 = success, 0 = failure) and `Booster Version Category`.
      The payload is only ever compared, so a `real` stands for the float. */
  datatype Record = Record(site: string, payload: real, cls: int, booster: string)

  /** The value of the site dropdown that selects every site. */
  const AllSites: string := "ALL"

  function SiteOf(r: Record): string { r.site }

  function ClassOf(r: Record): int { r.cls }

  /** The weight under which summing counts rows (`value_counts`). */
  function One(r: Record): int { 1 }

  /** The `Launch Site` column. */
  function Sites(t: seq<Record>): seq<string> { Column(t, SiteOf) }

  /** The `class` column. */
  function Classes(t: seq<Record>): seq<int> { Column(t, ClassOf) }

  /** The distinct launch sites of the table. */
  function SiteSet(t: seq<Record>): set<string> { Elements(Sites(t)) }

  /** The mask `df['Launch Site'] == site`. */
  function AtSite(site: string): Record -> bool { KeyIs(SiteOf, site) }

  /** The mask `df['class'] == c`. */
  function HasClass(c: int): Record -> bool { KeyIs(ClassOf, c) }

  /** The mask `(df['Payload Mass (kg)'] >= low) & (df['Payload Mass (kg)'] <= high)`. */
  function InPayloadRange(low: real, high: real): Record -> bool {
    (r: Record) => low <= r.payload && r.payload <= high
  }

  lemma AtSiteHolds(site: string, r: Record)
    ensures AtSite(site)(r) <==> r.site == site
  {
    KeyIsHolds(SiteOf, site, r);
  }

  lemma HasClassHolds(c: int, r: Record)
    ensures HasClass(c)(r) <==> r.cls == c
  {
    KeyIsHolds(ClassOf, c, r);
  }

  /** Every `class` value is 0 or 1, as the dataset's outcome column is. */
  predicate BinaryOutcomes(t: seq<Record>) {
    forall r :: r in t ==> r.cls == 0 || r.cls == 1
  }

  /** `df['Payload Mass (kg)'].min()`: the smallest payload of a non-empty table. */
  function MinPayload(t: seq<Record>): (m: real)
    requires |t| > 0
    decreases |t|
    ensures exists r :: r in t && r.payload == m
    ensures forall r :: r in t ==> m <= r.payload
  {
    if |t| == 1 then t[0].payload
    else
      assert t == t[..|t| - 1] + [t[|t| - 1]];
      var rest := MinPayload(t[..|t| - 1]);
      if t[|t| - 1].payload < rest then t[|t| - 1].payload else rest
  }

  /** `df['Payload Mass (kg)'].max()`: the largest payload of a non-empty table. */
  function MaxPayload(t: seq<Record>): (m: real)
    requires |t| > 0
    decreases |t|
    ensures exists r :: r in t && r.payload == m
    ensures forall r :: r in t ==> r.payload <= m
  {
    if |t| == 1 then t[0].payload
    else
      assert t == t[..|t| - 1] + [t[|t| - 1]];
      var rest := MaxPayload(t[..|t| - 1]);
      if rest < t[|t| - 1].payload then t[|t| - 1].payload else rest
  }

  /** With 0/1 outcomes, summing `class` counts the successful launches. */
  lemma {:induction false} ClassSumCountsSuccesses(t: seq<Record>)
    requires BinaryOutcomes(t)
    ensures SumOf(t, ClassOf) == |Where(t, HasClass(1))|
    decreases |t|
  {
    if |t| > 0 {
      var init, last := t[..|t| - 1], t[|t| - 1];
      assert last in t;
      ClassSumCountsSuccesses(init);
      HasClassHolds(1, last);
    }
  }
}
