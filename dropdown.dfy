/** The option list of the site dropdown: an "All Sites" entry followed by
    one entry per launch site, built by appending to a list. */
module Dropdown {
  import opened Frame
  import opened LaunchData

  /** One dropdown entry: the label text shown and the value passed to the charts. */
  datatype DropdownOption = DropdownOption(text: string, value: string)

  /** The first entry, which selects every site. */
  const AllSitesOption: DropdownOption := DropdownOption("All Sites", AllSites)

  /** Builds the dropdown options from the distinct sites of `t`: the
      "All Sites" entry first, then each site of the table exactly once,
      labelled with its own name, in the order the sites first occur. */
  method BuildDropdownOptions(t: seq<Record>) returns (options: seq<DropdownOption>)
    ensures |options| == 1 + |SiteSet(t)|
    ensures options[0] == AllSitesOption
    ensures forall i :: 1 <= i < |options| ==>
              options[i].text == options[i].value && options[i].value in Sites(t)
    ensures forall s :: s in SiteSet(t) ==> exists i :: 1 <= i < |options| && options[i].value == s
    ensures forall i, j :: 1 <= i < j < |options| ==> options[i].value != options[j].value
    ensures forall i, j :: 1 <= i < j < |options| ==>
              FirstSeen(Sites(t), options[i].value) < FirstSeen(Sites(t), options[j].value)
  {
    var launchSites := Unique(Sites(t));
    options := [AllSitesOption];
    for k := 0 to |launchSites|
      invariant |options| == 1 + k
      invariant options[0] == AllSitesOption
      invariant forall i :: 1 <= i < |options| ==> options[i] == DropdownOption(launchSites[i - 1], launchSites[i - 1])
    {
      options := options + [DropdownOption(launchSites[k], launchSites[k])];
    }
    DistinctSites(t);
    forall s | s in SiteSet(t)
      ensures exists i :: 1 <= i < |options| && options[i].value == s
    {
      var k := FirstSeen(launchSites, s);
      assert options[k + 1].value == s;
    }
  }

  /** What `unique` guarantees of the launch-site column. */
  lemma DistinctSites(t: seq<Record>)
    ensures |Unique(Sites(t))| == |SiteSet(t)|
    ensures forall s :: s in SiteSet(t) ==> s in Unique(Sites(t))
    ensures forall i, j :: 0 <= i < j < |Unique(Sites(t))| ==>
              FirstSeen(Sites(t), Unique(Sites(t))[i]) < FirstSeen(Sites(t), Unique(Sites(t))[j])
  {
    UniqueLength(Sites(t));
    forall i, j | 0 <= i < j < |Unique(Sites(t))|
      ensures FirstSeen(Sites(t), Unique(Sites(t))[i]) < FirstSeen(Sites(t), Unique(Sites(t))[j])
    {
      UniqueKeepsFirstSeenOrder(Sites(t), i, j);
    }
  }
}
