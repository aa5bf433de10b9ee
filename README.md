# SpaceX launch dashboard: the data logic, verified

The dashboard loads a table of rocket launches. Each row has a launch site, a
payload mass, an outcome `class` (1 = success, 0 = failure) and a booster
category. The page has a site dropdown, a payload range slider, a pie chart and
a scatter chart. Under the page layout and the chart library sit four small
pieces of data logic, and this project models them and proves what they do:

- the start-up values: the payload minimum and maximum, the distinct launch
  sites in first-seen order, and the dropdown option list built from them by a
  loop that appends one entry per site;
- `get_pie_chart`: for `ALL`, one slice per site valued by the sum of `class`;
  for one site, one slice per `class` value valued by its number of rows;
- `get_scatter_chart`: the rows whose payload lies in the slider range
  (inclusive at both ends), further restricted to the selected site unless it
  is `ALL`;
- the chart titles.

A chart is modelled by what it shows, not by how it is drawn. A pie is a title
plus a map: site to sum of `class`, or `class` to count. A scatter is a title
plus the rows it plots. The payload is a `real`, because it is only ever
compared.

Files:

- `frame.dfy` (module `Frame`): generic stand-ins for the dataframe calls.
  `Where` is boolean-mask selection, `Column` takes a column, `Unique` is
  `unique()` in first-seen order, `SumOf` adds up a column, and `GroupTotals`
  adds up per-group sums. It also has the lemmas about subsequences,
  selections, `unique` and group-by totals.
- `launch_data.dfy` (module `LaunchData`): the `Record` row, the `ALL`
  sentinel, the site and class masks, and the payload minimum and maximum.
- `dropdown.dfy` (module `Dropdown`): the option list, built by a method with a
  loop, as in the source.
- `pie_chart.dfy` (module `PieChart`): `SelectPie` and its properties.
- `scatter_chart.dfy` (module `ScatterChart`): `SelectScatter`, the default
  slider range and their properties.

Both selectors are functions, so calling one twice with the same inputs gives
the same chart.

Behaviour worth knowing, as the code has it:

- A site string that names no site is not rejected. It yields an empty pie and
  an empty scatter (`UnknownSiteEmptyPie`, `UnknownSiteNoPoints`).
- An inverted range (`low > high`) is not swapped. It yields no points.
- For `ALL`, a site with no successful launch still has a slice, with value 0.
- A launch site literally named `ALL` would be shadowed by the sentinel. Its
  dropdown value would select every site.

## Model

`SumOf`, `AtSite` and `InPayloadRange` translate `.sum()` (line 72), the site mask
(lines 78 and 126) and the payload mask (lines 111-112) directly. Their meaning is
proved in the lemmas below that use them: `ScatterPoints` for both masks,
`SiteSlicesAreClassesPresent` and `SiteNarrowsAllSites` for the site mask, and
`ClassSumCountsSuccesses`, `GroupByTotal` and `SumOfAllOnes` for the sum.

| member | source | states |
|---|---|---|
| `LaunchData.MinPayload` | 3_2-spacex-dash-app.py:12 | the result is the payload of some row and no row has a smaller payload |
| `LaunchData.MaxPayload` | 3_2-spacex-dash-app.py:11 | the result is the payload of some row and no row has a larger payload |
| `ScatterChart.DefaultRange` | 3_2-spacex-dash-app.py:53 | the slider's initial range runs from the least to the greatest payload: every row's payload lies inside it and each end is the payload of some row |
| `Frame.Unique` | 3_2-spacex-dash-app.py:15 | the result holds exactly the values of the column, each once |
| `Frame.UniqueKeepsFirstSeenOrder` | 3_2-spacex-dash-app.py:15 | values appear in the order of their first occurrence in the column |
| `Frame.UniqueLength` | 3_2-spacex-dash-app.py:15 | the result has one entry per distinct value of the column |
| `Dropdown.DistinctSites` | 3_2-spacex-dash-app.py:15 | the distinct sites of the table: one per site, none missing, in first-seen order |
| `Dropdown.BuildDropdownOptions` | 3_2-spacex-dash-app.py:15-20 | "All Sites"/`ALL` comes first, then each site of the table exactly once, labelled with its own name, in first-seen order; length is 1 + the number of distinct sites |
| `Frame.Column` | 3_2-spacex-dash-app.py:15 | taking a column gives one value per row, in table order, each the row's own value |
| `Frame.Where` | 3_2-spacex-dash-app.py:110-113 | a boolean-mask selection keeps exactly the rows that satisfy the mask |
| `Frame.WhereMultiplicity` | 3_2-spacex-dash-app.py:110-113 | a selection keeps every copy of an accepted row and no copy of a rejected one |
| `Frame.WhereIsSubsequence` | 3_2-spacex-dash-app.py:110-113 | a selection keeps the rows in table order |
| `Frame.WhereMonotone` | 3_2-spacex-dash-app.py:110-113 | a weaker mask keeps every row a stronger mask keeps, in order |
| `Frame.WherePreservesSubsequence` | 3_2-spacex-dash-app.py:125-127 | applying the site mask after a narrower range filter gives a subsequence of applying it after a wider one |
| `Frame.GroupByTotal` | 3_2-spacex-dash-app.py:72-73 | adding up the per-group sums over the distinct keys gives the column's total |
| `Frame.GroupSizeIsKeyCount` | 3_2-spacex-dash-app.py:81 | the number of rows of a group is the number of times its key occurs in the key column, as `value_counts` counts |
| `LaunchData.ClassSumCountsSuccesses` | 3_2-spacex-dash-app.py:72 | with 0/1 outcomes, the sum of `class` is the number of successful launches |
| `PieChart.SelectPie` | 3_2-spacex-dash-app.py:64-94 | for `ALL`, a per-site pie titled "Total Success Launches By Site" with one slice per site of the table; otherwise a per-class pie titled "Total Success Launches for site {site}" |
| `PieChart.PieTitleIdentifiesSite` | 3_2-spacex-dash-app.py:74-88 | the pie title ("... By Site" for `ALL`, "... for site {site}" otherwise) is different for different site arguments |
| `PieChart.AllSitesSliceIsSuccessCount` | 3_2-spacex-dash-app.py:70-74 | for `ALL` there is one slice per site of the table, valued by that site's number of successful launches |
| `PieChart.AllSitesSlicesSumToTotal` | 3_2-spacex-dash-app.py:70-74 | the `ALL` slices, each site taken once, add up to the sum of the whole `class` column |
| `PieChart.AllSitesSlicesSumToSuccesses` | 3_2-spacex-dash-app.py:70-74 | with 0/1 outcomes, the `ALL` slices add up to the number of successful launches |
| `PieChart.SiteSlicesAreClassesPresent` | 3_2-spacex-dash-app.py:76-82 | for one site, there is a slice for each `class` value among that site's rows and no other, each count is positive, and with 0/1 outcomes the keys are within {0, 1} |
| `PieChart.SiteSliceIsClassCount` | 3_2-spacex-dash-app.py:76-82 | for one site, class `c` has a slice exactly when some row of that site has class `c`, and its value is the number of such rows |
| `PieChart.SiteSlicesSumToSiteRows` | 3_2-spacex-dash-app.py:76-82 | for one site, the slices, each class taken once, add up to the number of that site's rows |
| `PieChart.UnknownSiteEmptyPie` | 3_2-spacex-dash-app.py:76-82 | a site that names no site of the table gives a pie with no slices |
| `ScatterChart.SelectScatter` | 3_2-spacex-dash-app.py:101-134 | the title is "Correlation between Payload and Success for All Sites" for `ALL`, otherwise "Correlation between Payload and Success for site {site}" |
| `ScatterChart.ScatterTitleIdentifiesSite` | 3_2-spacex-dash-app.py:115-133 | the scatter title ("... for All Sites" for `ALL`, "... for site {site}" otherwise) is different for different site arguments |
| `ScatterChart.ScatterPoints` | 3_2-spacex-dash-app.py:107-127 | a row is plotted if and only if `low <= payload <= high` and, unless the site is `ALL`, it has the selected site |
| `ScatterChart.ScatterKeepsCopies` | 3_2-spacex-dash-app.py:107-127 | every copy of a plotted row is plotted; no copy of any other row is |
| `ScatterChart.ScatterKeepsOrder` | 3_2-spacex-dash-app.py:107-127 | the plotted rows are a subsequence of the table |
| `ScatterChart.InvertedRangeIsEmpty` | 3_2-spacex-dash-app.py:107-113 | a range with `low > high` plots no rows |
| `ScatterChart.WideningKeepsPoints` | 3_2-spacex-dash-app.py:110-127 | for the same site, widening the range gives a supersequence of the points, so never fewer points |
| `ScatterChart.SiteNarrowsAllSites` | 3_2-spacex-dash-app.py:115-127 | for one site, every point has that site, and the points are a subsequence both of the `ALL` points for the same range and of that site's rows |
| `ScatterChart.UnknownSiteNoPoints` | 3_2-spacex-dash-app.py:123-127 | a site that names no site of the table plots no rows |
| `ScatterChart.DefaultRangeKeepsEveryRow` | 3_2-spacex-dash-app.py:110-122 | with the initial range `[min, max]` and `ALL`, the scatter plots the whole non-empty table, in order |
| `ScatterChart.MinimumOnlyRange` | 3_2-spacex-dash-app.py:110-122 | the range `[min, min]` plots exactly the rows of least payload |

## Left out

- Loading the CSV file (line 10) is file I/O. The table is an input `seq<Record>`. Where the minimum and maximum are used, it must be non-empty.
- Constructing the Dash app, the page layout, the callback wiring and `app.run()` (lines 23-58, 62-63, 98-100, 137-138) are framework plumbing and the event loop.
- Plotly drawing is a foreign library. This covers the x/y/colour encodings of the scatter, the colour map `{0: 'red', 1: 'green'}` and all styling (lines 26-28, 91-92, 117-120, 129-132). The scatter keeps whole rows, so payload, class and booster category are there to read.
- The slider's settings `min=0, max=10000, step=1000` and its marks (lines 50-52) are widget configuration. The model takes whatever range the slider passes.
- The slice order that `value_counts()` produces (line 81) is a library detail. The counts are a map. The sums over slices enumerate the keys in first-seen order.
- Floating-point payloads (NaN, which `min`, `max` and the comparisons treat specially) are not modelled. The payload is a `real`.
- A cleared dropdown passes `None` rather than a string. The model's site argument is always a string. The code would treat `None` like an unknown site, with the title ending in "None".
- PieChart.SelectPie: its own contract states only the title and which kind of pie it is. The slice contents are stated by lemmas: `AllSitesSliceIsSuccessCount` for `ALL` and `SiteSliceIsClassCount` for one site.
- ScatterChart.SelectScatter: its own contract states only the title. The plotted rows are stated by `ScatterPoints`, `ScatterKeepsCopies` and `ScatterKeepsOrder`.
