# PhonePe Pulse dashboard reductions, in Dafny

The repository is a Streamlit app with five dashboard pages over PhonePe Pulse
tables: aggregated transactions, district and pincode transactions, users and
devices. Each page reads a table and narrows it with the sidebar selections.
It then reduces the table with pandas and draws the result.

This project models those reductions:

- the sidebar masks;
- `groupby(...).sum()`;
- `groupby(...).idxmax()` / `idxmin()` followed by `.loc`;
- `sort_values`;
- the mean-based HIGH / POTENTIAL / LOW classifiers;
- the choropleth colour map;
- `pivot_table` for the heatmap;
- the `astype(str)` and `pd.to_numeric(errors='coerce')` column rewrites.

It proves what each reduction delivers:

- One output row per group, and only groups that occur.
- Each group's total is the sum over its rows, and the totals add up to the table's total.
- The chosen row of a group is the first row with the group's extreme value.
- Results come in the promised order.
- Each classifier's categories follow from the mean.

Module layout:

- `Wrappers`: `Option` and `Result`.
- `Text`: Python's `str()` of an integer and parsing it back, plus the lexicographic string order that pandas uses for text keys.
- `Orders`: strict total orders on keys and on pairs of keys.
- `Tables`: the shared table toolkit. It covers filter, sums, sorted group keys, group sums, the first arg-extremum per group, the descending sort, and the two-stage "top child per parent" reduction.
- `Categories`: the two classifiers, the mean, and the colour map.
- `TransactionDashboard`, `DynamicsDashboard`, `UserDashboard`, `DistrictPincodeDashboard`, `DeviceDashboard`: one module per page.

Rows are datatypes, and pandas columns are the fields of those datatypes.

The transaction page's functions rewrite the table they are handed: the year and quarter columns become text, and the count column becomes numeric. That table is therefore the class `TransactionDashboard.TransactionFrame`. Its `rows` field is replaced by the methods. How these rewrites play out across the page is stated by `TransactionDashboard.TransactionPage`.

The other pages are modelled as functions. Some of them do write columns in place, but in each case a value carries the same information:

- pages/District_Pincode_Dashboard.py:124 replaces `pincode_df['pincode']` by its text. Every later reduction of that table (lines 126-129 and 150) is keyed by `DistrictPincodeDashboard.PincodeText`, the text of the pincode. The uses before line 124 (the heatmap at 86-92 and the mask at 111-116) never read the pincode column, so the rewrite changes nothing they compute. The script reads the CSV afresh on every run.
- pages/User_Dashboard.py:158-161 (`plot_choropleth`) title-cases the state and category columns of the frame `potential_area` returned, and adds `category_value`. Nothing reads that frame after the call (line 200, the call itself, is the script's last line), so the new column is the value `UserDashboard.ChoroplethValues`.
- pages/Transaction_Dashboard.py:104-107 adds a `tooltip_info` column to the minima table, which only the scatter chart reads.
- pages/Dynamics_Dashboard.py:102 and pages/User_Dashboard.py:49, 77 and 106 copy the frame before they write to it.

## Model

| member | source | states |
|---|---|---|
| Tables.Filter | pages/Dynamics_Dashboard.py:55 | a boolean-mask selection keeps exactly the rows the mask accepts |
| Tables.FilterCount | pages/Device_Dashboard.py:58-62 | every kept row keeps its multiplicity and no rejected row remains |
| Tables.FilterInOrder | pages/Dynamics_Dashboard.py:34-38 | the masked table is a subsequence of the input: row order is kept |
| Tables.SumWhereFilter | pages/Dynamics_Dashboard.py:55-58 | summing a group of the masked table equals summing the group of the whole table with rejected rows counted as zero |
| Tables.FilterAll | pages/Device_Dashboard.py:58-62 | a mask that accepts every row returns the table unchanged |
| Tables.SumPermutation | pages/Device_Dashboard.py:117 | reordering rows does not change a column sum |
| Tables.GroupKeys | pages/Dynamics_Dashboard.py:58 | groupby keys are strictly ascending and are exactly the keys present in the table |
| Tables.GroupSum | pages/Dynamics_Dashboard.py:58 | one total per present key, keys ascending, each total the sum of the key's rows |
| Tables.GroupSumConserves | pages/Device_Dashboard.py:151 | the group totals add up to the column total |
| Tables.GroupSumOnePerGroup | pages/Device_Dashboard.py:116 | a groupby-sum result has exactly one row per group of the input |
| Tables.SortDesc | pages/Dynamics_Dashboard.py:74 | `sort_values(ascending=False)` yields a descending permutation |
| Tables.SubsequenceSortedDesc | pages/Transaction_Dashboard.py:153 | masking a descending table keeps it descending |
| Tables.GroupSumDesc | pages/Device_Dashboard.py:116-117 | groupby-sum then descending sort: descending and a permutation of the group totals |
| Tables.GroupSumDescTotals | pages/Device_Dashboard.py:116-117 | the sorted totals are still one per group, each the sum of its group, and add up to the column total |
| Tables.FirstExtreme | pages/User_Dashboard.py:57 | idxmax/idxmin of a group: none iff the group has no valid row, otherwise the first valid row whose value no valid row of the group beats |
| Tables.FirstExtremeUnique | pages/User_Dashboard.py:57 | the first extreme row of a group is unique |
| Tables.ExtremeIndices | pages/Transaction_Dashboard.py:61 | the idxmax/idxmin labels of all groups, in key order; none iff some group has only missing values |
| Tables.PickPerGroup | pages/Transaction_Dashboard.py:61-63 | `.loc[idx]` of the per-group extremes: one row per group in key order, each the first extreme of its group, none iff some group has no valid value |
| Tables.ExtremePerGroup | pages/User_Dashboard.py:57-58 | the same for a column without missing values, which always succeeds |
| Tables.TopPerGroup | pages/Device_Dashboard.py:79-80 | per-group first maxima re-sorted descending by the measure |
| Tables.FirstExtremeRowFacts | pages/Device_Dashboard.py:79 | a picked row belongs to the table, is valid, and no valid row of its group beats it |
| Tables.DistinctKeysPermutation | pages/Device_Dashboard.py:80 | reordering keeps keys distinct |
| Tables.OnePerGroupPermutation | pages/Device_Dashboard.py:80 | reordering keeps one row per group |
| Tables.GroupTotals | pages/District_Pincode_Dashboard.py:76 | group sums: ascending keys, one per group, sums of the groups, adding up to the column total |
| Tables.TopChildPerParent | pages/District_Pincode_Dashboard.py:52-55 | sum per (parent, child), then per parent the first child with the largest sum, sorted descending: one row per parent, its total the pair's sum, no sibling pair larger, every sibling pair before it in key order strictly smaller |
| Text.IntToString | pages/Transaction_Dashboard.py:57-58 | `str()` of an integer is non-empty: digits only when non-negative, otherwise a minus sign and digits (read back by Text.ParseIntToString) |
| Text.ParseInt | pages/Transaction_Dashboard.py:122 | a string parses as an integer iff it is digits, or a sign followed by at least one digit; everything else is None |
| Text.StrLt | pages/User_Dashboard.py:58 | Python's string `<`: a proper prefix comes first, and a string never precedes a prefix of itself; Orders.StrLtIsOrder makes it a strict total order |
| Text.YearQuarterLabel | pages/Dynamics_Dashboard.py:156 | the label's only space ends the year text, which is what makes labels of different quarters differ |
| Text.NatToString | pages/User_Dashboard.py:50 | `str()` of a natural number is a non-empty digit string, one digit long iff below 10 |
| Text.ParseIntToString | pages/Transaction_Dashboard.py:122 | parsing the text of an integer gives the integer back |
| Text.IntToStringInjective | pages/District_Pincode_Dashboard.py:124 | distinct integers have distinct texts, so grouping by the text groups as by the number |
| Text.StrLtTotal | pages/User_Dashboard.py:58 | the string order sorts any two distinct strings one way or the other |
| Text.StrLtTransitive | pages/User_Dashboard.py:58 | the string order is transitive |
| Text.SameWidthOrder | pages/User_Dashboard.py:50-51 | texts of non-negative integers of equal width compare as the numbers do |
| Text.FourDigits | pages/User_Dashboard.py:50 | a year from 1000 to 9999 has a four-character text |
| Text.YearQuarterLabelInjective | pages/Dynamics_Dashboard.py:156 | different (year, quarter) pairs get different "<year> Q<quarter>" labels |
| Orders.PairLtIsOrder | pages/Transaction_Dashboard.py:61 | grouping by two columns orders keys lexicographically, a strict total order |
| Categories.ClassifyStrict | pages/Transaction_Dashboard.py:131-137 | HIGH iff above the mean, LOW iff below half the mean and not above it, POTENTIAL otherwise |
| Categories.ClassifyAtLeast | pages/User_Dashboard.py:136-142 | High iff at least the mean, Potential iff below the mean but at least half of it, Low otherwise |
| Categories.StrictMonotone | pages/Dynamics_Dashboard.py:64-70 | for a fixed mean a larger total never gets a lower category |
| Categories.AtLeastMonotone | pages/User_Dashboard.py:136-142 | the same for the `>=` classifier |
| Categories.SomeAtLeastMean | pages/User_Dashboard.py:134 | some value reaches the mean |
| Categories.AtLeastHasHigh | pages/User_Dashboard.py:134-142 | with the `>=` classifier some group is always High |
| Categories.StrictHasNonHigh | pages/Dynamics_Dashboard.py:61-70 | with the `>` classifier some group is never HIGH |
| Categories.StrictNonNegativeHasNonLow | pages/Transaction_Dashboard.py:128-137 | with non-negative totals not every group is LOW |
| Categories.MeanUpdate | pages/Transaction_Dashboard.py:128 | raising one total by d raises the mean by d/n |
| Categories.StrictRaiseNeverLowers | pages/Transaction_Dashboard.py:128-137 | raising a group's total never lowers its category, although the mean moves too |
| Categories.AtLeastRaiseNeverLowers | pages/User_Dashboard.py:134-142 | the same for the `>=` classifier |
| Categories.ThreeStateExample | pages/Dynamics_Dashboard.py:61-70 | totals 100, 400, 50 have mean 550/3 and are POTENTIAL, HIGH, LOW |
| Categories.CategoryValue | pages/Dynamics_Dashboard.py:110-111 | every title-cased category is in the colour map and maps to its rank Low 0, Potential 1, High 2 |
| Categories.ClassifyTotals | pages/Dynamics_Dashboard.py:73 | the category column keeps every key and total and classifies each total against the given mean |
| Categories.ClassifyGroups | pages/Dynamics_Dashboard.py:58-74 | group sums classified against their mean and sorted descending: one row per group, totals the group sums, categories from the `>` classifier |
| Categories.Mean | pages/User_Dashboard.py:134 | the mean times the number of values is their sum |
| Categories.GroupMean | pages/Transaction_Dashboard.py:128 | the mean of the per-group sums times the number of distinct groups is the column total; 0 when there is no group |
| Categories.ClassifyGroupsPartition | pages/Dynamics_Dashboard.py:58-73 | the HIGH, POTENTIAL and LOW counts of the classified table add up to the number of distinct groups of the input |
| Categories.ClassifyGroupsNotAllHigh | pages/Dynamics_Dashboard.py:61-70 | on a non-empty table some group is not HIGH |
| TransactionDashboard.SelectTransactions | pages/Transaction_Dashboard.py:39-43 | the rows whose numeric year, numeric quarter and state are selected, in order, with multiplicities |
| TransactionDashboard.SelectEverything | pages/Transaction_Dashboard.py:39-43 | selecting every value present keeps the table |
| TransactionDashboard.YearsAsText | pages/Transaction_Dashboard.py:57-58 | every row's year and quarter are replaced by their text, nothing else changes (idempotent by YearsAsTextKeepsKeys) |
| TransactionDashboard.YearsAsTextKeepsKeys | pages/Transaction_Dashboard.py:57-58 | converting the columns twice is converting once, and every row keeps its grouping key |
| TransactionDashboard.Coerce | pages/Transaction_Dashboard.py:122 | after coercion no cell is text; integer text becomes its number, other text becomes missing, numbers and missing stay |
| TransactionDashboard.Coerced | pages/Transaction_Dashboard.py:122 | every row's count is coerced, nothing else changes |
| TransactionDashboard.CoercedNoText | pages/Transaction_Dashboard.py:122 | on a table without text counts the coercion is the identity |
| TransactionDashboard.CoerceText | pages/Transaction_Dashboard.py:122 | the text of a number coerces back to the number |
| TransactionDashboard.CoercedIdempotent | pages/Transaction_Dashboard.py:122 | coercing twice is coercing once and leaves no text count |
| TransactionDashboard.ExtremeTrans | pages/Transaction_Dashboard.py:54-64 | fails iff the count column holds text, or if not, iff some (year, quarter) has no count; otherwise one row per (year, quarter) in string-key order, each the first row with the extreme count |
| TransactionDashboard.MaxTrans | pages/Transaction_Dashboard.py:54-64 | the same with the largest count: no count in the quarter exceeds the picked one |
| TransactionDashboard.MinTrans | pages/Transaction_Dashboard.py:88-97 | the same with the smallest count: no count in the quarter is below the picked one |
| TransactionDashboard.NumericCountsSucceed | pages/Transaction_Dashboard.py:61 | a table whose counts are all numbers always yields the per-quarter table |
| TransactionDashboard.PontentialAreaOf | pages/Transaction_Dashboard.py:121-142 | one row per (state, district), sums of coerced counts with missing as nothing, labelled "HIGH" above the mean district sum, "LOW" below half of it, "PONTENTIAL" otherwise, largest sum first |
| TransactionDashboard.PontentialAreaPartition | pages/Transaction_Dashboard.py:124-139 | the HIGH, PONTENTIAL and LOW counts add up to the number of distinct (state, district) pairs |
| TransactionDashboard.PontentialAreaNotAllHigh | pages/Transaction_Dashboard.py:128-137 | on a non-empty table some district is not HIGH |
| TransactionDashboard.StatePotential | pages/Transaction_Dashboard.py:147-153 | the classified districts of the selected states, in the classified order, still descending |
| TransactionDashboard.TransactionFrame.constructor | pages/Transaction_Dashboard.py:54 | the frame holds the table it was given |
| TransactionDashboard.TransactionFrame.MaxTransEveryYearQuarter | pages/Transaction_Dashboard.py:54-64 | rewrites year and quarter as text in place and returns MaxTrans of the rewritten table |
| TransactionDashboard.TransactionFrame.MinTransEveryYearQuarter | pages/Transaction_Dashboard.py:88-97 | rewrites year and quarter as text in place and returns MinTrans of the rewritten table |
| TransactionDashboard.TransactionFrame.PontentialArea | pages/Transaction_Dashboard.py:121-142 | coerces the count column in place and returns PontentialAreaOf the coerced table |
| TransactionDashboard.TransactionPage | pages/Transaction_Dashboard.py:66-144 | the three module-level calls on one shared table: the maxima of the converted table; if they fail, the script stops and there are no minima and no classification; otherwise the minima of the same converted table (the second conversion changes nothing) and the classification of that table, on which the coercion provably changes nothing because no count is text |
| DynamicsDashboard.SelectAggregates | pages/Dynamics_Dashboard.py:34-38 | the rows whose year, quarter and mode are selected, in order, with multiplicities |
| DynamicsDashboard.SelectEverything | pages/Dynamics_Dashboard.py:34-38 | selecting every value present keeps the table |
| DynamicsDashboard.OverallGrowth | pages/Dynamics_Dashboard.py:48-76 | the column-less frame iff no mode is selected; otherwise one row per state of the selected modes, totals the state sums, HIGH/POTENTIAL/LOW against the mean, largest first |
| DynamicsDashboard.StateCountOnlySelectedModes | pages/Dynamics_Dashboard.py:55-58 | a state's total counts only rows of selected modes |
| DynamicsDashboard.OverallGrowthPartition | pages/Dynamics_Dashboard.py:58-73 | the HIGH, POTENTIAL and LOW counts add up to the number of states among the rows of the selected modes |
| DynamicsDashboard.OverallGrowthNotAllHigh | pages/Dynamics_Dashboard.py:61-70 | when a selected mode has rows, some state is not HIGH |
| DynamicsDashboard.PotentialStates | pages/Dynamics_Dashboard.py:82-90 | the POTENTIAL rows in table order; nothing for the column-less frame, which the page skips |
| DynamicsDashboard.CategoryValuesAsWritten | pages/Dynamics_Dashboard.py:102-111 | the colour column as written: fails iff the frame has no columns, else colour value of every state |
| DynamicsDashboard.CategoryValuesFailWithoutModes | pages/Dynamics_Dashboard.py:51-53 | with no mode selected the map code fails |
| DynamicsDashboard.CategoryValues | pages/Dynamics_Dashboard.py:102-111 | the colour column: empty for the column-less frame, else the colour value of every state's category |
| DynamicsDashboard.CategoryValuesOrdered | pages/Dynamics_Dashboard.py:110-111 | a state with a larger total never gets a smaller colour value |
| DynamicsDashboard.UserGrowth | pages/Dynamics_Dashboard.py:155-159 | registered users per (year, quarter) ascending, one per quarter, each the quarter's sum labelled "<year> Q<quarter>", adding up to the column total |
| DynamicsDashboard.UserGrowthLabelsDistinct | pages/Dynamics_Dashboard.py:156 | no two points share a label |
| UserDashboard.SelectUsers | pages/User_Dashboard.py:35-38 | the rows whose year and state are selected, in order, with multiplicities |
| UserDashboard.SelectEverything | pages/User_Dashboard.py:35-38 | selecting every value present keeps the table |
| UserDashboard.ExtremeUsers | pages/User_Dashboard.py:46-58 | nothing for an empty table; otherwise one row per (year, quarter) in string-key order, each the first row with the extreme user count |
| UserDashboard.SameQuarterSameText | pages/User_Dashboard.py:50-51 | one row per text key is one row per numeric (year, quarter) |
| UserDashboard.MaxUserEveryYearQuarter | pages/User_Dashboard.py:46-58 | every picked row has the most users of its quarter |
| UserDashboard.MinUserEveryYearQuarter | pages/User_Dashboard.py:74-86 | every picked row has the fewest users of its quarter |
| UserDashboard.TextOrderIsChronological | pages/User_Dashboard.py:58 | for four-digit years and one-digit quarters the string order of the keys is the chronological order |
| UserDashboard.ExtremeUsersChronological | pages/User_Dashboard.py:58 | so the max and min tables of calendar data run in chronological order |
| UserDashboard.UserGrowthOverTime | pages/User_Dashboard.py:103-108 | registered users per year text, ascending, one per year, each the year's sum, adding up to the column total |
| UserDashboard.YearTotalIsYearSum | pages/User_Dashboard.py:107-108 | the total of a year's text is the total of that numeric year |
| UserDashboard.PotentialArea | pages/User_Dashboard.py:125-149 | one row per state in state order with app opens and users summed, `open_per_user` from the two sums, High/Potential/Low by the `>=` classifier against the mean `open_per_user` |
| UserDashboard.PotentialAreaHasHigh | pages/User_Dashboard.py:134-142 | on a non-empty table some state is High |
| UserDashboard.ChoroplethValues | pages/User_Dashboard.py:159-161 | every category is in the colour map and gets its colour value |
| UserDashboard.ChoroplethValuesMonotone | pages/User_Dashboard.py:136-161 | more opens per user never gives a smaller colour value |
| DistrictPincodeDashboard.SelectDistricts | pages/District_Pincode_Dashboard.py:24-29 | nothing unless year, quarter and state are all selected; then the selected rows in order, with multiplicities |
| DistrictPincodeDashboard.SelectPincodes | pages/District_Pincode_Dashboard.py:111-116 | the same for the pincode table |
| DistrictPincodeDashboard.DistrictPlot | pages/District_Pincode_Dashboard.py:37 | transaction count per district of the selection, ascending, one per district, adding up to the selection's total |
| DistrictPincodeDashboard.MaxTransactionDistrict | pages/District_Pincode_Dashboard.py:52-55 | per state the district with the largest summed amount (the first in district order on a tie), largest first |
| DistrictPincodeDashboard.DistrictYearlyTrend | pages/District_Pincode_Dashboard.py:76 | amount per (year, state), ascending, one per pair, adding up to the column total |
| DistrictPincodeDashboard.Heatmap | pages/District_Pincode_Dashboard.py:86-92 | `pivot_table` cells: a cell exists iff the (state, year) occurs, and holds the sum of its counts |
| DistrictPincodeDashboard.HeatmapCells | pages/District_Pincode_Dashboard.py:86-92 | the filled cells in (state, year) order, one per pair, adding up to the column total |
| DistrictPincodeDashboard.HeatmapMatchesCells | pages/District_Pincode_Dashboard.py:86-92 | the pivot map and the cell list hold the same cells with the same sums |
| DistrictPincodeDashboard.MaxTransactionPincode | pages/District_Pincode_Dashboard.py:124-129 | per state the pincode text with the largest summed count (the first in string order on a tie), largest first |
| DistrictPincodeDashboard.TopPincodeIsAPincode | pages/District_Pincode_Dashboard.py:124-129 | each top pincode text is the text of a pincode of that state, and parses back to it |
| DistrictPincodeDashboard.PincodeYearlyTrend | pages/District_Pincode_Dashboard.py:150 | count per (year, state, pincode text), ascending, one per triple, adding up to the column total |
| DeviceDashboard.SelectDevices | pages/Device_Dashboard.py:58-62 | the rows whose year, quarter and brand are selected, in order, with multiplicities |
| DeviceDashboard.SelectEverything | pages/Device_Dashboard.py:58-62 | selecting every value present keeps the table |
| DeviceDashboard.MaxDeviceState | pages/Device_Dashboard.py:75-80 | per (state, year) the first row with the most registered users, most users first; no row of the pair has more |
| DeviceDashboard.MobileWiseData | pages/Device_Dashboard.py:106-119 | the column-less frame iff no brand is selected; otherwise users of the selected brands per state, one per state, largest first, adding up to the selection's total |
| DeviceDashboard.StateWiseData | pages/Device_Dashboard.py:141-154 | the column-less frame iff no state is selected; otherwise device counts of the selected states per brand, largest first, adding up to the selection's total |
| DeviceDashboard.ChartColumnsAsWritten | pages/Device_Dashboard.py:162-163 | a chart's key and value columns as written: fail iff the frame has no columns, otherwise one pair per row |
| DeviceDashboard.MobileBarsFailWithoutBrands | pages/Device_Dashboard.py:110-112 | with no brand selected the bar-plot code fails |
| DeviceDashboard.BrandShareFailsWithoutStates | pages/Device_Dashboard.py:145-147 | with no state selected the donut code fails |
| DeviceDashboard.ChartColumns | pages/Device_Dashboard.py:128 | labels and values of a chart, empty without a selection, one pair per row |
| DeviceDashboard.MobileBarsTotals | pages/Device_Dashboard.py:114-128 | the bars add up to the selected brands' registered users and no state has two bars |
| DeviceDashboard.BrandShareTotals | pages/Device_Dashboard.py:150-163 | the donut's values add up to the selected states' device count and no brand appears twice |

## Left out

- Streamlit widgets, page layout, Plotly figures, the CSV reads and the GeoJSON download are I/O. The sidebar selections are parameters, and the tables are given as sequences of row values.
- `home.py` is not part of this model: it only renders a landing page.
- Integer width: pandas sums these columns as int64, which wraps around past 2^63 - 1; the model's `int` is unbounded, so int64 overflow is not modelled. The data's magnitudes are far below that bound.
- Floating point: every count, amount and user figure is an `int`. Means and `open_per_user` are exact reals, not doubles.
- UserDashboard.PotentialArea: `round(appopens / reguser)` is the parameter `ratio`, so Python's float division and banker's rounding, including a zero `reguser`, are not modelled.
- TransactionDashboard.Coerce: `to_numeric` here accepts only integer literals (an optional sign and digits); any other text, a decimal or exponent literal included, becomes missing.
- Tables.SortDesc: `sort_values` with the default quicksort is not stable. The model sorts with a stable insertion sort and promises only order plus permutation. The rows that tie on the sort column may come out in another order in the original.
- TransactionDashboard.ExtremeTrans: the year and quarter keys compare as strings, as the page sorts them. The chronological reading of that order is proved for the user page (UserDashboard.TextOrderIsChronological), not restated for this one.
- TransactionPage: a failing first reduction stops the script; the model returns None for what the script never computes, not the exception itself. The model also does not say what the tooltip column of lines 104-107 holds.
- TransactionDashboard.ExtremeTrans: the two failures stand for pandas refusing idxmax on an object column and for `.loc` on a missing label. The first is the behaviour of pandas up to 2.1, which raises a TypeError ("reduction operation 'argmax' not allowed"); from pandas 2.2 the groupby idxmax may accept an object column and compare its values, which the model does not capture. Which exception and which message pandas raises is not modelled.
- `str.title()` and `str.strip()` of state names are left out: state keys are kept as read. The title-casing of the category names is the fixed map Categories.TitleLabel.
- `describe()` on the dynamics page and the dummy `open_per_user` column there (line 108) feed only displays and are not modelled.
- An empty table has no group to average. The model's mean (Categories.GroupMean) is 0 there, not NaN, and no row is classified with it.
- The pie and bar layout code (hole size, text info, axis titles) is not modelled.

## Findings

| source | as written | input that shows it | evidently intended | confidence | as-written member | corrected member |
|---|---|---|---|---|---|---|
| pages/Dynamics_Dashboard.py:102-104 | the choropleth block indexes `classified_df['state_name']` outside the `if not potential_area.empty` guard, but `overall_growth` returns the column-less `pd.DataFrame()` when no mode is selected, so pandas raises a KeyError | no transaction mode selected in the classification multiselect | an empty map when no mode is selected | not executed | DynamicsDashboard.CategoryValuesAsWritten, DynamicsDashboard.CategoryValuesFailWithoutModes | DynamicsDashboard.CategoryValues |
| pages/Device_Dashboard.py:128 | the bar plot names the columns `state_name` and `reg_user` unguarded, but `mobile_wise_data` returns the column-less `pd.DataFrame()` when no brand is selected, so seaborn cannot find the columns and raises | no brand selected in the brand multiselect | an empty bar chart when no brand is selected | not executed | DeviceDashboard.ChartColumnsAsWritten, DeviceDashboard.MobileBarsFailWithoutBrands | DeviceDashboard.ChartColumns |
| pages/Device_Dashboard.py:162-163 | the donut reads `state_cat['brand']` and `state_cat['count']` unguarded, but `state_wise_data` returns the column-less `pd.DataFrame()` when no state is selected, so pandas raises a KeyError | some brand selected in the brand multiselect and no state selected in the state multiselect (with no brand selected, line 128 fails first) | an empty donut when no state is selected | not executed | DeviceDashboard.ChartColumnsAsWritten, DeviceDashboard.BrandShareFailsWithoutStates | DeviceDashboard.ChartColumns |
