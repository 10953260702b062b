# Surfactant foam database dashboard — a verified model of its data pipeline

The Surfactant-Database dashboard shows a literature table of foam experiments. Each row is
one observation: a study, six experimental conditions (gas, surfactant, surfactant
concentration, additive, additive concentration, liquid phase) and numeric measurements
such as a temperature or a foam half-life. Users tick checklists to filter the rows, pick
two or three measurement columns as axes, and get three things back:

- a 2D or 3D graph with one group of traces per study: points, lines, and polynomial,
  logarithmic, exponential or power-law fits;
- a table of the plotted columns;
- optionally, a second comparison panel with the same controls.

This project models three pieces of the dashboard:

- **Load-time preprocessing** (`app/initialize_data.py`). It drops empty rows, writes "None"
  into empty facet cells, builds the sorted option lists with "None" moved last, and
  colours each study.
- **Dashboard callbacks** (`app/home.py`):
  - the graph callbacks, which run filter → drop missing → sort → per-study gate →
    averaging → normalisation → traces → legend → table;
  - the Select All / Deselect All buttons;
  - the Show More and Compare containers;
  - the highlighting of the master table.
- **The earlier single-file dashboard** (`Scripts/app.py`). It has its own load step, six
  chained filters, first-seen option lists, graphs that drop any study with a missing
  value, and comparison tables.

Pure code is modelled as functions, with lemmas about them. Code that loops or updates
state is modelled as methods, each proved equal to a specification function:

- `Dataset.Store` is a class. Its constructor runs the load statements in order, and
  `AssignColors` is the colour-writing loop.
- The callbacks' study loops, the averaging loop, the coefficient-formatting loop, the
  in-place normalisation of an array, and the legacy "None" scans are `while`/`for` loops.

Numerical library calls become parameters of the model:

- `np.polyfit`, `np.linalg.lstsq` and `scipy`'s `curve_fit` form a `Solvers` record. The
  model assumes only that each returns one coefficient per model term.
- `np.log`, `np.exp` and `np.power` are passed in as `Numerics`.
- The Google-Sheets read becomes the `sheet` argument. The colour list becomes the
  `palette` argument.

Module layout, with each module in its own file:

| module | role |
|---|---|
| `Records` | rows, facets, selections |
| `Seqs`, `Ordering` | generic sequence lemmas |
| `Dataset` | load step and `Store` |
| `Filtering` | checklist filter, dropna, sort, axis table |
| `Aggregate` | Average Y-axis |
| `Normalize` | Normalize X/Y/Z |
| `Formatting` | coefficient rendering, R² |
| `Grids` | `linspace` |
| `Surfaces` | 3D polynomial fit |
| `Curves` | log/exp/power fits |
| `Traces` | the trace plan |
| `Callbacks` | the graph callbacks as statements |
| `Controls` | buttons and styles |
| `Legacy` | `Scripts/app.py` |

Three consequences of the code's statement order are worth knowing:

- **Normalised values lie in (0, 1].** Only exact zeros are lifted to 0.001, so a
  rescaled value such as 0.0001 stays below 0.001 and can fall below the lifted minimum
  (`Normalize.NormalizedCanInvertOrder`).
- **Averaging can undercut the "more than two rows" gate.** Average Y-axis runs after the
  gate, so a study can still be drawn with a single averaged point
  (`Aggregate.AveragingUndercutsGate`).
- **The legacy 3D graphs are drawn in table order.** Their `sort_values` runs after the
  trace is built, so only the legacy 2D graph is drawn in x order (`Legacy.PlottedRows`).

The graph callbacks are modelled as written: the cubic surface is fitted over the
design matrix that ends in z³, and the 3D polynomial and exponential labels print the
coefficients the way the code does. The bugs this exposes are listed under "## Findings".
Each finding also has a corrected member that proves the intended behaviour.

## Model

| member | source | states |
|---|---|---|
| Records.OrNone | app/initialize_data.py:32 | an empty facet cell reads "None"; a filled one reads its own text |
| Dataset.DropEmptyRows | app/initialize_data.py:25-31 | keeps exactly the sheet rows that have at least one filled cell |
| Dataset.DropEmptyRowsKeepsOrder | app/initialize_data.py:25-31 | dropping empty rows keeps the sheet's order: it acts on each part of a split sheet on its own |
| Dataset.FillRow | app/initialize_data.py:32 | every facet of the loaded row is the cell's text or "None"; measurements are untouched; the colour is the placeholder |
| Dataset.FillFacets | app/initialize_data.py:32 | one loaded row per kept row, in order, each filled as FillRow states, with the colour column set to "any" |
| Dataset.UniqueValues | app/initialize_data.py:34-40 | a facet's option list is strictly ascending (so duplicate-free) and holds exactly the values occurring in the column |
| Dataset.KeepNotNoneRemovesOne | app/initialize_data.py:43 | deleting "None" from a duplicate-free list removes exactly its one position |
| Dataset.NoneLastProperties | app/initialize_data.py:42-50 | moving "None" last keeps the same members and length; "None" ends the list when present; the rest stays ascending; the list is unchanged when "None" is absent |
| Dataset.ColorRowsByStudy | app/initialize_data.py:52-54 | a row of the i-th listed study gets the i-th palette colour, and nothing else in the row changes |
| Dataset.EveryRowColored | app/initialize_data.py:52-54 | when every study is listed, each row's colour is the palette entry at its study's position, shared by all rows of that study |
| Dataset.ColorRowsStep | app/initialize_data.py:53-54 | colouring by one more study is one more `dv.loc[dv.Study == s, 'Color'] = c` write |
| Dataset.Store.Load | app/initialize_data.py:22-54 | the seven option lists are the sorted unique values, with "None" last for the additive, additive concentration and liquid phase lists; the table is the prepared sheet coloured by study |
| Dataset.Store.AssignColors | app/initialize_data.py:52-54 | the loop leaves the table coloured by study, with colour i for study i |
| Filtering.FacetFilter | app/home.py:1074-1080 | one `isin` filter keeps exactly the rows whose facet value is ticked |
| Filtering.FilterChainIsOnePass | app/home.py:1074-1080 | the chained `isin` filters equal a single pass that keeps each row admitted by every facet, in table order |
| Filtering.FilterRowsIsOnePass | app/home.py:1074-1080 | the seven dashboard filters are one order-preserving pass |
| Filtering.FilterRowsSpec | app/home.py:1074-1080 | a row survives iff it is in the table and every facet admits it; filtering splits over concatenation; an empty checklist empties the result |
| Filtering.FilterRowsIdempotent | app/home.py:1074-1080 | filtering twice with the same checklists equals filtering once |
| Filtering.FilterRowsMonotone | app/home.py:1074-1080 | ticking fewer values never yields more rows |
| Filtering.DropMissing | app/home.py:1082 | `dropna(subset=axes)` keeps exactly the rows that have every axis value |
| Filtering.InsertBy | app/home.py:1084 | inserting into an x-sorted list keeps it sorted and adds exactly that row |
| Filtering.SortBy | app/home.py:1084 | `sort_values(by=x)` yields an x-ascending permutation of its input |
| Filtering.CleanedSpec | app/home.py:1074-1084 | the cleaned table holds exactly the admitted rows with every axis value, as a multiset equal to the filtered-then-dropped rows, sorted by x |
| Filtering.Project | app/home.py:1350 | a projected record has exactly the chosen columns the row has, with the row's values |
| Filtering.AxisTable | app/home.py:1350 | the returned table has the axis columns, one record per cleaned row, and each record holds exactly the axis values of its row |
| Aggregate.Cats | app/home.py:1770 | `np.unique` of the x column: strictly ascending, holding exactly the x values that occur |
| Aggregate.Group | app/home.py:1772 | the rows of one x value are exactly the rows at that x |
| Aggregate.MeanOfEqual | app/home.py:1793 | the mean of equal y values is that value |
| Aggregate.CollapseSpec | app/home.py:1773-1794 | a collapsed group is its first row with y replaced by the group mean; a facet that varies within the group reads "Refine Further"; study and colour are kept |
| Aggregate.CollapseAtX | app/home.py:1773 | the collapsed row sits at its group's x value |
| Aggregate.CollapseRows | app/home.py:1773-1794 | the statement sequence computes the collapsed row |
| Aggregate.Averaged | app/home.py:1769-1797 | averaging yields one row per distinct x value |
| Aggregate.AveragedAtCats | app/home.py:1769-1797 | the k-th averaged row sits at the k-th distinct x value |
| Aggregate.AveragedOnePerX | app/home.py:1769-1797 | averaged rows have strictly ascending x and exactly the x values of the input |
| Aggregate.AveragedIsCollapse | app/home.py:1771-1797 | the k-th averaged row is the collapse of the rows at the k-th x value |
| Aggregate.AveragedKeepsStudy | app/home.py:1769-1797 | averaging a study keeps both axes, the study name, and a colour taken from the study's rows |
| Aggregate.AverageY | app/home.py:1769-1797 | the remove-and-append loop over x values leaves exactly the averaged rows |
| Aggregate.AveragingUndercutsGate | app/home.py:1767-1797 | a study of three or more rows at one x value passes the gate and is plotted as a single point |
| Normalize.Min | app/home.py:1802 | `min` is a member of the column and a lower bound of it |
| Normalize.Max | app/home.py:1802 | `max` is a member of the column and an upper bound of it |
| Normalize.NormalizedConstant | app/home.py:1802-1803 | a constant column becomes all 0.5 |
| Normalize.NormalizedRange | app/home.py:1801-1806 | every normalised value lies in (0, 1] |
| Normalize.NormalizedEnds | app/home.py:1804-1806 | in a non-constant column the maximum maps to 1 and the minimum to 0.001 |
| Normalize.NormalizedMonotone | app/home.py:1804-1806 | normalisation keeps the strict order of any value above the minimum |
| Normalize.NormalizedCanInvertOrder | app/home.py:1804-1806 | [0, 1, 10000] normalises to [0.001, 0.0001, 1]: the lifted minimum lands above the next value |
| Normalize.Bounds | app/home.py:1802 | the scan over the array returns its minimum and maximum |
| Normalize.NormalizeInPlace | app/home.py:1801-1806 | the array is overwritten with the normalised column |
| Formatting.Classify | app/home.py:1178-1183 | a rendered coefficient keeps the coefficient's value |
| Formatting.ClassifyBands | app/home.py:1180 | a coefficient is rounded iff 0.000999 < abs(c) <= 10^4, otherwise scientific; the rule is symmetric in sign; the band edges fall as stated |
| Formatting.FormatCoefficients | app/home.py:1178-1183 | the `f_new` loop renders each coefficient in order, in scientific form exactly outside the band |
| Formatting.PolyValueMatchesLabels | app/home.py:1876-1886 | `poly1d` of 2, 3 or 4 coefficients is the polynomial its label prints |
| Formatting.RSquaredOf | app/home.py:1876-1888 | R² is "Non-Linear" exactly for orders 2 and 3; a linear R² value never exceeds 1 |
| Formatting.RSquaredPerfectFit | app/home.py:1879-1882 | a line through every point of a non-constant y gives R² = 1 |
| Formatting.RSquaredConstantY | app/home.py:1879-1882 | a constant y leaves R² undefined (0/0) |
| Grids.Linspace | app/home.py:1865 | `linspace` yields exactly n samples |
| Grids.LinspaceEnds | app/home.py:1865 | the samples start at a and end at b |
| Grids.LinspaceEven | app/home.py:1865 | consecutive samples are (b - a)/(n - 1) apart |
| Grids.LinspaceMonotone | app/home.py:1169 | the samples ascend when a <= b |
| Grids.LinspaceWithin | app/home.py:1169 | every sample lies between a and b |
| Grids.LinspaceFlat | app/home.py:1169 | a constant range samples one value n times |
| Surfaces.FitBasisAsWritten | app/home.py:1175-1215 | the design matrices have 3, 6 and 10 columns for orders 1, 2 and 3 |
| Surfaces.GridBasis | app/home.py:1191-1227 | the grid evaluation uses 3, 6 and 10 terms; the corrected design matrix uses the same terms |
| Surfaces.FitBasisAsWrittenMismatch | app/home.py:1213-1227 | orders 1 and 2 fit the terms the grid evaluates; order 3 does not, and the two disagree on a concrete surface |
| Surfaces.FitBasisMatchesGrid | app/home.py:1213-1227 | no grid term involves z, so a model fitted on the grid terms, at a data point, equals the drawn surface above that point |
| Surfaces.DesignMatrix | app/home.py:1175-1215 | one design row per point and one column per basis term |
| Surfaces.DesignMatrixIgnoresZ | app/home.py:1175-1215 | the corrected design matrix does not depend on the fitted z values |
| Surfaces.DesignMatrixAsWrittenReadsZ | app/home.py:1213-1215 | the cubic matrix as written has z³ as its last column: the fitted value is also an input |
| Surfaces.SurfaceGrid | app/home.py:1169-1227 | the surface is evaluated on a 20 by 20 grid |
| Surfaces.SurfaceGridCorners | app/home.py:1169-1227 | the grid corners are the surface at (min x, min y) and (max x, max y) |
| Surfaces.DisplayOrder | app/home.py:1188-1225 | the labels list the same terms the grid evaluates, in print order |
| Surfaces.SurfaceLabelAsWritten | app/home.py:1188-1225 | a label as written prints one term per coefficient |
| Surfaces.LabelSlots | app/home.py:1188-1225 | each printed term has a position in the grid basis holding that term |
| Surfaces.SurfaceLabel | app/home.py:1188-1225 | the corrected label prints one term per coefficient |
| Surfaces.SurfaceLabelLayout | app/home.py:1188-1225 | the corrected label pairs each printed term with the coefficient lstsq fitted for it |
| Surfaces.LinearLabelReadsSurface | app/home.py:1188-1191 | the plane's label as written reads the drawn plane |
| Surfaces.QuadraticLabelAsWrittenMisreads | app/home.py:1206-1209 | with only the constant non-zero, the quadratic label reads c·x² where the surface is flat at c |
| Surfaces.CubicLabelAsWrittenMisreads | app/home.py:1225-1227 | with only the constant non-zero, the cubic label reads c·x³ where the surface is flat at c |
| Surfaces.PolyLabelAsWrittenReads | app/home.py:1188-1227 | the plane's label as written reads the surface; with only the constant non-zero, the quadratic and cubic labels read c·x² and c·x³ over a surface flat at c |
| Surfaces.LabelsAsWrittenAtOrigin | app/home.py:1206-1227 | at the origin both misread labels give 0 where the drawn surface is 1 |
| Surfaces.SurfaceLabelReadsSurface | app/home.py:1188-1227 | the corrected label of every order reads the drawn surface at every point |
| Curves.Rate | app/home.py:1932-1933 | the exponential model negates its fitted rate; the other families use it as fitted |
| Curves.Rendered | app/home.py:1940-1945 | one rendered number per fitted parameter, each with that parameter's value |
| Curves.LabelAsWritten | app/home.py:1948 | a label as written prints as many numbers as there are fitted parameters |
| Curves.FitLabel | app/home.py:1948 | the corrected 2D label prints three numbers |
| Curves.FitSurfaceLabel | app/home.py:1307 | the corrected 3D label prints four numbers |
| Curves.LabelAsWrittenAgrees | app/home.py:1897-1980 | the log and power labels as written already print the model's parameters |
| Curves.SurfaceLabelAsWrittenAgrees | app/home.py:1236-1348 | the 3D log and power labels as written already print the model's parameters |
| Curves.FitSurfaceLabelAsWrittenReads | app/home.py:1236-1348 | the 3D label as written reads the surface for log and power; for exp on a surface flat in y it reads it iff b·x is zero |
| Curves.ExpLabelAsWrittenMisreads | app/home.py:1932-1948 | the exponential label as written reads the drawn curve at x iff b·x = 0 |
| Curves.ExpSurfaceLabelAsWrittenMisreads | app/home.py:1280-1307 | the 3D exponential label as written, on a surface flat in y, reads the surface iff b·x = 0 |
| Curves.FitLabelReadsCurve | app/home.py:1897-1980 | the corrected 2D label of every family reads the fitted curve at every x |
| Curves.FitSurfaceLabelReadsSurface | app/home.py:1236-1348 | the corrected 3D label of every family reads the fitted surface everywhere |
| Traces.FirstIn | app/home.py:1157-1162 | the first listed option that is selected, or none exactly when no listed option is |
| Traces.LegendIsFirstSelected | app/home.py:1157-1316 | a fit trace shows its legend iff its option is the first selected among Scatter, Poly, Log, Exp, Power; Line does not affect it |
| Traces.StudyRows | app/home.py:1089 | a study's rows are exactly the cleaned rows of that study |
| Traces.AveragedComplete | app/home.py:1769-1797 | averaging a complete, non-empty study keeps it complete, non-empty and of that study |
| Traces.PlotRows | app/home.py:1767-1797 | the plotted rows are non-empty, complete and of the study; they are the study's rows unless 2D averaging applies |
| Traces.AxisValues | app/home.py:1092-1114 | one axis value per plotted row |
| Traces.PointTraces | app/home.py:1118-1155 | one point trace iff Scatter or Line is selected; it carries the study's name, colour and rows, and always shows its legend |
| Traces.PolyCurveShape | app/home.py:1856-1874 | a 2D polynomial is drawn at 1000 points |
| Traces.PolySurfaceShape | app/home.py:1166-1229 | a 3D polynomial is drawn on the 20 by 20 grid, with one label term per grid monomial |
| Traces.PolySurfaceCoefficients | app/home.py:1175-1216 | `lstsq` over the design matrix as written gives one coefficient per grid monomial |
| Traces.PolySurfaceShapeParts | app/home.py:1166-1229 | the drawn polynomial prints the label as written and draws the grid monomials with the fitted coefficients |
| Traces.FitCurveShape | app/home.py:1897-1980 | a 2D log/exp/power fit is drawn at 1000 points, of its family |
| Traces.FitSurfaceShape | app/home.py:1236-1348 | a 3D fit is drawn on the 20 by 20 grid, of its family |
| Traces.FitSurfaceShapeParts | app/home.py:1236-1348 | the drawn 3D fit prints the parameters as fitted and draws the fitted surface at each grid point |
| Traces.PolyTrace | app/home.py:1157-1234 | the poly trace carries the study's name, colour and given legend flag |
| Traces.FitTrace | app/home.py:1236-1348 | a family's trace carries the study's name, colour and given legend flag |
| Traces.FitPiece | app/home.py:1157-1348 | a fit option contributes one trace iff it is selected |
| Traces.FitPieceLegend | app/home.py:1157-1348 | that trace shows its legend iff its option is the first selected in precedence order |
| Traces.FitTraces | app/home.py:1157-1348 | every fit trace belongs to the study, in its colour, and is not a point trace |
| Traces.FitTracesRun | app/home.py:1157-1348 | the fit traces are exactly the selected fits, each once, in the order Poly, Log, Exp, Power, with legends as above |
| Traces.StudyTraces | app/home.py:1091-1348 | every trace of a study is named after it, coloured from its rows, and plots only its rows |
| Traces.StudyTracesRun | app/home.py:1091-1348 | a study's traces are exactly the drawn options, the point trace first, with legends as above |
| Traces.OneLegendPerStudy | app/home.py:1118-1316 | a study shows at most one legend entry besides a leading Line trace, and the first selected option's trace shows it |
| Traces.PlanStudies | app/home.py:1088-1091 | every trace belongs to a listed study with more than two cleaned rows and takes its colour from them |
| Traces.PlanOrder | app/home.py:1088 | traces appear in the order of the study list |
| Traces.FitCurveLabelReadsTrace | app/home.py:1897-1980 | a drawn 2D fit's label prints the fitted parameters; for Log-Fit and Power-Fit it reads every drawn point; for Exp-Fit it reads a point iff the rate times x is zero |
| Traces.FitSurfaceLabelReadsTrace | app/home.py:1236-1348 | a drawn 3D fit's label reads every grid point for Log-Fit and Power-Fit; for Exp-Fit on a surface flat in y it reads a grid point iff b·x is zero |
| Traces.PolySurfaceLabelReadsTrace | app/home.py:1166-1229 | a drawn plane's label reads every grid point; with only the constant fitted non-zero, the order-2 and order-3 labels read c·x² and c·x³ over a surface flat at c |
| Callbacks.NormalizeColumn | app/home.py:1801-1806 | normalising an axis array in place gives the normalised column |
| Callbacks.BuildStudyTraces | app/home.py:1767-1995 | the loop body for a gated study appends exactly the study's planned traces |
| Callbacks.AppendPointTrace | app/home.py:1118-1155 | the Scatter/Line block appends exactly the point traces |
| Callbacks.AppendPolyTrace | app/home.py:1157-1234 | the Poly-Fit block appends exactly the poly piece |
| Callbacks.AppendFamilyTrace | app/home.py:1236-1348 | a Log/Exp/Power block appends exactly that family's piece |
| Callbacks.AppendFamilyTraces | app/home.py:1236-1348 | the Log, Exp and Power blocks append exactly those three pieces, in that order |
| Callbacks.AppendFitTraces | app/home.py:1157-1348 | the four fit blocks append exactly the fit traces |
| Callbacks.UpdateComp1Graph | app/home.py:1073-1393 | the figure is the plan over the cleaned rows; the legend is horizontal iff comparing; the table is the axis columns of the cleaned rows |
| Callbacks.UpdateComp2Graph | app/home.py:1414-1428 | no figure and an empty table when not comparing; otherwise the comp1 result with a horizontal legend |
| Controls.SelectDeselect | app/home.py:764-998 | Select All gives every option's value, Deselect All gives nothing, any other trigger keeps the current value |
| Controls.SelectAndDeselectDiffer | app/home.py:771-779 | a checklist's two buttons report different ids |
| Controls.SelectAllRestoresOptions | app/home.py:771-779 | Select All on a checklist built from a list restores exactly that list |
| Controls.SelectDeselectIdempotent | app/home.py:764-998 | a second press of the same button changes nothing |
| Controls.FacetOptionsCover | app/home.py:129-130 | every row's facet value is among that facet's options |
| Controls.StoreOptionsAreFacetOptions | app/initialize_data.py:34-50 | the loaded option lists are the facet options of the prepared sheet |
| Controls.FullSelectionKeepsTable | app/home.py:129-268 | with every checklist at its initial value (all options), the filter keeps the whole table in order |
| Controls.SelectAllKeepsTable | app/home.py:764-998 | Select All on all seven checklists keeps the whole table |
| Controls.ColorRowsKeepsOptions | app/initialize_data.py:52-54 | colouring changes no facet's option list |
| Controls.SelectAllKeepsLoadedTable | app/home.py:764-998 | Select All everywhere keeps the whole loaded, coloured table |
| Controls.FacetIndex | app/home.py:1074-1080 | every facet has its place in the filter chain |
| Controls.PlanOfNothing | app/home.py:1088-1091 | no study passes the gate over an empty table |
| Controls.DeselectAllClearsGraph | app/home.py:764-1091 | Deselect All on any one checklist empties the cleaned table, so nothing is drawn |
| Controls.ShowMoreStyle | app/home.py:744-762 | the extra controls are visible iff the toggle reads "Show More" |
| Controls.CompareStyles | app/home.py:1002-1024 | the compare callback styles six components |
| Controls.SecondPanelShownWhenComparing | app/home.py:1002-1024 | each of the six is visible iff the radio reads "Compare" |
| Controls.Highlighted | app/home.py:1026-1052 | at most one highlighted column per style rule |
| Controls.MasterTableHighlightsAxes | app/home.py:1026-1052 | the master table stripes odd rows first and highlights exactly x, y and z, in that order |
| Legacy.LoadLegacy | Scripts/app.py:48-56 | every legacy row is a non-empty sheet row with empty cells read as "None"; no rows are added |
| Legacy.LoadLegacyIsPrepare | Scripts/app.py:48-56 | the legacy load gives the same rows as the dashboard's preparation |
| Legacy.FirstSeen | Scripts/app.py:98-99 | `dict.fromkeys` options are duplicate-free and hold exactly the column's values |
| Legacy.LegacyFilter | Scripts/app.py:400-406 | the six chained filters keep exactly the rows every condition facet admits |
| Legacy.LegacyFilterKeepsOrder | Scripts/app.py:400-406 | the legacy filter keeps table order |
| Legacy.DashboardFilterExtendsLegacy | Scripts/app.py:400-406 | the dashboard filter is its study filter followed by the legacy filter |
| Legacy.LegacyDefaultsKeepTable | Scripts/app.py:98-159 | with the initial all-ticked checklists the legacy filter keeps the whole table |
| Legacy.ScanForNone | Scripts/app.py:466-469 | the scan reports a "None" iff some row misses the column |
| Legacy.ScanStudy | Scripts/app.py:463-477 | the x, y (and z) scans flag a study iff some row misses an axis |
| Legacy.UpdateLegacyGraph | Scripts/app.py:451-483 | the loop returns the legacy plan over the filtered rows and the first-seen studies |
| Legacy.TraceNames | Scripts/app.py:461-483 | one name per trace |
| Legacy.LegacyPlanNames | Scripts/app.py:463-483 | traces are named, in order, exactly after the listed studies whose filtered rows are all complete |
| Legacy.PlottedRowsSpec | Scripts/app.py:478-479 | the rows a drawn trace plots are a permutation of its study's rows, all complete, ascending by x in 2D and untouched in 3D |
| Legacy.LegacyPlanPoints | Scripts/app.py:478-559 | each trace plots a permutation of its study's filtered rows, all complete; sorted by x in 2D; in table order in 3D |
| Legacy.LegacyDrawsEmptyStudy | Scripts/app.py:463-483 | a study with no filtered rows is still drawn, as an empty trace |
| Legacy.LegacyDropsWholeStudy | Scripts/app.py:463-477 | one missing axis value drops the whole study |
| Legacy.LegacyAxisTable | Scripts/app.py:653-670 | the comparison table has the sheet's axis columns in sheet order and one record per complete filtered row, in order, holding that row's value in each column |
| Legacy.LegacyTableKeepsRowsOfDroppedStudies | Scripts/app.py:661-663 | the table lists complete rows of a study the graph drops |
| Legacy.DisplayPage | Scripts/app.py:374-378 | the about page is served iff the path is "/about" |
| Legacy.LegacyShowMoreStyle | Scripts/app.py:384-388 | the legacy extra controls are visible iff "Show More" is chosen, at max-height 500 |

## Left out

- Reading the Google sheet (gspread, credentials) and the colour module: they are I/O, so the sheet and the palette are parameters.
- Dataset.Store.Load: a palette shorter than the study list makes the source raise `IndexError`; the model requires a palette long enough.
- The `Unnamed` column drop at load: a spreadsheet artefact with no effect on the modelled columns.
- Numerical solvers (`polyfit`, `lstsq`, `curve_fit`) and `log`/`exp`/`power`: floating-point library code, passed in as parameters. An uncaught `curve_fit` failure is not modelled.
- Floating point: reals stand in for floats.
- Formatting.Classify: records which band a number falls into, not the digits `format(num, '.3e')` or `np.round(num, 3)` print.
- Formatting.RSquaredOf: the rounding of R² to three places is not modelled.
- Trimming of leading zero coefficients by `poly1d`: not modelled.
- The integer dtype that `np.full_like` keeps for an integer column: not modelled.
- Order values outside 1..3: not modelled.
- The 3D labels' "y =" prefix: not modelled.
- The `UnboundLocalError` of `legend_orientation` for a radio value other than the two choices: not modelled.
- Normalize.NormalizedMonotone: holds only for values above the column minimum, because the source lifts zeros (see Normalize.NormalizedCanInvertOrder).
- Filtering.SortBy: promises a sorted permutation, not a particular order of rows with equal x. pandas' default quicksort is not stable, so tie order is unspecified.
- Callbacks.UpdateComp1Graph: models the comp1 2D and 3D callbacks as one method, with the axes deciding which; the comp2 callbacks are handled the same way.
- Plotly layout, hover text, `hovertemplate` strings, marker sizes, opacities and heights: presentation only.
- Controls.SelectDeselect: `dash.callback_context` is modelled as the `changedId` parameter.
- The Dash app, router and about page (`app/app.py`, `app/index.py`, `app/pages/about.py`): not part of this model, apart from Legacy.DisplayPage.
- The legacy "today" date string: not modelled.
- The unused legacy Color column: not modelled.

## Findings

| source | as written | input that shows it | evidently intended | confidence | as-written member | corrected member |
|---|---|---|---|---|---|---|
| app/home.py:1213-1215 | the cubic design matrix's last column is `z³`, the fitted value itself, while the grid evaluation at 1227 uses `y³` | order 3, coefficients (0, …, 0, 1) at x = 0, y = 1, z = 0: the fitted model gives 0 and the drawn surface gives 1 | last column `y³` | high; not executed | Surfaces.DesignMatrixAsWrittenReadsZ, Surfaces.FitBasisAsWrittenMismatch | Surfaces.FitBasisMatchesGrid |
| app/home.py:1206 | the quadratic label prints C[0] (the constant) as the x² coefficient, and so on | C = (1, 0, 0, 0, 0, 0): the label reads x², the surface is 1 | each coefficient printed beside its own term | high; not executed | Surfaces.QuadraticLabelAsWrittenMisreads | Surfaces.SurfaceLabelReadsSurface |
| app/home.py:1225 | the cubic label prints C[0] (the constant) as the x³ coefficient, and so on | C = (1, 0, …, 0): the label reads x³, the surface is 1 | each coefficient printed beside its own term | high; not executed | Surfaces.CubicLabelAsWrittenMisreads | Surfaces.SurfaceLabelReadsSurface |
| app/home.py:1948 | the 2D exponential label prints `e^(b·x)` for the model `a·e^(−b·x) + c` | a = 1, b = 1, c = 0 at x = 1: the label reads e, the curve is 1/e | print −b as the rate | high; not executed | Curves.ExpLabelAsWrittenMisreads | Curves.FitLabelReadsCurve |
| app/home.py:1307 | the 3D exponential label prints `e^(b·x)·e^(c·y)` for the model `a·e^(−b·x)·e^(−c·y) + d` | a = 1, b = 1, c = 0, d = 0 at x = 1: the label reads e, the surface is 1/e | print −b and −c as the rates | high; not executed | Curves.ExpSurfaceLabelAsWrittenMisreads | Curves.FitSurfaceLabelReadsSurface |
