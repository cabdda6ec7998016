# Sanitation-disease dashboard: the startup data pipeline and the theme callbacks

This project models the part of `app.py` that does real work. The dashboard
fetches disease-incidence figures from the IBGE SIDRA API (table 354) and
loads a GeoJSON boundary document of the Brazilian states. It reshapes the
figures with pandas, joins them with the states' two-letter codes, and shows
them in a histogram, a data table and a choropleth map.

The model covers the data pipeline that runs once at startup (app.py:19-76):

1. **Header promotion.** Row 0 of the payload becomes the column labels.
2. **Relabelling.** "Doença do aparelho respiratório" becomes "DAR*".
3. **Sentinel filter.** The "Total" and "Total geral de municípios" rows are removed.
4. **Sort.** Rows are sorted by "Tipo de doença".
5. **Projection.** Six columns are kept, giving `novo_df`.
6. **Candidate set.** The region names left after removing the country and the five macro-regions.
7. **Feature loop.** It builds the (ID, Nome) table `df_estados`.
8. **Join.** A left merge, `dropna`, renaming and dropping of columns.
9. **Coercion.** "Valor" is coerced to integers, giving `df_final`.

It also models the logic inside the callbacks. That covers the icon toggle,
the stylesheet choice and the process-global `theme_changed` flag. The flag
follows the parity of the icon's click count. It also covers the row
filters that feed the table, the histogram and the map.

Layout:

- `wrappers.dfy` holds `Option` and `Result`.
- `cells.dfy` holds the frame cell (`Missing`, `Str`, `Num`), the error kinds and the integer coercion.
- `frame.dfy` holds the generic frame operations: building the frame from the payload, header promotion, column lookup, `replace`, the `~isin` filter, and `sort_values` with its order.
- `normalize.dfy` holds the projection and the whole normalisation stage.
- `geojoin.dfy` holds the candidate set, the feature loop (a method with a loop), the merge, `dropna`, the renaming, the coercion and the join stage.
- `startup.dfy` holds the script as one method, proved equal to the composed stages.
- `callbacks.dfy` holds the callbacks. The running dashboard is a class with the mutable `theme_changed` field.

Behaviour of app.py worth noting:

- Only `df_final["Valor"]` is coerced to integers (app.py:75-76). `novo_df` keeps the raw "Valor" texts.
- The candidate names come from `novo_df`, so the sentinel filter has already run. The column assignment at app.py:45 aligns on the index: the filtered-out rows get NaN, which never equals a feature name. So the candidate set is exactly `novo_df`'s region names minus the six country and macro-region names.
- `sort_values` uses pandas' default quicksort, which promises no order among equal keys.
- A payload whose header has only "Tipo de doença", "Valor", "Ano" and "Brasil, Grande Região e UF" does not normalise. The projection also names "Nível Territorial" and "Tipo de doença (Código)", so it raises KeyError.
- Negative literals such as "-5" coerce to negative integers.
- When no feature matches, `df_estados` has no columns and the merge on "Nome" raises. The model returns `EmptyFeatureTable`.

## Model

| member | source | states |
|---|---|---|
| `Cells.Coerce` | app.py:75-76 | "-" becomes 0. An integer literal (optional sign, digits) within int64 becomes its value. A missing value, any other text and an out-of-range value are errors. Success holds exactly in those cases. |
| `Cells.ReplaceDash` | app.py:75 | The placeholder "-" becomes the integer 0. Every other cell is unchanged. |
| `Cells.ParseIntToString` | app.py:76 | Every int64 written in decimal is an integer literal and coerces back to itself. |
| `Frame.Width` | app.py:19 | The frame is as wide as the longest payload row: no row is longer, and a non-empty payload has a row that long. |
| `Frame.PromoteHeader` | app.py:19-22 | Fails exactly on an empty payload. Otherwise the labels are row 0 and the data rows are payload rows 1..n-1 in order, one fewer than the payload. The frame is as wide as the longest payload row. Short rows are padded with missing cells, so the frame is rectangular. |
| `Frame.ColumnIndex` | app.py:24 | Returns the position of the only column with that label. Absent label: MissingColumn. Repeated label: DuplicateColumn. |
| `Frame.Replace` | app.py:24-26 | In the chosen column every cell equal to the old label becomes the new one. Every other cell, column and row is unchanged. Afterwards the old label no longer occurs in that column. |
| `Frame.DropWhereIn` | app.py:28 | No surviving row has a sentinel label in the column. Every other row survives as often as it occurred. |
| `Frame.StrLeTotal` | app.py:30 | Python's string order (by code point) is total. |
| `Frame.StrLeTransitive` | app.py:30 | Python's string order is transitive. |
| `Frame.KeyLeTotal` | app.py:30 | The sort order on cells, with missing values last, is total. |
| `Frame.KeyLeTransitive` | app.py:30 | The sort order on cells is transitive. |
| `Frame.InsertSorted` | app.py:30 | Inserting into a sorted frame keeps it sorted and adds exactly that row. |
| `Frame.SortRows` | app.py:30 | The sorted rows are in ascending order of the key column and are a permutation of the input. |
| `Normalization.Locate` | app.py:32-41 | Succeeds exactly when each of the six labels occurs once. Otherwise it returns the error of a label that is missing or repeated. |
| `Normalization.Project` | app.py:32-41 | There is one record per row, in order. Each field is the row's cell under the column of that name. Fails exactly when one of the six columns is missing or repeated. |
| `Normalization.Normalize` | app.py:19-41 | Normalisation succeeds exactly when the payload is non-empty and its header has each of the six columns once. An empty payload gives EmptyPayload. Any other failure is the error of a column that is missing or repeated. What it produces is stated by `Normalization.NormalizeSpec`. |
| `Normalization.ColumnErrorFails` | app.py:32-41 | A header that lacks or repeats any one of the six columns makes normalisation fail. |
| `Normalization.ToRecordsPermutation` | app.py:30-41 | Projecting two permutations of the same rows gives permutations of the same records. |
| `Normalization.NormalizeSpec` | app.py:19-41 | `novo_df` has no "Total" or "Total geral de municípios" row and no long respiratory label. It is in ascending order of disease type. It is a permutation of the projected, relabelled and filtered data rows. |
| `Normalization.FourColumnPayloadFails` | app.py:32-41 | A payload whose header has only the four columns "Tipo de doença", "Valor", "Ano" and "Brasil, Grande Região e UF" fails to normalise. |
| `GeoJoin.Candidates` | app.py:44-48 | A name is a candidate exactly when some `novo_df` row has it as its region and it is not "Brasil", "Norte", "Nordeste", "Sudeste", "Sul" or "Centro-Oeste". |
| `GeoJoin.SelectFeatures` | app.py:50-55 | A feature is in the table exactly when it is in the document and its name is a candidate. |
| `GeoJoin.SelectFeaturesAppend` | app.py:51-55 | Selecting from two stretches of the document gives the selection of each, in document order. |
| `GeoJoin.BuildFeatureTable` | app.py:50-57 | The loop over the document's features builds exactly the candidate features, in document order. |
| `GeoJoin.LeftMerge` | app.py:59-65 | Every `novo_df` row is kept. Each merged row pairs a `novo_df` row with a table row whose Nome is its region, or with nothing when no Nome is its region. |
| `GeoJoin.Matches` | app.py:59-65 | The table rows a `novo_df` row matches are those whose Nome equals its region, each as often as in the table. |
| `GeoJoin.DropUnmatched` | app.py:67 | `dropna` on "Nome" keeps exactly the merged rows that found a match. |
| `GeoJoin.LeftMergeThenDropIsInner` | app.py:59-67 | A left merge followed by that `dropna` equals the inner join. |
| `GeoJoin.InnerMergeMembers` | app.py:59-67 | Every joined row pairs a `novo_df` row with a table row whose Nome is its region. |
| `GeoJoin.InnerMergeCount` | app.py:59-67 | A pair whose names agree occurs as often as its `novo_df` row occurs times as often as its table row occurs. No other pair and no unmatched row occurs. |
| `GeoJoin.MatchedRows` | app.py:59-67 | A `novo_df` row is matched exactly when some table row's Nome is its region. Each matched row is kept as often as it occurs in `novo_df`; no other row is kept. |
| `GeoJoin.AtMostOneMatch` | app.py:59-65 | When no two table rows share a Nome, a row matches at most one of them. |
| `GeoJoin.InnerMergeSize` | app.py:59-67 | When no two table rows share a Nome, the join has exactly one row per matched `novo_df` row. |
| `GeoJoin.Reshape` | app.py:68-74 | There is one row per matched merge row. UF and Estados are the matched ID and Nome. Disease, value and year come from the `novo_df` row. Level, code and region are dropped. |
| `GeoJoin.CoerceValues` | app.py:75-76 | Succeeds exactly when every "Valor" coerces. Each row's value is then the coerced value and every other field is unchanged. On failure the error is that of a failing row. |
| `GeoJoin.Join` | app.py:44-76 | Fails with EmptyFeatureTable when no feature is a candidate. Otherwise it fails exactly when some matched `novo_df` row has a value that does not coerce, and the error is that of such a row. On success `df_estados` is the non-empty candidate selection. |
| `GeoJoin.JoinSpec` | app.py:44-76 | `df_estados` is the candidate selection. Row i of `df_final` is the i-th inner-join pair, renamed and reduced, with its value coerced. Each row's (UF, Estados) is a document feature, and Estados is never the country or a macro-region. Its disease, year and value come from a `novo_df` row of that state. |
| `GeoJoin.FinalRowOrigin` | app.py:44-76 | Each `df_final` row comes from a candidate feature and a `novo_df` row of that state, with the same disease and year and the coerced value. |
| `Startup.Pipeline` | app.py:19-76 | An empty payload is refused. A successful start holds the non-empty table of candidate features. The rest of what startup promises is stated by `Startup.PipelineSpec`. |
| `Startup.Run` | app.py:19-76 | The step-by-step script computes exactly the composed normalisation and join. |
| `Startup.PipelineSpec` | app.py:19-76 | After startup, `novo_df` has no aggregate row and is sorted by disease type. No `df_final` row names the country or a macro-region, and each comes from a feature and a `novo_df` row. Row i of `df_final` is the i-th inner-join pair, renamed and coerced. With distinct feature names there is one row per matched `novo_df` row. |
| `Callbacks.ToggleTheme` | app.py:163-167 | The result is always one of the two icons. It is the night icon exactly when the current icon is the light one. |
| `Callbacks.UpdateCss` | app.py:174-176 | The result is always one of the two stylesheets. It is the light one exactly when the current icon is the light one. |
| `Callbacks.NextThemeChanged` | app.py:196-201 | With no clicks the flag is unchanged. Otherwise it is true exactly when the count is odd. |
| `Callbacks.Template` | app.py:203 | The figure template is "plotly_dark" exactly when the flag is set, and "plotly" otherwise. |
| `Callbacks.RowsOfRegionSorted` | app.py:180 | The mask keeps `novo_df`'s order: when `novo_df` is sorted by disease type, so are the rows of any region. |
| `Callbacks.RowsOfRegion` | app.py:180 | Returns the `novo_df` rows of the chosen region, each as often as it occurs in `novo_df`, and no other row. It is empty when the dropdown is cleared. |
| `Callbacks.UpdateTable` | app.py:178-185 | Record i is the disease, level, cases and year of the i-th row of the chosen region. There are none when the dropdown is cleared. |
| `Callbacks.UpdateTableSorted` | app.py:178-185 | When `novo_df` is sorted by disease type, the data table lists its records in ascending disease order. |
| `Callbacks.RowsOfDisease` | app.py:220 | Returns the `df_final` rows of the chosen disease, each as often as it occurs in `df_final`, and no other row. |
| `Callbacks.Dashboard.constructor` | app.py:188 | The flag starts false. The startup tables are held unchanged. |
| `Callbacks.Dashboard.UpdateHistogram` | app.py:194-207 | Updates the flag from the click count. Picks the template from the new flag. Plots the rows of the chosen region. |
| `Callbacks.Dashboard.UpdateMap` | app.py:212-236 | Updates the flag from the click count. Picks the template from the new flag. Colours the rows of the chosen disease. |
| `Callbacks.Dashboard.Load` | app.py:188-222 | A page load runs every callback with no clicks. The icon and stylesheet come from the layout's light icon. The figures keep the flag the process already held. |
| `Callbacks.Dashboard.ClickIcon` | app.py:158-222 | A click gives the next screen of the session model, and the process flag becomes that screen's flag. |
| `Callbacks.ThemeAfterClicks` | app.py:158-218 | Within one session the stylesheet and icon follow the parity of the clicks. The figures follow it once the icon has been clicked. On the page load they keep the process flag. |
| `Callbacks.ThemeStaysConsistent` | app.py:158-218 | After a page load and k clicks, the figures, stylesheet and icon agree exactly when k > 0 or the process flag was clear at the load. |
| `Callbacks.StaleThemeAfterReload` | app.py:188-222 | After one click in a first session, a later page load draws dark figures beside the light stylesheet and the night icon. |
| `Callbacks.TemplateOf` | app.py:169-176 | The template taken from the icon's src is light exactly when `update_css` picks the light stylesheet. |
| `Callbacks.SessionThemeConsistent` | app.py:158-222 | With the template taken from the src, every session is consistent after any number of clicks. The figures are dark exactly after an odd number. |

## Findings

| source | as written | input that shows it | evidently intended | confidence | as-written member | corrected member |
|---|---|---|---|---|---|---|
| app.py:188-222 | `theme_changed` is one process-global flag. A page load runs the figure callbacks with `n_clicks` None, which leaves the flag as it was. | One session clicks the icon once (dark theme). A second browser then opens the page, or the first reloads. | The figures of a session follow that session's theme, as `update_css` does from the `src` it reads. | not executed; relies on Dash running every callback once at page load, its default | `Callbacks.StaleThemeAfterReload` | `Callbacks.SessionThemeConsistent` |

The `Dashboard` class and `Callbacks.AfterClicks` keep the behaviour as written, so the rest of the model describes the program as it runs. The corrected page is `Callbacks.SessionAfterClicks`, whose figures take their template from `Callbacks.TemplateOf`.

## Left out

- The HTTP request (app.py:17-18) and reading and parsing `brasil_estados.json` (app.py:14-15) are I/O. The payload comes in as rows of strings and the document as (id, name) pairs.
- Payload values other than strings, such as JSON numbers or null, are not modelled. Neither are features lacking `properties.name`, which raise KeyError at app.py:52, nor candidate features lacking `id`, which raise KeyError at app.py:54.
- The Dash layout, dropdown options, callback registration and wiring (app.py:79-156) are UI.
- The Plotly figures, including the histogram, the choropleth and its `range_color` minimum and maximum, are foreign plotting calls. Only the rows and template handed to them are modelled.
- `waitress.serve` (app.py:239-240) is network serving. So is the possibility that the server runs callbacks on several threads at once against the shared `theme_changed` flag.
- The DataFrame index labels are not modelled; rows are positional. The merge renumbers rows, and the alignment at app.py:45 is equivalent to taking the names from `novo_df`.
- Frame.ColumnIndex: a header that repeats a label the script names is refused with DuplicateColumn. pandas keeps both copies in some steps, such as the projection, and raises in others, such as `sort_values`.
- Frame.SortRows: pandas' quicksort may leave rows with equal keys in any order. The model fixes one order (stable insertion). Only sortedness and permutation are claimed.
- Cells.Coerce: the range is int64, the default integer of NumPy on 64-bit Linux and macOS, and on every 64-bit platform from NumPy 2. Where NumPy's default integer is int32 (Windows with NumPy before 2, or a 32-bit platform), values outside the int32 range would overflow; the model does not cover that platform.
- Cells.Coerce: Python's `int()` also accepts surrounding whitespace, `_` between digits and non-ASCII decimal digits. The model treats such texts as errors.
- Startup.Run: `dropna` and `rename` work in place, and the column assignments reassign. The model rebinds local variables to new values, so aliasing between frames is not modelled.
- The exact pandas exception type (KeyError, ValueError, OverflowError) is abstracted into the `Error` kinds.
