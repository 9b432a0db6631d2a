# Provider density and population: a Dafny model

This project models the analysis code of a study on healthcare-provider
density in Israel. The code cleans a table of clinic and provider records. It
computes providers per N insured people, optionally for one health fund (kupat
holim), for some specialties and for some service types. It counts distinct
providers per local authority and joins those counts with the authorities'
population figures for a correlation plot.

The constants, the cleaner, the ratio, the per-authority count, the join and
the defaulting of the plot's labels are pure computation. They are modelled
as functions over sequences, sets and maps, with lemmas about those
functions. Drawing the plot is not pure: `gen_correlation_plot` creates a
figure and changes its axes. Only its label defaulting is modelled, and the
plot is described by a value. The modules:

- `population.dfy` (module `Population`): the 2022 reference constants. The
  national population, the insured total, the four funds' enrollment shares,
  and the map from fund name to estimated enrollees. They are exact `real`s.
- `clinics.dfy` (module `ClinicData`): the clinics-table cleaner and the
  providers-per-amount ratio.
  - A table is a `seq<ClinicRow>`.
  - Deduplication is a recursive left-to-right scan that keeps the first row
    of each key and remembers the keys already seen. It is proved equal to
    `FirstOccurrences`, a reference definition by row index of pandas'
    `~duplicated(keep="first")` mask.
  - The mode string selects the key: 3 columns for "tight", 21 for "soft".
  - An unknown health fund gives `Err(KeyError(..))`, like the source's
    dictionary lookup.
- `authorities.dfy` (module `AuthorityAnalysis`): the filter and group-by
  count per city, the inner join with the local-authority table, the defaults
  for the plot's labels, and the composed analysis. The plot is a value: its
  points, labels and whether the correlation is shown. Nothing is drawn.
- `tables.dfy` (module `Tables`): what boolean-mask row selection does.
  - `Where` keeps the rows that satisfy a predicate, in order.
  - `IsSubsequence` is the subsequence relation.
  - `FirstOccurrencesBy` is the keep-first mask by element index for any
    key function, with the lemma that splits it at the head.
  - Lemmas cover composing filters and the cardinality of images.
- `wrappers.dfy` (module `Wrappers`): `Option` (Python's `None`) and `Result`.

Details of the code that the model keeps:

- The strictness argument is a free string. Only the exact string `"soft"`
  selects the 21-column key; every other string selects the 3-column key
  (`ClinicData.ModeOf`).
- The soft key reads `hmo_desc`, while the ratio's fund filter reads the
  separate `kupa` column. `ClinicRow` keeps both.
- The population constants are global class attributes in the code. The
  model keeps them as module constants, not as a parameter.
- Python's default arguments are Dafny default parameter values: the
  strictness defaults to `"soft"`, `amount` to 1000, `print_corr` to true, and
  every optional filter and label to `None`.

## Model

| member | source | states |
|---|---|---|
| `Population.ShareOf` | files_n__notebooks_for_paper/constants.py:8-21 | each fund's entry in the map is its enrollment share times the insured total, and that share is strictly between 0 and 1 |
| `Population.KupotAreTheFourFunds` | files_n__notebooks_for_paper/constants.py:17-22 | the fund map has exactly four keys: כללית, מכבי, לאומית, מאוחדת |
| `Population.SharesSumToOne` | files_n__notebooks_for_paper/constants.py:8-11 | in exact arithmetic the four shares sum to 1 |
| `Population.FundTotalsSumToInsured` | files_n__notebooks_for_paper/constants.py:12-15 | the four fund totals add up to the national insured total |
| `Population.FundTotalsInRange` | files_n__notebooks_for_paper/constants.py:8-15 | every fund total is positive and below the insured total, so it is never a zero denominator |
| `Population.InsuredWithinPopulation` | files_n__notebooks_for_paper/constants.py:6-7 | the insured total is positive and does not exceed the population at the end of 2022 |
| `ClinicData.ModeOf` | files_n__notebooks_for_paper/process_clinic_data.py:28-31 | the soft key is chosen if and only if the mode string is exactly "soft"; every other string chooses the tight key |
| `ClinicData.KeyOf` | files_n__notebooks_for_paper/process_clinic_data.py:21-27 | the tight key has 3 columns and the soft key 21 |
| `ClinicData.TightKeyProjectsSoftKey` | files_n__notebooks_for_paper/process_clinic_data.py:21-27 | the tight columns are a projection of the soft ones, so rows equal on the soft key are equal on the tight key |
| `ClinicData.KeyDeterminesExpertise` | files_n__notebooks_for_paper/process_clinic_data.py:21-27 | both keys contain `expertise_desc`: rows with the same key have the same expertise |
| `ClinicData.DropDuplicatesFrom` | files_n__notebooks_for_paper/process_clinic_data.py:32 | given the keys already seen: the result is a subsequence with distinct keys and no seen key; its key set is the input's minus the seen keys; every first row of an unseen key is kept |
| `ClinicData.DropDuplicatesFromIsMask` | files_n__notebooks_for_paper/process_clinic_data.py:32 | the scan returns exactly the rows that are the first of their key and whose key is not yet seen, in input order (`FirstOccurrences`, the `~duplicated(keep="first")` mask) |
| `ClinicData.DropDuplicates` | files_n__notebooks_for_paper/process_clinic_data.py:32 | keep-first dedup is exactly the `~duplicated(keep="first")` mask: the rows that are the first of their key, in input order. So no two rows share a key, every input key survives, and the first row of each key is kept |
| `ClinicData.KeptRowIsFirstOccurrence` | files_n__notebooks_for_paper/process_clinic_data.py:32 | the row kept for a key is that key's first row in the input |
| `ClinicData.IsRelevant` | files_n__notebooks_for_paper/process_clinic_data.py:36-37 | a row is kept exactly when its expertise is neither "לא רלוונטי" nor "שירותי משרד" |
| `ClinicData.BasicProcess` | files_n__notebooks_for_paper/process_clinic_data.py:6-40 | the cleaned table is the keep-first mask of the chosen key, narrowed to the relevant rows, in input order; the strictness defaults to "soft" |
| `ClinicData.BasicProcessSpec` | files_n__notebooks_for_paper/process_clinic_data.py:17-40 | the cleaned table is a subsequence of the input with distinct keys and no sentinel expertise. It holds the first row of every relevant key and every deduplicated non-sentinel row. Its keys are exactly those of the input's relevant rows |
| `ClinicData.AllSentinelCleansToEmpty` | files_n__notebooks_for_paper/process_clinic_data.py:36-37 | a table whose every row has a sentinel expertise cleans to the empty table |
| `ClinicData.BasicProcessIdempotent` | files_n__notebooks_for_paper/process_clinic_data.py:17-40 | cleaning twice with the same mode gives the same table as cleaning once |
| `ClinicData.BasicProcessLength` | files_n__notebooks_for_paper/process_clinic_data.py:32-37 | the cleaned table has exactly one row per distinct key among the input's relevant rows |
| `ClinicData.TightNoLongerThanSoft` | files_n__notebooks_for_paper/process_clinic_data.py:21-37 | for every input, cleaning with any mode other than "soft" keeps no more rows than cleaning with "soft" |
| `ClinicData.NarrowByServices` | files_n__notebooks_for_paper/process_clinic_data.py:56-57 | keeps exactly the rows whose service type is in the list; `None` keeps the table |
| `ClinicData.NarrowByExpertise` | files_n__notebooks_for_paper/process_clinic_data.py:59-60 | keeps exactly the rows whose expertise is in the list; `None` keeps the table |
| `ClinicData.NarrowByKupa` | files_n__notebooks_for_paper/process_clinic_data.py:63-64 | keeps exactly the rows whose `kupa` equals the given fund; `None` keeps the table |
| `ClinicData.Narrow` | files_n__notebooks_for_paper/process_clinic_data.py:56-64 | narrowing by services, then expertise, then fund keeps, in order, exactly the rows that pass all three filters |
| `ClinicData.TotalInsured` | files_n__notebooks_for_paper/process_clinic_data.py:62-67 | the denominator is the insured total for `None` and the fund's total for a known fund. An unknown fund is a `KeyError`. A denominator that exists is positive |
| `ClinicData.DoctorsPerAmount` | files_n__notebooks_for_paper/process_clinic_data.py:43-71 | the ratio fails, with `KeyError` for that name, exactly when the named fund is not one of the four; `amount` defaults to 1000 and the filters to `None` |
| `ClinicData.Ratio` | files_n__notebooks_for_paper/process_clinic_data.py:69 | the ratio times the denominator is the count times `amount`, and it is non-negative for a non-negative `amount` |
| `ClinicData.RatioValue` | files_n__notebooks_for_paper/process_clinic_data.py:69 | a successful ratio is (rows passing all filters) × amount / denominator |
| `ClinicData.RatioUnfiltered` | files_n__notebooks_for_paper/process_clinic_data.py:56-69 | with no filters the result is `len(table) * amount / total_with_health_insurance` |
| `ClinicData.CountedRowsPassFilters` | files_n__notebooks_for_paper/process_clinic_data.py:56-64 | every counted row is a row of the table and satisfies each filter that is given |
| `ClinicData.RatioBounds` | files_n__notebooks_for_paper/process_clinic_data.py:56-69 | for amount ≥ 0 the ratio is non-negative and at most the unfiltered table's count over the same denominator |
| `ClinicData.RatioMonotoneInAmount` | files_n__notebooks_for_paper/process_clinic_data.py:69 | for a fixed table and fixed filters the ratio is non-decreasing in `amount` |
| `AuthorityAnalysis.NarrowByProfession` | utils.py:20-21 | keeps exactly the rows whose "סוג התמחות" equals the profession; `None` keeps the table |
| `AuthorityAnalysis.NarrowByKupa` | utils.py:22-23 | keeps exactly the rows whose "קופת חולים" equals the fund; `None` keeps the table |
| `AuthorityAnalysis.SelectProviders` | utils.py:19-23 | the surviving rows are, in order, exactly the rows passing both exact-match filters |
| `AuthorityAnalysis.SelectAllWithoutFilters` | utils.py:19-23 | with profession and fund both `None` no row is dropped |
| `AuthorityAnalysis.GroupByCity` | utils.py:24 | the grouped keys are exactly the cities present, and no city has a count below 1 |
| `AuthorityAnalysis.CountProfessionalsByAuthority` | utils.py:8-26 | the result's keys are exactly the cities of the surviving rows, each with a count of at least 1 |
| `AuthorityAnalysis.NamesInRowsIn` | utils.py:24 | the distinct "שם" values of a city (`NamesIn`) are the names of the rows the city mask selects |
| `AuthorityAnalysis.CountIsDistinctNames` | utils.py:24 | a city's count is the number of distinct "שם" values among its surviving rows: at least 1 and at most that city's row count |
| `AuthorityAnalysis.CountOfDistinctProviders` | utils.py:24 | when a city's surviving rows all have different names, its count equals its row count |
| `AuthorityAnalysis.RepeatedProviderNotRecounted` | utils.py:24 | an extra row for a provider already present changes no count, even when its other columns differ |
| `AuthorityAnalysis.GroupByCityIgnoresRepeat` | utils.py:24 | an appended row with a city and name already present leaves the grouped counts unchanged |
| `AuthorityAnalysis.MergeProfessionalsAndPopulation` | utils.py:43-45 | inner join: the keys are exactly the authorities on both sides, each with the population value `local_auth_table[col]` and its count, both unchanged |
| `AuthorityAnalysis.MergeSize` | utils.py:43-45 | the merged table has one row per authority present in both inputs |
| `AuthorityAnalysis.MergeDropsUnmatchedAuthority` | utils.py:43-45 | counts {A: 3, B: 5, C: 2} joined with population rows for A and C give exactly the two rows A and C |
| `AuthorityAnalysis.EndToEndExample` | utils.py:19-45 | three differently named providers of profession X in A and one of profession Y in B count, for profession X, as {A: 3}. Joining that count with populations for A and B leaves only (A, 1000, 3) |
| `AuthorityAnalysis.Show` | utils.py:76 | the f-string renders a given profession as itself and `None` as "None" |
| `AuthorityAnalysis.ResolveLabels` | utils.py:74-76 | supplied labels are kept. The defaults are the column name, "num docs", and "correlation between {col} and {profession}", where a `None` profession is printed as "None" |
| `AuthorityAnalysis.GenCorrelationPlot` | utils.py:50-82 | the plot shows the merged table's points with the resolved labels, and annotates the correlation exactly when `print_corr` is set (default true) |
| `AuthorityAnalysis.GenMedServiceCorrelationPlot` | utils.py:89-127 | the plotted table is `merge(count(table, profession, kupa), local_auth_table, col)`. Its authorities are exactly the surviving rows' cities that have a population row, each with its population value and a positive count |

## Left out

- Drawing: `plt.subplots`, `ax.scatter`, the axis and title setters and `ax.text` (utils.py:70-84) are graphics side effects. `GenCorrelationPlot` returns a description of the plot instead. A supplied `ax` and the `**kwargs` styling options are not modelled.
- `pearsonr` and the rounding of r and p to three decimals (utils.py:83-84): floating-point statistics from a library this model does not contain. Only the `print_corr` flag is kept.
- The `print` progress messages (process_clinic_data.py:18, 33, 38): output only.
- IEEE double rounding: the constants and the ratio are exact `real`s. For example, `0.512 * 9420200` is exact here but rounded in the source.
- Table-engine details: NaN keys dropped by `groupby`, NaN excluded by `nunique`, dtype coercion, and row duplication in `merge` on repeated index labels. Row fields are plain strings, the population values are exact reals, and both indexed tables are maps, so their keys are unique.
- Missing-column errors: a column absent from a table is not modelled. `MergeProfessionalsAndPopulation` and `GenMedServiceCorrelationPlot` require the population column in every local-authority row.
- Row order of grouped and merged tables: `groupby` sorts by city and `merge` has its own order. Both are modelled as maps, so the model says nothing about their order.
- Index labels: the cleaned DataFrame keeps the input's index labels, since neither step at process_clinic_data.py:32 and :37 resets the index. A `seq<ClinicRow>` has positions, not labels, so the model does not say which labels survive.
- The unused `os` import (utils.py:2).
