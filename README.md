# MediMap — a Dafny model

MediMap publishes the 2023 French drug-reimbursement figures, aggregated by
region. It has three parts:

- a batch load from aggregated CSV files into four PostgreSQL tables:
  regions, drugs (`medicaments`), ATC therapeutic classes and consumption
  facts (`consommation`);
- a FastAPI backend that looks up, searches, pages and aggregates those
  tables;
- a Streamlit frontend that derives figures from the backend's replies:
  - the gap to the national mean;
  - the rank of a region;
  - each region's share of the national amount;
  - the highest, lowest and mean region;
  - ISO codes for the map;
  - thousands-grouped numbers.

This project models those rules and proves what they promise.

In the model, the database is a `Store` holding one sequence per table.
Reimbursed amounts are integer cents, matching the `Numeric(15, 2)` column.
The frontend's float columns are `real` euros, where one euro is 100 cents.
Here is what each module covers:

- **Seqs:** sums, counts, subsequences and `drop_duplicates`, over
  sequences.
- **Models:** the four records, their column limits, and the well-formed
  store. A well-formed store has unique keys, bounded columns, and
  nullable references to existing rows.
- **Http:** an endpoint's reply, which is the value, a 404 with its detail
  message, or a 422 naming the failed query parameter.
- **Stats:** the three statistics endpoints:
  - the per-region totals for a year;
  - the detail of one region;
  - the national overview.

  It also proves how these three agree with each other.
- **Medicaments / Regions:** catalogue paging, search, and lookup by id or
  code.
- **Frames:** the frontend's float column of amounts, its sum and its mean.
- **RegionsPage / StatsPage / CartePage / MedicamentsPage:** the region
  page, the statistics page, the map page and the drug page.
- **Charts:** `format_number`.
- **Etl:** the load script:
  - the de-duplicated projections;
  - the join that builds the facts;
  - a `Database` class whose methods append one batch per table, refused
    as a whole by the table constraints.

SQL leaves the order of rows undefined without `ORDER BY`. The model's
convention is that such queries, and `.first()`, follow store order.
`ORDER BY total_remb DESC` and pandas `sort_values` have no tie-breaking
key, so the order of equal amounts is undefined. The model sorts stably.
Sortedness, permutation, the bounds on a region's rank and the uniqueness
of the order when no two amounts are equal hold whatever order the ties
take. The exact positions (RegionsPage.Rank and RegionsPage.TextRank) hold
only for the model's tie order.

`get_region_stats` answers an unknown code with a 200 reply whose body is
`{"error": "Région non trouvée"}`, unlike the 404 of the region router. It
is modelled as `RegionStatsReply.ErrorBody`.

## Model

| member | source | states |
|---|---|---|
| Seqs.FindFirst | backend/app/routers/medicaments.py:49 | `.first()`: the first position whose element satisfies the filter, or none when no element does |
| Seqs.Distinct | etl/load_to_db.py:47 | `drop_duplicates()`: every element of the input exactly once, nothing else, as a subsequence of the input, ordered by each element's first index in the input (the first of equal rows is kept) |
| Seqs.FirstIndex | etl/load_to_db.py:47 | the first index of an element: it holds the element and no earlier index does |
| Seqs.DistinctKeepsFirst | etl/load_to_db.py:47 | of `[a, b, a]`, `drop_duplicates()` keeps `[a, b]` |
| Models.RegionWithCode | backend/app/models.py:14 | the region lookup on `code_region` finds a region exactly when one carries the code, and the region found carries it |
| Models.RegionWithCodeUnique | backend/app/models.py:13-14 | with unique keys the lookup on a region's code returns that very region |
| Stats.OfYear | backend/app/routers/stats.py:33-34 | the year filter keeps exactly the facts of that year |
| Stats.GroupedRows | backend/app/routers/stats.py:31-36 | before ordering, the rows are exactly one row per region that has at least one fact, holding that region's sums |
| Stats.GroupedCodesDistinct | backend/app/routers/stats.py:35-36 | with unique region keys, no two grouped rows share a region code |
| Stats.SortByRembDesc | backend/app/routers/stats.py:37-38 | the ordering yields a permutation of its input that is non-increasing in `total_remb` |
| Stats.StrictOrderIsDetermined | backend/app/routers/stats.py:37-38 | when no two rows share an amount, the strictly decreasing list is the only non-increasing permutation of its rows, so every tie rule returns it |
| Stats.StrictRowsSortToThemselves | backend/app/routers/stats.py:37-38 | rows already strictly decreasing in `total_remb` come out of the ordering as they went in |
| Stats.GetRegionsStats | backend/app/routers/stats.py:18-49 | the reply is non-increasing in `total_remb` and is a permutation of the per-region rows of the year |
| Stats.RegionsStatsRows | backend/app/routers/stats.py:26-39 | every row is the sums of a region with facts that year, and every such region has its row |
| Stats.RegionsStatsOneRowPerRegion | backend/app/routers/stats.py:35-36 | with unique region keys there is at most one row per region code |
| Stats.GetRegionStats | backend/app/routers/stats.py:51-74 | an error body with "Région non trouvée" exactly when no region has the code, otherwise the region's name, the requested year and the sums of its facts of that year |
| Stats.GetOverview | backend/app/routers/stats.py:76-96 | echoes the requested year and counts the whole drug catalogue, whatever the year |
| Stats.EmptyYear | backend/app/routers/stats.py:26-39 | a year without facts gives an empty per-region list and an overview with zero totals and zero regions |
| Stats.IdleRegionHasZeroStats | backend/app/routers/stats.py:60-74 | a known region without facts in the year gets zero totals and the requested year, not the error |
| Stats.RegionStatsAgreeWithRegionsStats | backend/app/routers/stats.py:18-74 | a region with facts in the year has the same name and totals in its detail as in its row of the per-region list |
| Stats.OtherYearsDoNotContribute | backend/app/routers/stats.py:33-34 | adding facts of other years changes none of the three endpoints' replies for this year |
| Stats.PartitionByRegion | backend/app/routers/stats.py:31-36 | when every fact belongs to exactly one region, the per-region sums add up to the sum over all facts |
| Stats.GroupedSums | backend/app/routers/stats.py:29-36 | the sums of the grouped rows are the per-region sums of the facts |
| Stats.ActiveIds | backend/app/routers/stats.py:31-36 | the ids of regions with at least one fact are exactly the stored region ids some fact refers to |
| Stats.GroupedCount | backend/app/routers/stats.py:35-36 | with unique keys there are as many grouped rows as regions with facts |
| Stats.ActiveIdsAreFactRegionIds | backend/app/routers/stats.py:84 | when every fact refers to a stored region, the distinct region ids of the facts are the regions with facts |
| Stats.OverviewMatchesRegionsStats | backend/app/routers/stats.py:26-95 | when every fact of the year has a region, the overview's totals are the sums of the per-region rows and `nb_regions` is their number |
| Stats.OfYearAppend | backend/app/routers/stats.py:33-34 | the year filter distributes over concatenation of fact lists |
| Medicaments.GetAllMedicaments | backend/app/routers/medicaments.py:17-27 | the page has `min(limit, n - skip)` entries (none when `skip >= n`) and entry `i` is catalogue entry `skip + i` |
| Medicaments.PagesConcatenate | backend/app/routers/medicaments.py:26 | two consecutive pages together are the page of their combined length |
| Medicaments.FirstPageCoversCatalogue | backend/app/routers/medicaments.py:26 | a first page at least as long as the catalogue is the whole catalogue |
| Medicaments.Lower | backend/app/routers/medicaments.py:38-39 | case folding keeps the length and folds each character on its own; the result holds no capital letter and each of its characters folds to itself |
| Medicaments.LowerIdempotent | backend/app/routers/medicaments.py:38-39 | folding twice is folding once |
| Medicaments.NameMatchesIgnoresCase | backend/app/routers/medicaments.py:38-39 | `ILIKE` ignores case on both sides: a term matches a name exactly when its folding does, and a name matches exactly when its folding does |
| Medicaments.MatchesIgnoresCase | backend/app/routers/medicaments.py:38-39 | the matching catalogue entries are the same for a term and for its folding |
| Medicaments.SearchIgnoresCase | backend/app/routers/medicaments.py:29-42 | the search reply for a term is the reply for its folding |
| Medicaments.Contains | backend/app/routers/medicaments.py:38-39 | true exactly when the query occurs at some position of the name |
| Medicaments.Matches | backend/app/routers/medicaments.py:38-39 | keeps exactly the catalogue entries whose folded name contains the folded query, in catalogue order |
| Medicaments.SearchMedicaments | backend/app/routers/medicaments.py:29-42 | status 422 exactly when the query is shorter than 3 and status 200 otherwise (so never 404); a 200 carries at most `limit` matching drugs in catalogue order, and all matches when fewer than `limit` are returned |
| Medicaments.GetMedicament | backend/app/routers/medicaments.py:44-51 | status 200 with the drug of the requested id exactly when one exists, otherwise status 404 with "Médicament non trouvé" |
| Medicaments.GetMedicamentUnique | backend/app/routers/medicaments.py:49-51 | with unique ids the lookup of a stored drug's id returns that drug |
| Regions.GetAllRegions | backend/app/routers/regions.py:16-22 | returns every stored region and nothing else |
| Regions.GetRegion | backend/app/routers/regions.py:24-32 | status 200 with the region of the requested id exactly when one exists, otherwise status 404 with "Région non trouvée" |
| Regions.GetRegionByCode | backend/app/routers/regions.py:34-41 | status 200 with a region of the requested code exactly when one exists, otherwise status 404 with "Région non trouvée" |
| Regions.LookupsAgree | backend/app/routers/regions.py:24-41 | with unique keys, looking a stored region up by its id or by its code returns that region |
| Regions.LookupRoundTrip | backend/app/routers/regions.py:24-41 | with unique keys, looking up the code of the region found by id gives back the same reply |
| Frames.RembColumn | frontend/pages/_Stats.py:44 | the float column has one entry per row, the row's amount in euros |
| Frames.RembColumnSum | frontend/pages/_Stats.py:59 | the sum of the float column is the exact total of the rows in euros |
| Frames.ToEurosMonotone | frontend/pages/_Carte.py:32 | converting cents to euros keeps order and equality |
| Frames.MeanBetween | frontend/pages/_Regions.py:67 | the mean of a column lies between any lower and upper bound of its entries |
| Frames.MeanOfRembColumn | frontend/pages/_Regions.py:66-67 | the national mean is the total amount divided by the number of rows |
| Frames.SumRealBounds | frontend/pages/_Regions.py:67 | `Series.sum()` of values between two bounds lies between `n` times each bound |
| Frames.SumRealNonNegative | frontend/pages/_Stats.py:59 | `Series.sum()` of non-negative values is non-negative |
| Frames.SumRealDominates | frontend/pages/_Stats.py:59-60 | with non-negative entries, the total is at least each entry |
| RegionsPage.RegionsDict | frontend/pages/_Regions.py:20 | the dictionary's keys are exactly the region names, and each name maps to the code of a region with that name |
| RegionsPage.RegionsDictLastWins | frontend/pages/_Regions.py:20 | a name maps to the code of its last region in listing order |
| RegionsPage.RegionsDictDistinctNames | frontend/pages/_Regions.py:20 | with distinct names every region's name maps to its own code |
| RegionsPage.SortStrings | frontend/pages/_Regions.py:25 | sorting distinct names yields a strictly increasing permutation of them |
| RegionsPage.SelectorOptions | frontend/pages/_Regions.py:25 | the options are exactly the dictionary's keys, strictly increasing in Python string order |
| RegionsPage.SelectorOptionsDetermined | frontend/pages/_Regions.py:25 | any strictly increasing listing of the dictionary's keys is the options list |
| RegionsPage.StrictlySortedUnique | frontend/pages/_Regions.py:25 | two strictly increasing lists with the same members are equal |
| RegionsPage.StrLtTransitive | frontend/pages/_Regions.py:25 | Python's string order is transitive (with irreflexivity, asymmetry and totality beside it) |
| RegionsPage.SelectedCode | frontend/pages/_Regions.py:28 | the chosen option's code belongs to a region with that name |
| RegionsPage.NationalGap | frontend/pages/_Regions.py:66-71 | mean is the mean of the float column, region amount = mean + diff, and the percentage exists exactly when the mean is not 0 and then equals diff / mean × 100 |
| RegionsPage.GapSign | frontend/pages/_Regions.py:70-71 | with a positive mean, the percentage is positive exactly when the region is above the mean and zero exactly when it equals it |
| RegionsPage.Rank | frontend/pages/_Regions.py:95-98 | a rank exists exactly when the code is in the list; it lies in 1..n and is the first 1-based position of the code in the sorted list |
| RegionsPage.RankBounds | frontend/pages/_Regions.py:95-100 | whatever the tie order, the rank is more than the number of regions with a larger amount and at most the number with at least the region's amount |
| RegionsPage.SortedPositionBounds | frontend/pages/_Regions.py:95-96 | in a non-increasing list, position k has at most k larger amounts before it and at least k + 1 amounts not smaller |
| RegionsPage.AmountText | backend/app/schemas.py:78-83 | the JSON text of a per-region amount ends in a point and two digits, starts with '-' exactly for a negative amount, with the point removed reads back (as `int`) as the amount in cents, and its euro digits have no leading zero (a lone "0" apart) |
| RegionsPage.NotLtTransitive | frontend/pages/_Regions.py:95 | "not below" in Python's string order is transitive |
| RegionsPage.SortByTextDesc | frontend/pages/_Regions.py:95 | sorting the rows on the text of their amounts yields a permutation of them in which no text is below a later one in Python's string order |
| RegionsPage.TextRank | frontend/pages/_Regions.py:95-98 | the rank as written: it exists exactly when the code is in the list, lies in 1..n, and is the first 1-based position of the code in a permutation of the rows whose amount texts are non-increasing in Python's string order |
| RegionsPage.AmountTextExamples | backend/app/schemas.py:83 | 100.00 euros is sent as "100.00" and 99.00 euros as "99.00" |
| RegionsPage.TextSortSwaps | frontend/pages/_Regions.py:95 | two rows at 100.00 and 99.00 euros come out of the text sort with the smaller amount first |
| RegionsPage.StrictTopRanksFirst | frontend/pages/_Regions.py:95-98 | a region whose amount no other region reaches is ranked first |
| RegionsPage.LargerAmountRankedSecond | frontend/pages/_Regions.py:95-98 | of two regions at 100.00 and 99.00 euros, the larger is ranked 2 as written and 1 by the numeric rank |
| RegionsPage.TextRankExample | frontend/pages/_Regions.py:95-98 | Île-de-France at 100.00 euros, the only region at that amount or above, is ranked 2 as written and 1 by the numeric rank, next to Centre-Val de Loire at 99.00 |
| RegionsPage.RegionViewAsWritten | frontend/pages/_Regions.py:36-103 | the page as written: the warning exactly on the error body; a crash exactly when the detail is shown, the per-region list is non-empty and lacks the region; the detail without comparison for an empty list; otherwise the comparison holds the national gap, the text rank and the number of regions |
| RegionsPage.RegionView | frontend/pages/_Regions.py:36-103 | the corrected page never crashes; the detail without comparison for an empty list; otherwise the comparison holds the national gap, the rank by amount and the number of regions; it agrees apart from the rank line with the page as written wherever that does not crash |
| RegionsPage.RegionPageAsWritten | frontend/pages/_Regions.py:16-106 | no page exactly when no regions load; otherwise never the warning, since the selector only offers known regions |
| RegionsPage.RegionPage | frontend/pages/_Regions.py:16-106 | no page exactly when no regions load; otherwise the corrected page shows the region |
| RegionsPage.CrashIffIdleRegion | frontend/pages/_Regions.py:98 | with a non-empty per-region list, the page as written crashes exactly for a region with no facts in the year |
| RegionsPage.CrashExample | frontend/pages/_Regions.py:98 | a store where region 24 has no 2023 facts makes the page as written crash, while the corrected page shows it without a rank |
| StatsPage.Percentages | frontend/pages/_Stats.py:60 | one percentage per amount, in order, each the amount divided by the total times 100 |
| StatsPage.PercentagesSum | frontend/pages/_Stats.py:59-60 | the percentages add up to the column sum over the total, times 100 |
| StatsPage.ShareTable | frontend/pages/_Stats.py:42-62 | no table exactly when the per-region list is empty; otherwise one line per row in order, carrying its name, boxes and euros, and a share exactly when the total is not zero, that share being the amount divided by the total times 100 |
| StatsPage.ShareTableDefined | frontend/pages/_Stats.py:59-60 | every line has a share exactly when the exact national amount is not zero |
| StatsPage.SharesSumTo100 | frontend/pages/_Stats.py:59-60 | with a non-zero total every line has a share, and before rounding the shares add up to 100 |
| StatsPage.SharesWithinRange | frontend/pages/_Stats.py:60 | with non-negative amounts and a non-zero total each line has a share in [0, 100] |
| StatsPage.TableTotalIsOverviewTotal | frontend/pages/_Stats.py:18-59 | when every fact of the year has a region, the total the table divides by is the overview's national amount |
| MedicamentsPage.DrugPageFor | frontend/pages/_Medicaments.py:17-47 | the listing exactly for an empty box, holding the first `min(100, n)` catalogue entries; the hint exactly for one or two characters; otherwise between 1 and 20 matching catalogue drugs, or the warning exactly when no drug matches |
| MedicamentsPage.PageTermsAccepted | frontend/pages/_Medicaments.py:17-20 | every term the page sends gets status 200 from the search endpoint |
| CartePage.CodeIso | frontend/pages/_Carte.py:31 | a code gets an ISO code exactly when it is in the mapping, and then the mapped one |
| CartePage.CodeIsoInverse | frontend/pages/_Carte.py:25-29 | every ISO code of the mapping reads back to its region code |
| CartePage.CodeIsoInjective | frontend/pages/_Carte.py:25-29 | distinct region codes get distinct ISO codes |
| CartePage.IsoColumn | frontend/pages/_Carte.py:31 | one ISO entry per row, in row order |
| CartePage.IsoColumnDistinct | frontend/pages/_Carte.py:31 | with distinct region codes no two rows share an ISO code |
| CartePage.ColumnsFor | frontend/pages/_Carte.py:41-46 | the colour column is the euros column or the box counts according to the metric, and the hover columns are the same for both |
| CartePage.ArgMax | frontend/pages/_Carte.py:64 | `idxmax`: a position holding the largest value, before which every value is smaller |
| CartePage.ArgMin | frontend/pages/_Carte.py:72 | `idxmin`: a position holding the smallest value, before which every value is larger |
| CartePage.Statistics | frontend/pages/_Carte.py:63-84 | nothing for no rows; otherwise the highest and lowest rows are rows bounding every amount, and the mean is the mean of the euros column |
| CartePage.StatisticsPickFirst | frontend/pages/_Carte.py:64-72 | the highest and lowest regions are the first rows reaching the extreme amount |
| CartePage.LowestMeanHighest | frontend/pages/_Carte.py:64-80 | lowest ≤ mean ≤ highest |
| Charts.Digits | frontend/utils/charts.py:61 | `str` of a natural number: non-empty, only digits, no leading zero except for 0 |
| Charts.FormatNumberWithoutSpaces | frontend/utils/charts.py:59-61 | deleting the spaces from `format_number(n)` gives the plain decimal form of `n` |
| Charts.FormatNumberRoundTrip | frontend/utils/charts.py:59-61 | reading the spaceless output back as an integer gives `n` |
| Charts.GroupDigitsWellGrouped | frontend/utils/charts.py:61 | the digits come in groups of three from the right, single spaces between, a leading group of one to three digits |
| Charts.SmallNumbersHaveNoSpace | frontend/utils/charts.py:61 | below 1000 in absolute value the output has no space and is the plain decimal form |
| Charts.SignInFront | frontend/utils/charts.py:61 | the output starts with '-' exactly for negative numbers, followed by the grouped magnitude |
| Charts.FormatNumberExample | frontend/utils/charts.py:61 | 1234567 is shown as "1 234 567" and -1000 as "-1 000" |
| Charts.DecimalRoundTrip | frontend/utils/charts.py:61 | the plain decimal form of any integer, sign included, reads back as that integer |
| Charts.ParseDigitsOfDigits | frontend/utils/charts.py:61 | reading back `str(n)` gives `n` |
| Etl.RegionsToLoad | etl/load_to_db.py:47 | each distinct (code, name) pair of the file exactly once, only such pairs, ordered by first occurrence in the file |
| Etl.MedicamentsToLoad | etl/load_to_db.py:65 | each distinct (CIP code, name) pair of the file exactly once, only such pairs, ordered by first occurrence in the file |
| Etl.ClassesToLoad | etl/load_to_db.py:83-84 | each distinct (ATC code, class) pair of the file exactly once, as (code_atc, nom_classe), ordered by first occurrence in the file |
| Etl.IdsWithCode | etl/load_to_db.py:100-103 | exactly the ids of database regions carrying the code |
| Etl.ConsommationRows | etl/load_to_db.py:103-113 | every fact is the measures of an aggregated row paired with the id of a database region of the same code |
| Etl.ConsommationRowsShape | etl/load_to_db.py:107-113 | every fact has no drug, the year 2023 and a region id that the database holds |
| Etl.ConsommationRowsComplete | etl/load_to_db.py:103 | every aggregated row whose code is in the database gets its fact with that region's id |
| Etl.ConsommationRowsCount | etl/load_to_db.py:103 | with unique codes in the database, the facts are as many as the aggregated rows whose code the database knows |
| Etl.IdsWithCodeUnique | backend/app/models.py:14 | with unique codes at most one region id is found per code |
| Etl.InsertRegionsValid | backend/app/models.py:13-15 | appending an accepted batch of regions keeps the store well formed and numbered below the advanced sequence |
| Etl.InsertFactsValid | backend/app/models.py:43-48 | appending an accepted batch of facts keeps the store well formed: unique ids, bounded columns, existing references |
| Etl.Database.InsertRegions | etl/load_to_db.py:52 | the batch is appended, numbered from the sequence, exactly when the constraints accept it; otherwise nothing changes; other tables are untouched |
| Etl.Database.InsertMedicaments | etl/load_to_db.py:70 | as above, for the drug table |
| Etl.Database.InsertClasses | etl/load_to_db.py:89 | as above, for the class table |
| Etl.Database.InsertFacts | etl/load_to_db.py:118 | as above, for the fact table, whose constraints include the references to stored regions and drugs |
| Etl.LoadDimensions | etl/load_to_db.py:44-88 | the region, drug and class loads in order: success exactly when each batch is accepted; each of those tables and its id counter advance by the batch exactly when it and every earlier load are accepted; the facts table and its counter are untouched |
| Etl.Load | etl/load_to_db.py:44-118 | success exactly when each batch is accepted by the tables as the earlier loads left them; each table gains exactly its batch, and its id counter advances by the batch's size, when it and every earlier load are accepted, and both are unchanged otherwise; the facts are the join with the regions table as it stands after the region load |
| Etl.FreshLoadFactCount | etl/load_to_db.py:47-113 | loading into an empty database, every aggregated row gets exactly one fact |

## Left out

- The HTTP client, its time-limited cache and its error display
  (frontend/utils/api_client.py) are network plumbing. The pages are
  modelled on the backend's replies. A failed request is not modelled: the
  client then returns `[]` for the region list, the per-region list, the
  search and the catalogue page, and `None` for the overview and the
  region detail. The one exception is the drug page, where a refused
  search shows the "no result" warning.
- The client puts the search term into the URL without encoding it, so a
  term holding `&`, `#` or `+` reaches the backend altered. The model sends
  the term unchanged.
- Session handling, routing, CORS and the constant root and health replies
  (backend/app/database.py, backend/app/main.py) are framework wiring.
  Pydantic validation of the response shapes (backend/app/schemas.py) is
  library behaviour.
- The Streamlit rendering is output only. The home page (frontend/app.py)
  shows the overview, a chart of the first ten per-region rows and the
  per-region table. It derives nothing beyond the formatting, so it is not
  modelled.
- The Plotly chart builders and `format_currency` are left out, because
  their `.2f` rounding is binary-float formatting.
- Rounding is not modelled: the two-decimal rounding of the percentages
  and the `.1f` of the gap. Floats are exact `real`s, with no NaN or
  infinity. A division by zero is modelled as a missing value (`None`).
- Charts.FormatNumber: `int(number)` truncates floats. The model takes the
  integer amounts the pages pass in.
- SQL `ILIKE` treats `%` and `_` inside `q` as wildcards. The model reads
  the query as a literal substring. Case folding covers ASCII and the
  Latin-1 capitals only, not full Unicode lower-casing.
- Medicaments.GetAllMedicaments: `skip` and `limit` are natural numbers.
  The source accepts any integer; PostgreSQL refuses a negative OFFSET or
  LIMIT with an error, which is not modelled.
- Medicaments.SearchMedicaments: `limit` is a natural number. The source
  accepts any integer (`limit: int = 20`); PostgreSQL refuses a negative
  LIMIT with an error, which is not modelled.
- The order of ties in `ORDER BY total_remb DESC` and in
  `sort_values(ascending=False)` is left open. Every property of the sorted
  list is proved for whatever order ties take, except the exact positions:
  RegionsPage.Rank and RegionsPage.TextRank are exact only for the
  insertion sort the model uses. The tie-free meaning of RegionsPage.Rank
  is RegionsPage.RankBounds; with no equal amounts the order, and so the
  rank, is fixed (Stats.StrictOrderIsDetermined).
- The `created_at` timestamps are set by the database clock and are not
  modelled.
- The year selector of the region page offers only 2023. The pages call
  the backend with 2023, and the backend endpoints keep the year as a
  parameter.
- The per-region `total_remb` is a `Decimal` field, which Pydantic 2 (the
  `from_attributes` configuration) writes as a JSON string. Every page
  except the region page's rank converts the column to `float` first, so
  the model takes those amounts as numbers. The rank sorts the strings
  themselves, which is the second finding below.
- The ETL's CSV reading, its connection test, and the counts, samples and
  prints after the load (etl/load_to_db.py:11-36, 122-163) are I/O. The
  files' rows are the parameters of `Etl.Load`. The CSV amounts are taken
  as integer cents.
- Etl.Database.InsertRegions (and the other three inserts): a refused
  batch leaves the id sequence where it was. PostgreSQL consumes the
  sequence values drawn before the failure. Because the script stops at
  the first refusal, no later load can observe the difference.
- Etl.Load: neither failure of the region read-back nor atomicity across
  the four loads is modelled: the batches loaded before a failure stay.
- The group-by key of the per-region query is the pair (code, name) rather
  than the region id. With unique codes these are the same. The model
  groups by region.

## Findings

| source | as written | input that shows it | evidently intended | confidence | as-written member | corrected member |
|---|---|---|---|---|---|---|
| frontend/pages/_Regions.py:98 | the rank is read with `.index[0]` on the rows of the per-region list matching the selected code; a region with no facts in the year is not in that list, so the selection is empty and `.index[0]` raises `IndexError` | regions 11 "Île-de-France" and 24 "Centre-Val de Loire", one 2023 fact for region 11 only, select "Centre-Val de Loire": the detail reply has zero totals (not an error), the list holds only region 11, and the page crashes | show the region, compare it with the national mean and give no rank (or rank it last) | high, not executed | RegionsPage.RegionViewAsWritten, RegionsPage.CrashExample | RegionsPage.RegionView |
| frontend/pages/_Regions.py:95 | `sort_values('total_remb', ascending=False)` sorts the raw column, and the per-region amounts arrive as JSON strings ("99.00"), so the rows are ordered as strings, not as amounts | regions at 100.00 and 99.00 euros: "99.00" sorts above "100.00", so the region with the larger amount is ranked 2nd although no region has more | sort numerically, e.g. on `total_remb.astype(float)` as the other pages do | medium (assumes Pydantic 2 serialisation of `Decimal`), not executed | RegionsPage.TextRank, RegionsPage.TextRankExample | RegionsPage.Rank, RegionsPage.RankBounds, RegionsPage.StrictTopRanksFirst |
