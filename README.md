# Pubs in England — query and aggregation layer

A Dafny model of the query layer of a small Streamlit application that
explores a table of pubs in England. The table is loaded once; the
map, the table display and the charts are fed by four operations on it:

- **authority filter** (`pub_table` / `authority_filter`): the rows whose
  local authority is one of a chosen list, in table order;
- **authority counter** (`authority_counter`): one row count per
  requested authority, aligned with the request;
- **top names** (`count_names`): the `numPubs` most frequent pub names
  with their counts, most frequent first (pandas `value_counts()[:numPubs]`);
- **postcode matcher** (`count_postcodes`): the number of distinct
  postcodes containing a search string.

The table is a `seq<Pub>` where `Pub` holds the columns the layer
computes with: `name`, `localAuthority` and `postcode`. The application
reads the table from a global cached loader; here it is a parameter of
every operation.

Modules:

- `Pubs` (`pubs.dfy`): the row datatype and its column projections.
- `Seqs` (`seqs.dfy`): duplicate-free sequences, first-occurrence
  de-duplication (`Dedup`, the specification of the postcode loop), sums
  and occurrence tallies.
- `Authority` (`authority.dfy`): the filter and the per-authority counter.
- `NameRanking` (`name_ranking.dfy`): value counts as a stable sort of
  the distinct names by decreasing count, and the top-N cut.
- `PostcodeSearch` (`postcode_search.dfy`): substring containment, and
  `CountPostcodes`, an imperative loop proved against `Dedup` and a
  set-based count.
- `Scenarios` (`scenarios.dfy`): small worked tables for each view.

`pub_table` and `authority_filter` have identical bodies (both select
`df['local_authority'].isin(...)` from the loaded table), so one function,
`AuthorityFilter`, models both.

Notes on how the model reads the code:

- The pie chart counts on the already filtered table
  (FinalProject.py:159-160). `CountOnFilteredTable` proves that this
  gives the same list as counting on the full table.
- `read_data` calls `df.ffill(..., inplace=False)` and discards the result
  (FinalProject.py:27), so the loaded table is not filled. No fill is
  modelled.
- `isin` takes a list and tests membership. The model takes a
  `seq<string>` and uses `in`.
- pandas does not fix the order of names with equal counts. The model
  uses first-occurrence order (a stable sort), and its contracts state
  only that counts are non-increasing.

## Model

| member | source | states |
|---|---|---|
| Authority.AuthorityFilter | FinalProject.py:58-67 | every selected row is a row of the table whose authority is chosen; the result is no longer than the table; an empty choice gives an empty table |
| Authority.AuthorityFilterSelects | FinalProject.py:60 | every row occurs in the result exactly as often as in the table when its authority is chosen, and not at all otherwise; rows are not altered |
| Authority.AuthorityFilterAppend | FinalProject.py:66 | filtering a concatenation of tables is the concatenation of the filtered parts |
| Authority.AuthorityFilterKeepsOrder | FinalProject.py:60 | a selected row t[i] appears in the result at the position equal to the number of rows selected before it |
| Authority.AuthorityFilterPositionsIncrease | FinalProject.py:66 | a selected row is placed before every selected row that follows it in the table |
| Authority.CountAuthorityIsOccurrences | FinalProject.py:71 | the size of the selection for one authority equals the number of rows with that authority |
| Authority.AuthorityCounter | FinalProject.py:70-71 | one count per requested authority, same length and order as the request; entry i is the number of rows whose authority is authorities[i] |
| Authority.AuthorityFilterTwice | FinalProject.py:66-71 | selecting authority a from a selection whose chosen list holds a equals selecting a from the whole table |
| Authority.CountOnFilteredTable | FinalProject.py:159-160 | counting on the filtered table gives the same list as counting on the full table |
| Authority.AuthorityFilterSplit | FinalProject.py:66 | when a is not in rest, the selection for [a] + rest has as many rows as the selections for [a] and for rest together |
| Authority.CountsSumToFiltered | FinalProject.py:64-71 | for a request without repeats, the counts sum to the number of rows the filter selects |
| NameRanking.InsertByCount | FinalProject.py:82 | inserting a name into a list sorted by decreasing count keeps it sorted and yields the old list plus exactly that name (as a multiset), one longer |
| NameRanking.InsertByCountNoDup | FinalProject.py:82 | inserting a new name into a duplicate-free list keeps it duplicate-free |
| NameRanking.InsertByCountSum | FinalProject.py:82 | inserting a name adds its count to the summed counts |
| NameRanking.SortByCount | FinalProject.py:82 | the result is sorted by decreasing count, is a permutation of its input (same multiset, same length), stays duplicate-free, and has the same summed counts |
| NameRanking.ValueCounts | FinalProject.py:82 | the distinct names of the table, each once, sorted by decreasing count, as many as there are distinct names, with counts summing to the number of rows |
| NameRanking.TopOfRanking | FinalProject.py:82-83 | the first k names of the ranking are duplicate-free, sorted and names of the table; every name left out counts no more than the last one kept |
| NameRanking.CountNames | FinalProject.py:81-85 | min(numPubs, distinct names) distinct table names, `cord` equal to the names, each count the number of rows with that name, counts non-increasing, no omitted name more frequent than the last shown, and counts summing to the row count when numPubs covers every name |
| PostcodeSearch.ContainsEmpty | FinalProject.py:105 | the empty search string is contained in every postcode |
| PostcodeSearch.Matching | FinalProject.py:105 | keeps exactly the listed postcodes that contain the search string, and keeps a duplicate-free list duplicate-free |
| PostcodeSearch.CountPostcodes | FinalProject.py:100-107 | returns the number of distinct postcodes of the table that contain the search string; its loop keeps the list equal to the first-occurrence de-duplication of the postcodes seen so far |
| PostcodeSearch.EmptyCodeCountsDistinct | FinalProject.py:105-107 | an empty search string counts every distinct postcode |
| PostcodeSearch.MatchesAtMostRows | FinalProject.py:105-107 | the count never exceeds the number of rows |
| PostcodeSearch.DuplicateRowIgnored | FinalProject.py:101-107 | adding a row whose postcode is already present leaves the count unchanged |
| Seqs.Dedup | FinalProject.py:101-104 | the list of first occurrences holds no duplicate, has exactly the elements of the input, and is no longer than it |
| Seqs.DedupFirstOccurrenceOrder | FinalProject.py:101-104 | an element listed earlier in the de-duplicated list first occurs earlier in the input |
| Seqs.DedupCard | FinalProject.py:101-104 | the de-duplicated list is as long as the set of distinct input elements |
| Seqs.NoDupCard | FinalProject.py:105-106 | a duplicate-free list has as many distinct elements as entries, so its length counts distinct values |
| Seqs.TallyDedupSum | FinalProject.py:82-83 | the occurrence counts of all distinct elements add up to the length of the input |
| Scenarios.CamdenWestminsterCounts | FinalProject.py:70-71 | with authorities Camden, Camden, Westminster, counting [Camden, Westminster] gives [2, 1] and counting [Camden, Camden] gives [2, 2] |
| Scenarios.WestminsterSelection | FinalProject.py:64-67 | in that table, choosing Westminster keeps only its third row |
| Scenarios.RedLionTopName | FinalProject.py:81-85 | with names Red Lion, Red Lion, Crown, the top-1 ranking is Red Lion with count 2 |
| Scenarios.DuplicatePostcodesCollapse | FinalProject.py:100-107 | with postcodes AB1 2CD, AB1 2CD, XY9 8ZT, searching AB1 counts 1 |

## Left out

- `read_data` (FinalProject.py:23-32): reading the CSV file, Streamlit caching and numeric coercion of the coordinates are I/O and library code; the table is a parameter instead.
- Latitude and longitude: nothing in the modelled operations computes with them, so `Pub` omits them.
- `create_map` (FinalProject.py:35-55): map rendering and the floating-point mean of the coordinates.
- `pie_chart`, `pubs_bar_chart`, `code_bar_chart` (FinalProject.py:74-116): drawing only.
- `main` (FinalProject.py:120-181): page layout and widgets. The filter and the counter run on every draw of the Charts view (FinalProject.py:153, 159-160); that call pattern is covered by `CountOnFilteredTable`. `len(authority) > 0` (line 161) only decides whether the pie chart is drawn. `numPubs > 0` (lines 169-170) and `search != ''` (lines 177-178) decide whether `count_names` and `count_postcodes` are called at all. The model also covers the inputs these guards exclude: `CountNames` with `numPubs` 0 gives an empty ranking, and `EmptyCodeCountsDistinct` states the count for the empty search string.
- NameRanking.CountNames: the order among names of equal count is not stated, because pandas leaves it to its sort implementation; the model itself uses first-occurrence order.
- NameRanking.CountNames: `numPubs` is a natural number; a negative value would slice from the end, and the slider never produces one (minimum 0 at FinalProject.py:166).
- Missing values: pandas drops NaN names from `value_counts`, and `code in s` raises on a NaN postcode; every field is modelled as a plain string.
- PostcodeSearch.CountPostcodes: the loop reads `df['postcode'][ind]` by index label; the model assumes the labels are unique, so the loop visits each row once in table order.
- Counts are unbounded naturals; pandas' 64-bit counts cannot overflow for any table that fits in memory.
