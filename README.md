# MLB-Predictor dataset parser, modelled in Dafny

This project models `MLBParser` from `datasetutils.py`, the class that loads
the MLB game table and prepares it for the prediction models. It covers:

- the construction of the parser;
- the default preprocessing of the table;
- `get_raw_df` and `get_game_info`;
- the seven accessors that select groups of columns. Their names are built
  from templates over the hosts (`home`, `away`) and, for most of them, over
  the statistic kinds (`mean`, `std`, `skew`).

Files and modules:

- `frames.dfy` (module `Frames`): the tabular layer the parser uses. A table
  is a list of column names plus a list of rows. Each row has an index label
  and a map from column name to cell, and a missing cell is `None`. The
  module also models the table operations the parser calls: column
  selection, `drop`, `+= 0`, the code lookup `map(lambda x: codes[x])` and
  `dropna`, each with its error cases.
- `column_names.dfy` (module `ColumnNames`): the name templates and the
  lists the accessors build. Lemmas place every name in those lists and give
  their lengths.
- `preprocessing.dfy` (module `Preprocessing`): the default preprocessing,
  step by step as a method (`Preprocess`), and beside it the function that
  specifies it (`CleanWith`). Lemmas cover:
  - when it fails, and with which error;
  - the columns and rows of its result;
  - the 0/1 flags;
  - the team and pitcher code mappings;
  - the absence of missing cells afterwards.
- `mlb_parser.dfy` (module `Parser`): the `MLBParser` class with its `raw`
  and `dataframe` fields, its construction and its accessors. Each accessor
  builds its column list with the same loops as the source and is proved to
  select the list that `ColumnNames` describes.

The codes given to teams and pitchers depend on the order in which a Python
set lists its elements, so the model leaves that order open:

- `Enumerate` lists a set in any order.
- `Preprocess` returns the orders it used.
- `ValidOrders` says which orders are possible.
- Every property of the result is proved for all valid orders.

In the model the two fields are constants holding table values, and no
method of the class changes them. Each accessor's result is stated as a
function of `raw` and its arguments (`Select(raw, …)`). The Python class
hands out its own mutable DataFrame instead; see `GetRawDf` under "Left out".

## Model

| member | source | states |
|---|---|---|
| Parser.MLBParser.Load | datasetutils.py:13-18 | Without an override, construction succeeds exactly when the default preprocessing can run on the table. On failure it carries the first failing step's error. On success the stored `dataframe` is the preprocessing's outcome for some valid set orders. With an override, `dataframe` is the override applied to the raw table. In both cases `raw` is the table passed in. |
| Parser.MLBParser.constructor | datasetutils.py:13-18 | Stores the raw table and its processed form. |
| Parser.MLBParser.GetRawDf | datasetutils.py:52-53 | Returns the stored raw table. |
| Parser.MLBParser.GetGameInfo | datasetutils.py:55-63 | Fails exactly when one of the six game columns is absent, naming the absent ones. Otherwise returns those six columns in the listed order, with every row's index and cells kept. |
| Parser.MLBParser.GetTeamPitcherRest | datasetutils.py:65-75 | The loop selects the per-host list of `{h}_team_rest`, `{h}_pitcher_rest` (see `ColumnNames.HostColumns`), `2*len(hosts)` columns. |
| Parser.MLBParser.GetPitcherInfo | datasetutils.py:77-84 | The loop selects `{h}_pitcher` per host, `len(hosts)` columns. |
| Parser.MLBParser.GetRecentPerform | datasetutils.py:86-107 | The loop selects the thirteen `_10RA` names per host in their listed order, `13*len(hosts)` columns. |
| Parser.MLBParser.GetTeamSeasonalStatistic | datasetutils.py:109-123 | The nested loops select the team-seasonal list (see `ColumnNames.TeamSeasonalLayout`), `len(hosts)*(1+3*len(statis))` columns. |
| Parser.MLBParser.GetSeasonalBattle | datasetutils.py:125-141 | The nested loops select the six batting names per host and statistic, hosts outermost, `len(hosts)*len(statis)*6` columns. |
| Parser.MLBParser.GetTeamSeasonalPitching | datasetutils.py:143-159 | As above, for the six team-pitching names. |
| Parser.MLBParser.GetPitcherSeasonalPerform | datasetutils.py:161-177 | As above, for the six starting-pitcher names. |
| ColumnNames.HostColumns | datasetutils.py:69-74 | The list built over the hosts has `len(hosts)*len(suffixes)` names, and name `k` of host number `i` is `hosts[i] + suffixes[k]`. A repeated host repeats its block. |
| ColumnNames.StatLayout | datasetutils.py:132-140 | For one host, the block of statistic `j` holds `{h}{infix}{statis[j]}` for each infix in order, statistics in order. |
| ColumnNames.HostStatLayout | datasetutils.py:130-140 | Hosts outermost, statistics inside, infixes innermost: name `(i, j, k)` is `hosts[i] + infixes[k] + statis[j]`, at its block position. |
| ColumnNames.HostStatLength | datasetutils.py:130-140 | That list has `len(hosts)*len(statis)*len(infixes)` names. |
| ColumnNames.TeamSeasonalLayout | datasetutils.py:114-122 | Each host block starts with `{h}_team_season`, followed per statistic by the errors, spread and wins names with that statistic. |
| ColumnNames.TeamSeasonalLength | datasetutils.py:114-122 | The team-seasonal list has `len(hosts)*(1+3*len(statis))` names. |
| ColumnNames.TeamSeasonalAppend | datasetutils.py:115-122 | One more host appends exactly its own block. |
| ColumnNames.TeamSeasonalOneHostExample | datasetutils.py:109-123 | For one host `h` and `statis=['mean','std']`, the seven names in full, season name first. |
| ColumnNames.TeamSeasonalExample | datasetutils.py:109-123 | For two hosts (such as `home`, `away`) and `['mean','std']`, the fourteen names in full: the first host's block, then the second's. |
| Frames.ColumnList | datasetutils.py:38 | `df[col].tolist()` fails with a `KeyError` naming the column exactly when it is absent. Otherwise it lists that column's cell of every row, in row order. |
| Frames.Select | datasetutils.py:56-63 | Selecting a name list fails exactly when a name is absent, naming the absent ones. Otherwise the columns are the list in its order, and every row keeps its place, its index and its cells. |
| Frames.Drop | datasetutils.py:32 | Fails exactly when a name to drop is absent. Otherwise the remaining columns keep their order and every row keeps its index and its cells. |
| Frames.AddZero | datasetutils.py:34-35 | `+= 0` fails on an absent column or one holding text. Otherwise booleans become 0 or 1, every other cell stays, and no other column changes. |
| Frames.Recode | datasetutils.py:40-41 | Rewriting a column through a mapping fails when a cell has no entry. Otherwise every cell of that column becomes its code, and no other column changes. |
| Frames.KeepComplete | datasetutils.py:49 | The kept rows are exactly the rows without a missing cell. |
| Frames.KeepCompleteAppend | datasetutils.py:49 | Filtering keeps the rows in their order: the filter of a concatenation is the concatenation of the filters. |
| Frames.DropNA | datasetutils.py:49 | Same columns; the rows are exactly the complete input rows, and none has a missing cell. |
| Preprocessing.Enumerate | datasetutils.py:38-39 | Lists every element of a set exactly once, in some order. |
| Preprocessing.EnumerationLength | datasetutils.py:38-39 | Such a listing is as long as the set. |
| Preprocessing.CodeMap | datasetutils.py:39 | The dictionary's keys are exactly the listed values, and every code lies in `0..len-1`. |
| Preprocessing.CodeMapPositions | datasetutils.py:39 | Over a listing without repeats, the element at position `i` gets code `i`. |
| Preprocessing.CodeMapBijection | datasetutils.py:38-39 | Over a listing of the distinct values, the code mapping is a bijection from those values onto `0..N-1`. |
| Preprocessing.DistinctValues | datasetutils.py:38 | The set holds every cell of both columns and nothing else. |
| Preprocessing.EncodePair | datasetutils.py:37-41 | One code-mapping block succeeds exactly when both columns exist. Its order lists the distinct values of both columns, and its outcome is the specified block for that order. |
| Preprocessing.Flagged | datasetutils.py:26-35 | On success the drop and the two `+= 0` steps leave the raw columns without the eight unused ones, and as many rows as before. |
| Preprocessing.CodePair | datasetutils.py:37-47 | One code-mapping block fails with a `KeyError` naming the first column when it is absent, then the second. On success the columns and the number of rows are unchanged. |
| Preprocessing.Coded | datasetutils.py:26-47 | On success all steps before `dropna` leave the raw columns without the unused ones, and as many rows as before. |
| Preprocessing.CleanWith | datasetutils.py:20-50 | The whole preprocessing succeeds exactly when the steps before `dropna` do. On success its columns are the raw columns without the unused ones, and no row has a missing cell. |
| Preprocessing.Preprocess | datasetutils.py:20-50 | The step-by-step preprocessing on a copy of the table yields the specified outcome for the set orders it used, and those orders are valid listings. |
| Preprocessing.FlaggedOutcome | datasetutils.py:26-35 | The drop and the two `+= 0` steps succeed exactly when the unused and flag columns are present and the flags hold no text. Otherwise they fail with the first step's error, in source order. |
| Preprocessing.CleanOutcome | datasetutils.py:20-50 | The preprocessing succeeds exactly when those conditions hold and the four team and pitcher columns exist. Otherwise it fails with the first step's error, in source order. |
| Preprocessing.CleanResult | datasetutils.py:20-50 | On success, the columns are the raw columns without the eight unused ones, in their order. The rows are the raw rows cleaned one by one, of which exactly the complete ones remain, in order. |
| Preprocessing.FlaggedCells | datasetutils.py:29-35 | After the first three steps, the flag cells are the raw ones as numbers and every other kept cell is unchanged. |
| Preprocessing.CodePairCells | datasetutils.py:38-47 | A code-mapping block encodes its two columns with one mapping and leaves every other column as it was. |
| Preprocessing.EncodeColumns | datasetutils.py:38-41 | Every cell of either column gets a number below the count of distinct values, and two cells get equal codes exactly when they are equal. |
| Preprocessing.TeamCodes | datasetutils.py:38-41 | In the cleaned rows both team columns hold codes below the number of distinct teams. Equal codes, across rows and across the two columns, mean equal abbreviations and the converse. |
| Preprocessing.PitcherCodes | datasetutils.py:43-47 | The same for the two pitcher columns, with their own mapping. |
| Preprocessing.OutputRowOrigin | datasetutils.py:20-50 | Every row of the result is one of the raw rows, cleaned. |
| Preprocessing.TeamCodesInResult | datasetutils.py:38-49 | On the rows of the result, each team cell holds a code below the number of distinct teams. Two team cells of result rows, in either column, are equal exactly when the raw abbreviations of the rows they came from were equal. |
| Preprocessing.PitcherCodesInResult | datasetutils.py:44-49 | The same on the rows of the result for the two pitcher columns, with their own mapping. |
| Preprocessing.CleanComplete | datasetutils.py:49-50 | No row of the result has a missing cell, and every row has a cell for exactly the kept columns. |
| Preprocessing.FlagValues | datasetutils.py:34-49 | A flag column holding only booleans and missing cells holds only 0 and 1 afterwards. |
| Preprocessing.FlagCell | datasetutils.py:34-35 | A flag cell `False` is cleaned to 0 and `True` to 1; a missing cell stays missing, and any other cell stays as it was. |
| Preprocessing.CodedCell | datasetutils.py:26-47 | Before `dropna`, each kept cell is the raw cell cleaned by its column's rule. |
| Preprocessing.CodePairSucceeds | datasetutils.py:38-41 | Codes built over the listing of the two columns' values cover every cell, so the lookups never fail. |

## Left out

- Reading the CSV file (`pd.read_csv`) is not modelled. The raw table is an input of `Load`.
- pandas dtypes, index objects and the element-wise `map` are modelled only by their effect on the table's cells.
- Floating-point statistics are opaque values (`Num`). Nothing computes with them.
- The concrete code each team or pitcher receives is not modelled. It depends on Python's set iteration order, which the model leaves open; only the bijection and the shared mapping are stated.
- A missing team or pitcher cell is one more distinct value (`None`) in the code mapping. Such a cell gets a code and is no longer missing when `dropna` runs. This treats pandas' missing-value marker as a single value that is equal to itself. NaN identity quirks are not modelled.
- GetRawDf: returns the stored table as a value. In Python it returns the parser's own DataFrame, and `dataframe` is a public attribute, so a caller that mutates either changes what later calls on the parser see. The model does not capture that aliasing; its tables cannot be changed in place.
- Load: the override `preprocessing` is typed `Table -> Table`. In Python it may return anything, even a string. It also cannot change the raw table here, because tables are values.
- Exception messages are not modelled. A failure is one of three error kinds:
  - `KeyError`, carrying the missing column names;
  - `TypeError`, for text in a flag column;
  - `LookupError`, for a value with no code. This one stands for the dictionary's own `KeyError`.
- The `testing.py` script is not part of this model.
