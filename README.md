# OWID COVID-19 collection and loading, modelled in Dafny

The pipeline has two batch stages that meet in a directory of archive files.

- **Collector** (`src/collect/fetch_owid.py`): for each configured source it:
  - downloads a CSV and computes its SHA-256;
  - rejects payloads under 1000 bytes or whose first rows do not parse;
  - saves the payload as `DATA_DIR/{name}_{YYYYMMDD_HHMMSS}.csv`;
  - profiles the saved file.

  It then appends one line per successful source to `collect_history.csv`, writing the header only when the file is new.
- **Loader** (`src/etl/etl_load.py`): it:
  - takes the greatest file name in `DATA_DIR` that starts with `owid_covid_data` and ends with `.csv`;
  - drops and recreates the `locations` and `covid_stats` tables;
  - keeps the rows that have an `iso_code` and a `date`, and rewrites each date as `YYYY-MM-DD`;
  - projects the 18 location columns, de-duplicated on `iso_code` keeping the first row;
  - projects the remaining columns as the time series;
  - appends both frames to SQLite.

Modules:

| file | module | what it holds |
|---|---|---|
| `wrappers.dfy` | `Wrappers` | `Option`, `Result` |
| `text.dfy` | `Text` | Python's string order (code-point lexicographic), zero-padded fields, decimal text, SQLite's case-insensitive identifier comparison |
| `paths.dfy` | `Paths` | POSIX `os.path.join` and `basename`; `DATA_DIR` |
| `seqs.dfy` | `Seqs` | order-preserving filter; keep-first de-duplication on a key; the values of a list of optional results |
| `clock.dfy` | `Clock` | civil date-times; the `%Y%m%d_%H%M%S` stamp and the `%Y-%m-%d` date, with their order lemmas |
| `collect.dfy` | `FetchOwid` | the collector; the file system it touches is the class `Disk` |
| `etl.dfy` | `EtlLoad` | the loader; the SQLite database is the class `Database`, a map from table name to table |
| `handoff.dfy` | `Handoff` | the link between the stages: collector archives are what the loader looks for, and the one with the later wall-clock stamp wins |

Library calls and the environment are inputs:
- **Collector:** each source's download result, its save-time clock reading and whether the file write succeeds come in an `Attempt`. `read_csv(nrows=10)`, the full `read_csv` and SHA-256 are functions in an `Env`.
- **Loader:** `read_csv` is a partial function from path to frame, and `to_datetime` a partial function from text to calendar date.

Three consequences of the code that the model keeps as they are:
- A row whose date is present but does not parse is kept, with a missing date, because the null filter (line 116) runs before the date conversion (line 117). Loading dated observations only would need the filter after the conversion (`EtlLoad.UnparsedDateRowKept`).
- `iso_code` is one of the location columns, so the stats projection (line 130) never contains it. SQLite matches column names whatever their ASCII letter case. Unless the archive has another column spelled `iso_code` up to case (say `ISO_CODE`), every `covid_stats` row therefore stores NULL as its country code (`EtlLoad.LoadedStatsCodes`). Observation rows then reference no location row, and a join of `covid_stats` with `locations` on `iso_code` matches nothing.
- A failing `locations` append raises and ends `load_data`, so `covid_stats` is then not attempted. A failing `covid_stats` append leaves the `locations` rows already written (`EtlLoad.Store`).

## Model

| member | source | states |
|---|---|---|
| Clock.StampShape | src/collect/fetch_owid.py:40-43 | the stamp is 15 characters: digits, with `_` at index 8 |
| Clock.Stamp | src/collect/fetch_owid.py:40-43 | `strftime("%Y%m%d_%H%M%S")` of a Paris reading; its shape is StampShape, its order StampOrder |
| Clock.IsoDate | src/etl/etl_load.py:117 | `strftime("%Y-%m-%d")` of a parsed date; its shape is IsoDateShape, its order and injectivity IsoDateOrder |
| Clock.StampOrder | src/collect/fetch_owid.py:43 | stamp text order equals wall-clock reading order; distinct readings give distinct stamps |
| Clock.IsoDateShape | src/etl/etl_load.py:117 | a normalised date is 10 characters, `-` at indices 4 and 7, digits elsewhere |
| Clock.IsoDateOrder | src/etl/etl_load.py:117 | normalised date text sorts like the dates; distinct dates give distinct text |
| Text.LexLeTotal | src/etl/etl_load.py:16 | any two names are comparable in the sort order |
| Text.LexLeAntisymmetric | src/etl/etl_load.py:16 | names that sort both ways are equal |
| Text.LexLeTransitive | src/etl/etl_load.py:16 | the sort order is transitive |
| Text.PadOrder | src/collect/fetch_owid.py:43 | zero-padded fields of one width compare as their numbers do; equal text iff equal numbers |
| Text.SameIdentLower | src/etl/etl_load.py:134-135 | names without ASCII upper-case letters name the same SQLite column iff they are equal |
| Text.FoldCaseIdempotent | src/etl/etl_load.py:134-135 | folding case twice changes nothing more; a name and its folded form name the same column |
| Text.DecimalRoundTrip | src/collect/fetch_owid.py:130-131 | the row and column counts written to the history read back as the same numbers |
| Paths.Join | src/collect/fetch_owid.py:66 | an absolute second part replaces the first; otherwise the path starts with the directory and ends with the name |
| Paths.BasenameOfJoin | src/collect/fetch_owid.py:66 | a slash-free name joined to a directory is that path's base name |
| FetchOwid.ValidateCsvBytes | src/collect/fetch_owid.py:53-62 | under 1000 bytes: False, and the parser is not consulted; otherwise True iff the 10-row parse succeeds |
| FetchOwid.ArchiveName | src/collect/fetch_owid.py:65-66 | `{name}_{stamp}.csv`; laid out as ArchiveNameShape says, ordered as Handoff.ArchiveNameOrder says |
| FetchOwid.SavePath | src/collect/fetch_owid.py:64-66 | `DATA_DIR` joined with the archive name; its base name is the archive name (Handoff.SavedFileName) |
| FetchOwid.ArchiveNameShape | src/collect/fetch_owid.py:64-66 | the archive name is the source name, `_`, the 15-character stamp and `.csv` |
| FetchOwid.QuickProfile | src/collect/fetch_owid.py:71-81 | `rows` and `cols` are the frame's; `has_date`/`has_location` iff that column exists; the sample is the first min(10, n) labels |
| FetchOwid.Outcome | src/collect/fetch_owid.py:89-111 | one pass of the loop body as a value: the record or none; characterised by OutcomeSucceeds and OutcomeRecord |
| FetchOwid.Collected | src/collect/fetch_owid.py:86-111 | the records of the loop; per-source split by CollectedAppend, positions and order by CollectedFromSources |
| FetchOwid.Archived | src/collect/fetch_owid.py:88-111 | the archive files after the loop; its paths are ArchivedPaths, one pass's effect LoopStep |
| FetchOwid.WrittenPaths | src/collect/fetch_owid.py:88-111 | pass i's entry is its save path when its payload downloaded, validated and was written, and none otherwise |
| FetchOwid.ArchivedPaths | src/collect/fetch_owid.py:88-111 | after the loop the archive holds exactly the files there before plus the save path of every pass that wrote its payload: a failed pass adds or removes nothing |
| FetchOwid.HistoryAfter | src/collect/fetch_owid.py:116-132 | the history after the append; its layout is HistoryLayout, its lines HistoryRowFields |
| FetchOwid.OutcomeSucceeds | src/collect/fetch_owid.py:88-111 | a source yields a record iff download, size and parse check, file write and profile read all succeed |
| FetchOwid.OutcomeRecord | src/collect/fetch_owid.py:92-108 | the record holds the source name, the save path, the payload's digest and the profile of the saved bytes |
| FetchOwid.OutcomesAt | src/collect/fetch_owid.py:88 | entry i of the per-source outcomes is what source i yields on its own attempt |
| FetchOwid.CollectedRecordSource | src/collect/fetch_owid.py:88-108 | record k is what the source at position `SomePositions(...)[k]` yields on its own attempt |
| FetchOwid.LoopStep | src/collect/fetch_owid.py:88-111 | one more pass adds exactly that source's record, if any, to `results`, and that source's file to the archive |
| FetchOwid.CollectedAppend | src/collect/fetch_owid.py:88-111 | the records of a run over `s + t` are those of `s` followed by those of `t`: a failure never affects later sources |
| FetchOwid.CollectedFromSources | src/collect/fetch_owid.py:88-111 | record k is the outcome of the source at position `SomePositions(...)[k]`; those positions strictly increase (one record per source, in source order), and every source that yields a record is among them |
| FetchOwid.HistoryRowFields | src/collect/fetch_owid.py:124-131 | history line k carries record k's name, path and digest, and counts that read back as its profile's rows and cols |
| FetchOwid.HistoryLayout | src/collect/fetch_owid.py:116-132 | old lines are kept as a prefix; the header is written iff the file is new; one line per record follows, in order |
| FetchOwid.SaveBytesToFile | src/collect/fetch_owid.py:64-69 | the file at `DATA_DIR/{name}_{stamp}.csv` holds exactly the bytes, and that path is returned; a failed write returns OSError and changes nothing |
| FetchOwid.QuickProfileCsv | src/collect/fetch_owid.py:71-81 | the profile of the stored file's contents; none when the file is missing or does not parse |
| FetchOwid.CollectSource | src/collect/fetch_owid.py:89-111 | one pass returns the source's outcome, and writes the archive file exactly when the payload validated and the write succeeded |
| FetchOwid.AppendHistory | src/collect/fetch_owid.py:116-132 | the history becomes its old lines (or the header) followed by one line per record |
| FetchOwid.CollectAll | src/collect/fetch_owid.py:83-132 | `results` are the records of the sources in order; the archive gains each validated, written payload; the history gains the records' lines |
| EtlLoad.Latest | src/etl/etl_load.py:16-19 | the chosen name is a candidate and no candidate sorts after it |
| EtlLoad.LatestUnique | src/etl/etl_load.py:16-19 | a candidate that no other candidate sorts after is Latest: the maximum is unique |
| EtlLoad.SortedDescHeadIsLatest | src/etl/etl_load.py:16-19 | every descending arrangement of the candidates, as `sort(reverse=True)` produces, starts with Latest |
| EtlLoad.GetLatestCsv | src/etl/etl_load.py:14-19 | FileNotFoundError iff no entry both starts with `owid_covid_data` and ends with `.csv`; otherwise `DATA_DIR` joined with a matching entry that no matching entry sorts after |
| EtlLoad.Missing | src/etl/etl_load.py:116 | empty iff every required column exists; it lists exactly the required columns that are absent, as pandas' KeyError names them |
| EtlLoad.MissingInOrder | src/etl/etl_load.py:116-127 | the absent columns keep the order of the required list: those of `w1 + w2` are those of `w1`, then those of `w2` |
| EtlLoad.DropNa | src/etl/etl_load.py:116 | columns unchanged; every kept row has `iso_code` and `date`; kept rows are input rows; every input row with both is kept |
| EtlLoad.DropNaKeepsOrder | src/etl/etl_load.py:116 | filtering rows `s + t` keeps those of `s`, then those of `t`: source order is kept |
| EtlLoad.NormalizeDates | src/etl/etl_load.py:117 | columns and row count unchanged; cells other than `date` unchanged; a date stays present iff it was present and parses, and it is then `%Y-%m-%d` of that row's parsed date |
| EtlLoad.NormalizedDatesCanonical | src/etl/etl_load.py:117 | every date left is 10 characters, `-` at indices 4 and 7 and digits elsewhere; two rows hold the same date text iff their original dates parse to the same day |
| EtlLoad.UnparsedDateRowKept | src/etl/etl_load.py:116-117 | a kept row whose date does not parse stays at its position with its country code and a missing date |
| EtlLoad.CleanedRows | src/etl/etl_load.py:116-117 | cleaning keeps the columns, gives one row per row with both values, and keeps each row's (present) country code |
| EtlLoad.DedupeLocationsSpec | src/etl/etl_load.py:127 | the codes kept are pairwise distinct and are exactly the codes seen, so the count is the number of distinct codes |
| EtlLoad.DedupeLocationsKeepsFirst | src/etl/etl_load.py:127 | each kept row is the first row with its code; the rows kept from any prefix of the input are a prefix of the result (first-occurrence order); de-duplicating again changes nothing |
| EtlLoad.StatCols | src/etl/etl_load.py:130 | a column is a stats column iff it is a frame column outside `loc_cols`; `iso_code` is not one |
| EtlLoad.StatColsSecondTestRedundant | src/etl/etl_load.py:130 | the `continent`/`location`/`population` exclusion removes nothing beyond `loc_cols` |
| EtlLoad.StatColsKeepOrder | src/etl/etl_load.py:130 | stats columns keep frame order |
| EtlLoad.LocationFrameSpec | src/etl/etl_load.py:120-127 | the location frame has the 18 `loc_cols`, distinct codes, and one row per distinct code |
| EtlLoad.LocationFrameCodesPresent | src/etl/etl_load.py:127 | when every cleaned row has a code, every location row has one |
| EtlLoad.StatsFrameSpec | src/etl/etl_load.py:130-131 | the stats frame has the stats columns and one row per cleaned row, and no row has a country code |
| EtlLoad.Transform | src/etl/etl_load.py:116-131 | clean, project and split a parsed frame; its failures are TransformFails, its success shape TransformSplit |
| EtlLoad.TransformFails | src/etl/etl_load.py:113-127 | KeyError iff `iso_code`, `date` or a location column is absent; it names exactly the absent key columns, or, when both keys exist, exactly the absent location columns |
| EtlLoad.TransformSplit | src/etl/etl_load.py:116-131 | on success: 18 location columns, one row per distinct present code; one stats row per kept row, with no country code |
| EtlLoad.Unknown | src/etl/etl_load.py:134-135 | empty iff every frame column names a table column up to ASCII case; it lists exactly the frame columns that name none |
| EtlLoad.UnknownInOrder | src/etl/etl_load.py:134-135 | the unknown columns keep frame order, so the first is the first unknown column of the frame |
| EtlLoad.FirstMatch | src/etl/etl_load.py:134-135 | the first frame column that names a table column up to case; none iff no frame column does |
| EtlLoad.InsertedCell | src/etl/etl_load.py:134-135 | a table column that exactly one frame column names, up to case, stores that column's value |
| EtlLoad.InsertedAbsent | src/etl/etl_load.py:134-135 | a table column that no frame column names, up to case, stores NULL |
| EtlLoad.AppendFrame | src/etl/etl_load.py:134-135 | one `to_sql(if_exists="append")`; its guarantees are CreateOnAppend, AppendOnly, and after a reset LocationsAppendAfterReset and StatsAppendAfterReset |
| EtlLoad.CreateOnAppend | src/etl/etl_load.py:134-135 | a missing table is created from the frame; this fails (OperationalError) iff two frame columns are equal up to case, and otherwise the table has the frame's columns, no key and each row's values |
| EtlLoad.AppendOnly | src/etl/etl_load.py:134-135 | an append keeps the table's columns, key and old rows as a prefix and adds one row per frame row; a frame with no rows leaves the table as it is; otherwise it fails iff a frame column names no table column, up to ASCII case, or a primary key repeats |
| EtlLoad.LocationColumnsMatchSchema | src/etl/etl_load.py:30-49 | `loc_cols` are the `locations` table's columns in the same order |
| EtlLoad.SchemaReset | src/etl/etl_load.py:25-108 | the tables after `create_schema`; stated by SchemaResetSpec |
| EtlLoad.SchemaResetSpec | src/etl/etl_load.py:25-108 | after the reset both tables exist, are empty and have the declared columns; other tables are unchanged |
| EtlLoad.Store | src/etl/etl_load.py:134-135 | append locations, then stats, stopping at the first error; after a reset, StoreAfterReset |
| EtlLoad.LoadOutcome | src/etl/etl_load.py:111-138 | `load_data` on the tables: ParserError, a transform failure, or Store of the split; after a reset, LoadAfterReset |
| EtlLoad.LocationsAppendAfterReset | src/etl/etl_load.py:134 | appending the de-duplicated location frame to the fresh `locations` table always succeeds |
| EtlLoad.StatsAppendAfterReset | src/etl/etl_load.py:135 | appending to the fresh `covid_stats` table fails (OperationalError) iff the frame has rows and a column that names no table column, up to case (a frame column `id` counts as such: see Left out); otherwise the table holds the frame's rows as inserted |
| EtlLoad.MixedCaseColumnStored | src/etl/etl_load.py:135 | a frame with `date` and `ISO_CODE` appends to the fresh `covid_stats` table, and the `ISO_CODE` value lands in `iso_code` |
| EtlLoad.StoreAfterReset | src/etl/etl_load.py:134-135 | into fresh tables the location rows always go in with unique codes; the stats rows go in unless the stats frame has rows and a column that names no `covid_stats` column up to case (`id` counts as such: see Left out) |
| EtlLoad.StoredKeepsMissing | src/etl/etl_load.py:135 | a table column that no frame column names, up to case, is NULL in every stored row |
| EtlLoad.LoadAfterReset | src/etl/etl_load.py:111-138 | after the reset: one `locations` row per distinct code; one `covid_stats` row per kept row; failure iff some row survives the null filter and a stats column names no `covid_stats` column up to case (`id` counts as such: see Left out) |
| EtlLoad.LoadedStatsCodes | src/etl/etl_load.py:120-135 | each stored observation's `iso_code` is the value of the first stats column spelled `iso_code` up to case; with no such column, every `covid_stats` row has a NULL code |
| EtlLoad.CreateSchema | src/etl/etl_load.py:21-109 | the tables become the reset schema: both dropped, then created empty |
| EtlLoad.ToSql | src/etl/etl_load.py:134-135 | a successful append reports the frame's row count and replaces the table; a failed one changes nothing |
| EtlLoad.LoadData | src/etl/etl_load.py:111-138 | the tables and result are those of reading, transforming, and appending locations then stats |
| EtlLoad.RunLoader | src/etl/etl_load.py:159-164 | no archive: FileNotFoundError and no change; otherwise reset, then load the newest archive |
| Handoff.ArchiveNameOrder | src/collect/fetch_owid.py:66 | one source's archive names sort like their wall-clock save readings; distinct readings give distinct names |
| Handoff.SourceArchiveIsFound | src/etl/etl_load.py:15 | a source named with the `owid_covid_data` prefix produces names the loader accepts |
| Handoff.ConfiguredArchivesAreFound | src/collect/fetch_owid.py:36-38 | the configured source's archives are found by the loader |
| Handoff.SavedFileName | src/collect/fetch_owid.py:66 | the saved file's base name is the archive name |
| Handoff.NewestArchiveIsLocated | src/etl/etl_load.py:14-19 | when the listed archives are one source's, the loader opens the file whose save reading is the latest wall-clock reading |
| Handoff.LaterOfTwoIsLocated | src/etl/etl_load.py:14-19 | of two archives of one source, the loader picks the one with the later wall-clock reading |

## Left out

- The HTTP download (`requests`, 60-second timeout, status check): each source's download is an input, present or absent.
- SHA-256: an uninterpreted function whose result is 64 lower-case hexadecimal digits.
- pandas parsing:
  - The collector's two `read_csv` calls are functions from bytes to a success flag and to a shape.
  - The loader's `read_csv` is a partial function from a path to a frame of text values; type inference and float values are not modelled.
  - `to_datetime` is a partial function from text to a calendar date.
- The time zone lookup and the clock: times are Paris wall-clock readings passed in. Years are limited to 1000–9999, so that `%Y` is four digits.
- EtlLoad.StatsAppendAfterReset: `covid_stats` is modelled without its `id INTEGER PRIMARY KEY AUTOINCREMENT` column (etl_load.py:55), so a frame column named `id` (in any case) is reported as unknown (OperationalError); so are the rowid aliases `rowid`, `oid` and `_rowid_`, which SQLite would accept. SQLite would store distinct integer ids and reject other values with IntegrityError. Values are text in this model, so which ids SQLite accepts cannot be stated.
- EtlLoad.StoreAfterReset: the same `id` gap; its failure condition counts a stats column named `id` as unknown.
- EtlLoad.LoadAfterReset: the same `id` gap; an archive with an `id` column fails here with OperationalError whenever a row survives the null filter.
- Handoff.NewestArchiveIsLocated: "latest" means the latest Paris wall-clock reading, not the last save. In the hour repeated when the clocks go back, a later save can carry a smaller stamp, so the loader then picks an older file. Two saves of one source with the same reading write the same path, and the second overwrites the first (FetchOwid.SaveBytesToFile).
- Logging, `print`, `os.makedirs`, the elapsed-time measurement and the process exit status.
- CollectAll: does not model a history-file open or write that fails, nor CSV quoting of history fields; a history line is its list of field values.
- SaveBytesToFile: a write either stores all the bytes or raises; partial files are not modelled.
- SQLite:
  - The engine-assigned `id` of `covid_stats` is not a modelled column, and column types and affinity are not modelled.
  - The foreign key is not enforced; SQLite leaves it off by default, and NULL codes satisfy it anyway.
  - An unknown column is reported as the first one in frame order.
  - Column names are compared with ASCII case folding only, as SQLite does; when two frame columns name the same table column, the first one's value is stored.
  - Transactions are per `to_sql` call: a failed append writes nothing.
- `quick_test` and the loader's connection opening and closing: read-only diagnostics and resource handling.
- The directory listing is an input sequence; its order does not affect the choice.
