/**
 * The loading stage: pick the newest archive in DATA_DIR, reset the two
 * tables, keep the rows that have a country code and a date, normalise the
 * dates, and split the columns into a location table (one row per country
 * code) and a time-series table.
 *
 * pandas' CSV reader and date parser are inputs: `read_csv` is a partial
 * function from a path to a frame, `to_datetime` a partial function from
 * text to a calendar date. SQLite is a map from table name to table, each
 * table an ordered column list, an optional primary key and its rows.
 */
module EtlLoad {
  import opened Wrappers
  import opened Text
  import opened Paths
  import opened Clock
  import opened Seqs

  /** The file-name prefix and suffix the loader looks for in DATA_DIR. */
  const ARCHIVE_PREFIX: string := "owid_covid_data"
  const ARCHIVE_SUFFIX: string := ".csv"

  predicate IsArchiveName(f: string)
  {
    StartsWith(f, ARCHIVE_PREFIX) && EndsWith(f, ARCHIVE_SUFFIX)
  }

  datatype LoadError =
    | FileNotFoundError
    | ParserError
    | KeyError(columns: seq<string>)
    | OperationalError(column: string)
    | IntegrityError(key: string)

  /** When `a <= m` and `m <= b`, every element bounded by `a` is bounded by `b`. */
  lemma RaiseBound(s: seq<string>, m: string, b: string)
    requires forall i :: 0 <= i < |s| ==> LexLe(s[i], m)
    requires LexLe(m, b)
    ensures forall i :: 0 <= i < |s| ==> LexLe(s[i], b)
  {
    forall i | 0 <= i < |s| ensures LexLe(s[i], b) {
      LexLeTransitive(s[i], m, b);
    }
  }

  /** The greatest name in code-point order. */
  function Latest(files: seq<string>): (m: string)
    requires files != []
    ensures m in files
    ensures forall i :: 0 <= i < |files| ==> LexLe(files[i], m)
  {
    LexLeRefl(files[0]);
    if |files| == 1 then files[0]
    else
      var m := Latest(files[1..]);
      assert forall i :: 1 <= i < |files| ==> files[i] == files[1..][i - 1];
      LexLeTotal(m, files[0]);
      if LexLe(m, files[0]) then
        RaiseBound(files[1..], m, files[0]);
        files[0]
      else
        m
  }

  /** An element that bounds all the others is the greatest one: the maximum is unique. */
  lemma LatestUnique(files: seq<string>, m: string)
    requires m in files
    requires forall i :: 0 <= i < |files| ==> LexLe(files[i], m)
    ensures m == Latest(files)
  {
    var l := Latest(files);
    LexLeAntisymmetric(l, m);
  }

  /** `files.sort(reverse=True); files[0]`: any descending arrangement of the names starts with Latest. */
  lemma SortedDescHeadIsLatest(files: seq<string>, sorted: seq<string>)
    requires files != []
    requires multiset(sorted) == multiset(files)
    requires forall i, j :: 0 <= i < j < |sorted| ==> LexLe(sorted[j], sorted[i])
    ensures sorted != [] && sorted[0] == Latest(files)
  {
    assert files[0] in multiset(sorted);
    assert sorted[0] in multiset(files);
    forall i | 0 <= i < |files| ensures LexLe(files[i], sorted[0]) {
      assert files[i] in multiset(sorted);
      var k :| 0 <= k < |sorted| && sorted[k] == files[i];
      if k == 0 { LexLeRefl(sorted[0]); }
    }
    LatestUnique(files, sorted[0]);
  }

  /** `get_latest_csv`: DATA_DIR joined with the greatest matching name, FileNotFoundError when none matches. */
  function GetLatestCsv(projectRoot: string, entries: seq<string>): (r: Result<string, LoadError>)
    ensures r.Failure? <==> forall f :: f in entries ==> !IsArchiveName(f)
    ensures r.Failure? ==> r.error == FileNotFoundError
    ensures r.Success? ==> exists f :: (f in entries && IsArchiveName(f) && r.value == Join(DataDir(projectRoot), f) &&
      (forall g :: g in entries && IsArchiveName(g) ==> LexLe(g, f)))
  {
    var files := Filter(entries, IsArchiveName);
    if files == [] then Failure(FileNotFoundError)
    else
      var f := Latest(files);
      assert forall g :: g in entries && IsArchiveName(g) ==> g in files;
      Success(Join(DataDir(projectRoot), f))
  }

  /** A row of a frame or table: column name to value, None for a missing value (NaN / NULL). */
  type Row = map<string, Option<string>>

  function Cell(row: Row, c: string): Option<string>
  {
    if c in row then row[c] else None
  }

  /** A pandas DataFrame: its column labels in order and its rows. */
  datatype Frame = Frame(columns: seq<string>, rows: seq<Row>)

  /** The row restricted to `cols`, a missing value for each column it lacks. */
  function Select(row: Row, cols: seq<string>): (r: Row)
    ensures forall c :: c in r <==> c in cols
    ensures forall c :: c in cols ==> r[c] == Cell(row, c)
  {
    map c | c in cols :: Cell(row, c)
  }

  /** The labels of `wanted` that `have` lacks, in order. */
  function Missing(wanted: seq<string>, have: seq<string>): (r: seq<string>)
    ensures r == [] <==> forall c :: c in wanted ==> c in have
    ensures forall i :: 0 <= i < |r| ==> r[i] in wanted && r[i] !in have
    ensures forall c :: c in wanted && c !in have ==> c in r
  {
    var r := Filter(wanted, c => c !in have);
    assert r != [] ==> r[0] in wanted && r[0] !in have;
    r
  }

  /** The absent labels keep the order of `wanted`: those of `w1 + w2` are those of `w1`, then those of `w2`. */
  lemma MissingInOrder(w1: seq<string>, w2: seq<string>, have: seq<string>)
    ensures Missing(w1 + w2, have) == Missing(w1, have) + Missing(w2, have)
  {
    FilterAppend(w1, w2, c => c !in have);
  }

  /** The columns `dropna(subset=...)` requires and tests. */
  const KEY_COLS: seq<string> := ["iso_code", "date"]

  predicate HasKeyFields(row: Row)
  {
    Cell(row, "iso_code").Some? && Cell(row, "date").Some?
  }

  /** `df.dropna(subset=["iso_code", "date"])`: the rows with both values present, in their order. */
  function DropNa(df: Frame): (r: Frame)
    ensures r.columns == df.columns
    ensures |r.rows| <= |df.rows|
    ensures forall i :: 0 <= i < |r.rows| ==> HasKeyFields(r.rows[i]) && r.rows[i] in df.rows
    ensures forall i :: 0 <= i < |df.rows| && HasKeyFields(df.rows[i]) ==> df.rows[i] in r.rows
  {
    Frame(df.columns, Filter(df.rows, HasKeyFields))
  }

  /** Kept rows stay in source order: filtering the rows of `s + t` keeps those of `s`, then those of `t`. */
  lemma DropNaKeepsOrder(columns: seq<string>, s: seq<Row>, t: seq<Row>)
    ensures DropNa(Frame(columns, s + t)).rows == DropNa(Frame(columns, s)).rows + DropNa(Frame(columns, t)).rows
  {
    FilterAppend(s, t, HasKeyFields);
  }

  /** The date value `to_datetime(errors="coerce").dt.strftime("%Y-%m-%d")` gives: canonical text, or missing. */
  function NormalDate(v: Option<string>, parseDate: string -> Option<Date>): Option<string>
  {
    match v
    case None => None
    case Some(s) => match parseDate(s) case None => None case Some(d) => Some(IsoDate(d))
  }

  /** Line 117: the `date` column overwritten with its normalised value in every row. */
  function NormalizeDates(df: Frame, parseDate: string -> Option<Date>): (r: Frame)
    ensures r.columns == df.columns && |r.rows| == |df.rows|
    ensures forall i, c :: 0 <= i < |r.rows| && c != "date" ==> Cell(r.rows[i], c) == Cell(df.rows[i], c)
    ensures forall i :: 0 <= i < |r.rows| ==>
      (Cell(r.rows[i], "date").Some? <==>
        Cell(df.rows[i], "date").Some? && parseDate(Cell(df.rows[i], "date").value).Some?)
    ensures forall i :: 0 <= i < |r.rows| && Cell(r.rows[i], "date").Some? ==>
      Cell(r.rows[i], "date").value == IsoDate(parseDate(Cell(df.rows[i], "date").value).value)
  {
    Frame(df.columns, seq(|df.rows|, i requires 0 <= i < |df.rows| =>
      df.rows[i]["date" := NormalDate(Cell(df.rows[i], "date"), parseDate)]))
  }

  /**
   * Every date left after normalisation is 10-character `YYYY-MM-DD` text, and two rows
   * hold the same date text exactly when their original dates parse to the same day.
   */
  lemma NormalizedDatesCanonical(df: Frame, parseDate: string -> Option<Date>)
    ensures forall i :: 0 <= i < |NormalizeDates(df, parseDate).rows| && Cell(NormalizeDates(df, parseDate).rows[i], "date").Some? ==>
      var s := Cell(NormalizeDates(df, parseDate).rows[i], "date").value;
      |s| == 10 && s[4] == '-' && s[7] == '-' && forall k :: 0 <= k < 10 && k != 4 && k != 7 ==> IsDigit(s[k])
    ensures forall i, j ::
      (0 <= i < |NormalizeDates(df, parseDate).rows| && 0 <= j < |NormalizeDates(df, parseDate).rows|
       && Cell(NormalizeDates(df, parseDate).rows[i], "date").Some? && Cell(NormalizeDates(df, parseDate).rows[j], "date").Some?) ==>
      (Cell(NormalizeDates(df, parseDate).rows[i], "date") == Cell(NormalizeDates(df, parseDate).rows[j], "date") <==>
        parseDate(Cell(df.rows[i], "date").value) == parseDate(Cell(df.rows[j], "date").value))
  {
    var r := NormalizeDates(df, parseDate);
    forall i | 0 <= i < |r.rows| && Cell(r.rows[i], "date").Some?
      ensures var s := Cell(r.rows[i], "date").value;
        |s| == 10 && s[4] == '-' && s[7] == '-' && forall k :: 0 <= k < 10 && k != 4 && k != 7 ==> IsDigit(s[k])
    {
      IsoDateShape(parseDate(Cell(df.rows[i], "date").value).value);
    }
    forall i, j | 0 <= i < |r.rows| && 0 <= j < |r.rows| && Cell(r.rows[i], "date").Some? && Cell(r.rows[j], "date").Some?
      ensures Cell(r.rows[i], "date") == Cell(r.rows[j], "date") <==>
        parseDate(Cell(df.rows[i], "date").value) == parseDate(Cell(df.rows[j], "date").value)
    {
      IsoDateOrder(parseDate(Cell(df.rows[i], "date").value).value, parseDate(Cell(df.rows[j], "date").value).value);
    }
  }

  /** Dates are normalised after the null filter: a row whose date does not parse is kept, with a missing date. */
  lemma UnparsedDateRowKept(df: Frame, parseDate: string -> Option<Date>, i: nat)
    requires i < |DropNa(df).rows|
    requires parseDate(Cell(DropNa(df).rows[i], "date").value).None?
    ensures |NormalizeDates(DropNa(df), parseDate).rows| == |DropNa(df).rows|
    ensures Cell(NormalizeDates(DropNa(df), parseDate).rows[i], "date").None?
    ensures Cell(NormalizeDates(DropNa(df), parseDate).rows[i], "iso_code") == Cell(DropNa(df).rows[i], "iso_code")
  {
  }

  /** `df[cols]`: every row restricted to `cols`, in the same order. */
  function Project(df: Frame, cols: seq<string>): (r: Frame)
    ensures r.columns == cols && |r.rows| == |df.rows|
    ensures forall i :: 0 <= i < |r.rows| ==> r.rows[i] == Select(df.rows[i], cols)
  {
    Frame(cols, seq(|df.rows|, i requires 0 <= i < |df.rows| => Select(df.rows[i], cols)))
  }

  /** `loc_cols`: the static per-country attributes. */
  const LOC_COLS: seq<string> := [
    "iso_code", "continent", "location", "population", "population_density",
    "median_age", "aged_65_older", "aged_70_older", "gdp_per_capita",
    "extreme_poverty", "cardiovasc_death_rate", "diabetes_prevalence",
    "female_smokers", "male_smokers", "handwashing_facilities",
    "hospital_beds_per_thousand", "life_expectancy", "human_development_index"
  ]

  /** The country code a location row is de-duplicated on. */
  function IsoKey(row: Row): Option<string>
  {
    Cell(row, "iso_code")
  }

  /** `drop_duplicates(subset=["iso_code"])`, keeping the first row of each code. */
  function DedupeLocations(df: Frame): Frame
  {
    Frame(df.columns, DropDuplicates(df.rows, IsoKey))
  }

  /** One location row per distinct code: the codes kept are pairwise distinct and are all the codes seen. */
  lemma DedupeLocationsSpec(df: Frame)
    ensures DedupeLocations(df).columns == df.columns
    ensures DistinctKeys(DedupeLocations(df).rows, IsoKey)
    ensures Keys(DedupeLocations(df).rows, IsoKey) == Keys(df.rows, IsoKey)
    ensures |DedupeLocations(df).rows| == |Keys(df.rows, IsoKey)|
  {
    DropDuplicatesKeys(df.rows, IsoKey);
  }

  /**
   * The row kept for a code is the first row with that code; the rows kept from the first
   * `i` input rows are a prefix of the result, so rows stay in first-occurrence order; and
   * de-duplicating again changes nothing.
   */
  lemma DedupeLocationsKeepsFirst(df: Frame)
    ensures forall x :: x in DedupeLocations(df).rows ==>
      IsoKey(x) in Keys(df.rows, IsoKey) && FirstWithKey(df.rows, IsoKey, IsoKey(x)) == x
    ensures forall i :: 0 <= i <= |df.rows| ==> DropDuplicates(df.rows[..i], IsoKey) <= DedupeLocations(df).rows
    ensures DedupeLocations(DedupeLocations(df)) == DedupeLocations(df)
  {
    forall i | 0 <= i <= |df.rows| ensures DropDuplicates(df.rows[..i], IsoKey) <= DedupeLocations(df).rows {
      DropDuplicatesPrefix(df.rows, IsoKey, i);
    }
    DropDuplicatesKeepsFirst(df.rows, IsoKey);
    DropDuplicatesIdempotent(df.rows, IsoKey);
  }

  predicate IsStatColumn(c: string)
  {
    c !in LOC_COLS && c !in ["continent", "location", "population"]
  }

  /** `stat_cols`: the frame's columns that are not location attributes, in frame order. */
  function StatCols(columns: seq<string>): (r: seq<string>)
    ensures forall c :: c in r <==> c in columns && c !in LOC_COLS
    ensures "iso_code" !in r
  {
    Filter(columns, IsStatColumn)
  }

  /** The second exclusion list is contained in `loc_cols`, so it removes nothing more. */
  lemma StatColsSecondTestRedundant(columns: seq<string>)
    ensures StatCols(columns) == Filter(columns, c => c !in LOC_COLS)
  {
    FilterSameTest(columns, IsStatColumn, c => c !in LOC_COLS);
  }

  /** Stat columns keep frame order: those of `s + t` are those of `s`, then those of `t`. */
  lemma StatColsKeepOrder(s: seq<string>, t: seq<string>)
    ensures StatCols(s + t) == StatCols(s) + StatCols(t)
  {
    FilterAppend(s, t, IsStatColumn);
  }

  /** Lines 116-117: the kept rows, dates normalised. */
  function Cleaned(df: Frame, parseDate: string -> Option<Date>): Frame
  {
    NormalizeDates(DropNa(df), parseDate)
  }

  /** Cleaning keeps the columns, one row per row with both key values, and their country codes. */
  lemma CleanedRows(df: Frame, parseDate: string -> Option<Date>)
    ensures Cleaned(df, parseDate).columns == df.columns
    ensures |Cleaned(df, parseDate).rows| == |DropNa(df).rows|
    ensures forall i :: 0 <= i < |DropNa(df).rows| ==>
      IsoKey(Cleaned(df, parseDate).rows[i]) == IsoKey(DropNa(df).rows[i]) && IsoKey(DropNa(df).rows[i]).Some?
  {
  }

  /** Line 127: the location projection, de-duplicated on the country code. */
  function LocationFrame(cleaned: Frame): Frame
  {
    DedupeLocations(Project(cleaned, LOC_COLS))
  }

  /** Lines 130-131: the stats projection. */
  function StatsFrame(cleaned: Frame): Frame
  {
    Project(cleaned, StatCols(cleaned.columns))
  }

  /** Projecting onto columns that include `c` keeps every row's value of `c`. */
  lemma ProjectKeepsColumn(df: Frame, cols: seq<string>, c: string)
    requires c in cols
    ensures forall i :: 0 <= i < |df.rows| ==> Cell(Project(df, cols).rows[i], c) == Cell(df.rows[i], c)
  {
  }

  /** The location frame has the 18 location columns and one row per distinct country code. */
  lemma LocationFrameSpec(cleaned: Frame)
    ensures LocationFrame(cleaned).columns == LOC_COLS
    ensures DistinctKeys(LocationFrame(cleaned).rows, IsoKey)
    ensures |LocationFrame(cleaned).rows| == |Keys(cleaned.rows, IsoKey)|
  {
    var projected := Project(cleaned, LOC_COLS);
    ProjectKeepsColumn(cleaned, LOC_COLS, "iso_code");
    KeysAgree(projected.rows, cleaned.rows, IsoKey, IsoKey);
    DedupeLocationsSpec(projected);
  }

  /** When every cleaned row has a country code, so does every location row. */
  lemma LocationFrameCodesPresent(cleaned: Frame)
    requires forall i :: 0 <= i < |cleaned.rows| ==> IsoKey(cleaned.rows[i]).Some?
    ensures forall i :: 0 <= i < |LocationFrame(cleaned).rows| ==> IsoKey(LocationFrame(cleaned).rows[i]).Some?
  {
    var projected := Project(cleaned, LOC_COLS);
    ProjectKeepsColumn(cleaned, LOC_COLS, "iso_code");
    forall i | 0 <= i < |LocationFrame(cleaned).rows| ensures IsoKey(LocationFrame(cleaned).rows[i]).Some? {
      var k :| 0 <= k < |projected.rows| && projected.rows[k] == LocationFrame(cleaned).rows[i];
      assert IsoKey(projected.rows[k]) == IsoKey(cleaned.rows[k]);
    }
  }

  /** The stats frame has the frame's non-location columns, one row per cleaned row, and no country code. */
  lemma StatsFrameSpec(cleaned: Frame)
    ensures StatsFrame(cleaned).columns == StatCols(cleaned.columns)
    ensures |StatsFrame(cleaned).rows| == |cleaned.rows|
    ensures "iso_code" !in StatsFrame(cleaned).columns
    ensures forall i :: 0 <= i < |StatsFrame(cleaned).rows| ==> IsoKey(StatsFrame(cleaned).rows[i]).None?
  {
  }

  /** The two frames `load_data` writes. */
  datatype Split = Split(locations: Frame, stats: Frame)

  /**
   * Lines 113-131 on a parsed frame: KeyError when `dropna` lacks one of its
   * columns or `df[loc_cols]` lacks location columns, otherwise the
   * de-duplicated location frame and the stats frame.
   */
  function Transform(df: Frame, parseDate: string -> Option<Date>): Result<Split, LoadError>
  {
    var absent := Missing(KEY_COLS, df.columns);
    if absent != [] then Failure(KeyError(absent))
    else
      var cleaned := Cleaned(df, parseDate);
      var missing := Missing(LOC_COLS, cleaned.columns);
      if missing != [] then Failure(KeyError(missing))
      else Success(Split(LocationFrame(cleaned), StatsFrame(cleaned)))
  }

  /**
   * The transform fails exactly when a key column or a location column is absent. The
   * KeyError of the null filter names exactly the absent key columns; failing that, the
   * KeyError of the location projection names exactly the absent location columns.
   */
  lemma TransformFails(df: Frame, parseDate: string -> Option<Date>)
    ensures Transform(df, parseDate).Failure? <==>
      "iso_code" !in df.columns || "date" !in df.columns || exists c :: c in LOC_COLS && c !in df.columns
    ensures Transform(df, parseDate).Failure? ==> Transform(df, parseDate).error.KeyError?
    ensures Transform(df, parseDate).Failure? ==>
      var cs := Transform(df, parseDate).error.columns;
      cs != [] && forall i :: 0 <= i < |cs| ==> cs[i] !in df.columns
    ensures Transform(df, parseDate).Failure? && ("iso_code" !in df.columns || "date" !in df.columns) ==>
      forall c :: c in Transform(df, parseDate).error.columns <==> c in KEY_COLS && c !in df.columns
    ensures Transform(df, parseDate).Failure? && "iso_code" in df.columns && "date" in df.columns ==>
      forall c :: c in Transform(df, parseDate).error.columns <==> c in LOC_COLS && c !in df.columns
  {
  }

  /** On success the location frame has the 18 location columns and distinct codes. */
  lemma TransformLocations(df: Frame, parseDate: string -> Option<Date>)
    requires Transform(df, parseDate).Success?
    ensures Transform(df, parseDate).value.locations.columns == LOC_COLS
    ensures DistinctKeys(Transform(df, parseDate).value.locations.rows, IsoKey)
  {
    LocationFrameSpec(Cleaned(df, parseDate));
  }

  /** On success: the location frame has exactly the 18 location columns and one row per distinct
      country code among the kept rows; the stats frame has one row per kept row, the frame's
      non-location columns, and no country code. */
  lemma TransformSplit(df: Frame, parseDate: string -> Option<Date>)
    requires Transform(df, parseDate).Success?
    ensures var split := Transform(df, parseDate).value;
      && split.locations.columns == LOC_COLS
      && DistinctKeys(split.locations.rows, IsoKey)
      && |split.locations.rows| == |Keys(DropNa(df).rows, IsoKey)|
      && (forall i :: 0 <= i < |split.locations.rows| ==> IsoKey(split.locations.rows[i]).Some?)
      && split.stats.columns == StatCols(df.columns)
      && |split.stats.rows| == |DropNa(df).rows|
      && "iso_code" !in split.stats.columns
      && (forall i :: 0 <= i < |split.stats.rows| ==> IsoKey(split.stats.rows[i]).None?)
  {
    var cleaned := Cleaned(df, parseDate);
    CleanedRows(df, parseDate);
    KeysAgree(cleaned.rows, DropNa(df).rows, IsoKey, IsoKey);
    LocationFrameSpec(cleaned);
    LocationFrameCodesPresent(cleaned);
    StatsFrameSpec(cleaned);
  }

  /** A SQLite table: its columns in order, its primary key column if any, its rows. */
  datatype Table = Table(columns: seq<string>, key: Option<string>, rows: seq<Row>)

  /** No two rows share a present primary-key value (SQLite lets NULL keys repeat in a TEXT primary key). */
  predicate UniqueKeys(rows: seq<Row>, k: string)
  {
    forall i, j :: 0 <= i < j < |rows| && Cell(rows[i], k).Some? ==> Cell(rows[i], k) != Cell(rows[j], k)
  }

  /**
   * SQLite's test that a table has a column named `c`: the names agree once ASCII
   * letter case is ignored (the connection is a plain `sqlite3` one).
   */
  predicate HasColumn(cols: seq<string>, c: string)
  {
    exists k :: 0 <= k < |cols| && SameIdent(cols[k], c)
  }

  lemma HasColumnVia(cols: seq<string>, d: string, c: string)
    requires d in cols && SameIdent(d, c)
    ensures HasColumn(cols, c)
  {
    var k :| 0 <= k < |cols| && cols[k] == d;
  }

  /** The frame columns a table has no column for, in frame order; the first is the one SQLite names. */
  function Unknown(fcols: seq<string>, tcols: seq<string>): (r: seq<string>)
    ensures r == [] <==> forall c :: c in fcols ==> HasColumn(tcols, c)
    ensures forall i :: 0 <= i < |r| ==> r[i] in fcols && !HasColumn(tcols, r[i])
    ensures forall c :: c in fcols && !HasColumn(tcols, c) ==> c in r
  {
    var r := Filter(fcols, c => !HasColumn(tcols, c));
    assert r != [] ==> r[0] in fcols && !HasColumn(tcols, r[0]);
    r
  }

  /** The unknown columns keep frame order: those of `f1 + f2` are those of `f1`, then those of `f2`. */
  lemma UnknownInOrder(f1: seq<string>, f2: seq<string>, tcols: seq<string>)
    ensures Unknown(f1 + f2, tcols) == Unknown(f1, tcols) + Unknown(f2, tcols)
  {
    FilterAppend(f1, f2, c => !HasColumn(tcols, c));
  }

  /** The position of the first frame column that names column `c` up to case. */
  function FirstMatch(fcols: seq<string>, c: string): (r: Option<nat>)
    ensures r.None? <==> !HasColumn(fcols, c)
    ensures r.Some? ==> r.value < |fcols| && SameIdent(fcols[r.value], c)
    ensures r.Some? ==> forall j :: 0 <= j < r.value ==> !SameIdent(fcols[j], c)
  {
    if fcols == [] then None
    else if SameIdent(fcols[0], c) then Some(0)
    else
      match FirstMatch(fcols[1..], c)
      case None =>
        assert forall k :: 1 <= k < |fcols| ==> fcols[k] == fcols[1..][k - 1];
        None
      case Some(k) => Some(k + 1)
  }

  /**
   * One frame row as `INSERT INTO t (<frame columns>)` stores it: each table column takes
   * the value of the first frame column that names it up to case, and NULL when none does.
   */
  function Inserted(tcols: seq<string>, fcols: seq<string>, row: Row): (r: Row)
    ensures forall c :: c in r <==> c in tcols
  {
    map c | c in tcols :: match FirstMatch(fcols, c) case None => None case Some(k) => Cell(row, fcols[k])
  }

  /** The frame's rows as a table with columns `tcols` stores them. */
  function Stored(tcols: seq<string>, fcols: seq<string>, rows: seq<Row>): (r: seq<Row>)
    ensures |r| == |rows|
    ensures forall i :: 0 <= i < |r| ==> r[i] == Inserted(tcols, fcols, rows[i])
  {
    seq(|rows|, i requires 0 <= i < |rows| => Inserted(tcols, fcols, rows[i]))
  }

  /**
   * A table column that exactly one frame column names, up to case, holds that column's
   * value; a table column no frame column names holds NULL.
   */
  lemma InsertedCell(tcols: seq<string>, fcols: seq<string>, row: Row, c: string, k: nat)
    requires c in tcols
    requires k < |fcols| && SameIdent(fcols[k], c)
    requires forall j :: 0 <= j < |fcols| && SameIdent(fcols[j], c) ==> j == k
    ensures Cell(Inserted(tcols, fcols, row), c) == Cell(row, fcols[k])
  {
    var m := FirstMatch(fcols, c);
    assert m.Some?;
  }

  lemma InsertedAbsent(tcols: seq<string>, fcols: seq<string>, row: Row, c: string)
    requires !HasColumn(fcols, c)
    ensures Cell(Inserted(tcols, fcols, row), c).None?
  {
  }

  /** The position of the first column that repeats an earlier one up to case, scanning from `j`. */
  function ClashFrom(cols: seq<string>, j: nat): (r: Option<nat>)
    requires j <= |cols|
    ensures r.None? <==> forall i, k :: 0 <= i < k < |cols| && j <= k ==> !SameIdent(cols[i], cols[k])
    ensures r.Some? ==> j <= r.value < |cols| && HasColumn(cols[..r.value], cols[r.value])
    decreases |cols| - j
  {
    if j == |cols| then None
    else if HasColumn(cols[..j], cols[j]) then Some(j)
    else
      var r := ClashFrom(cols, j + 1);
      if r.None? then
        assert forall i :: 0 <= i < j ==> !SameIdent(cols[i], cols[j]) by {
          forall i | 0 <= i < j ensures !SameIdent(cols[i], cols[j]) {
            assert cols[..j][i] == cols[i];
          }
        }
        r
      else r
  }

  /**
   * `to_sql(..., if_exists="append", index=False)` in one transaction. A missing table
   * is created with the frame's columns; SQLite rejects a column that repeats an
   * earlier one up to case (OperationalError). A frame with no rows sends no INSERT,
   * so an existing table is left as it is whatever the frame's columns. Otherwise an
   * existing table rejects a frame column it has no column for, up to case
   * (OperationalError), or a repeated primary key (IntegrityError), and else gets the
   * frame's rows after its own.
   */
  function AppendFrame(t: Option<Table>, f: Frame): Result<Table, LoadError>
  {
    match t
    case None =>
      (match ClashFrom(f.columns, 0)
       case Some(j) => Failure(OperationalError(f.columns[j]))
       case None => Success(Table(f.columns, None, Stored(f.columns, f.columns, f.rows))))
    case Some(t) =>
      if f.rows == [] then Success(t)
      else
      var unknown := Unknown(f.columns, t.columns);
      if unknown != [] then Failure(OperationalError(unknown[0]))
      else
        var rows := t.rows + Stored(t.columns, f.columns, f.rows);
        if t.key.Some? && !UniqueKeys(rows, t.key.value) then Failure(IntegrityError(t.key.value))
        else Success(Table(t.columns, t.key, rows))
  }

  /**
   * A missing table is created from the frame: the append fails exactly when two frame
   * columns name the same column up to case; otherwise the new table has the frame's
   * columns, no key, and each row's values.
   */
  lemma CreateOnAppend(f: Frame)
    ensures AppendFrame(None, f).Failure? <==>
      exists i, k :: 0 <= i < k < |f.columns| && SameIdent(f.columns[i], f.columns[k])
    ensures AppendFrame(None, f).Failure? ==> AppendFrame(None, f).error.OperationalError?
    ensures AppendFrame(None, f).Success? ==>
      var u := AppendFrame(None, f).value;
      && u.columns == f.columns && u.key.None? && |u.rows| == |f.rows|
      && forall i, c :: 0 <= i < |f.rows| && c in f.columns ==> Cell(u.rows[i], c) == Cell(f.rows[i], c)
  {
    if AppendFrame(None, f).Success? {
      var u := AppendFrame(None, f).value;
      forall i, c | 0 <= i < |f.rows| && c in f.columns ensures Cell(u.rows[i], c) == Cell(f.rows[i], c) {
        var k :| 0 <= k < |f.columns| && f.columns[k] == c;
        assert SameIdent(f.columns[k], c);
        InsertedCell(f.columns, f.columns, f.rows[i], c, k);
      }
    }
  }

  /** Tables are only appended to: an existing table keeps its columns, key and rows, and gains
      one row per frame row; a failed append is reported, never partial, and an empty frame never fails. */
  lemma AppendOnly(t: Table, f: Frame)
    ensures |f.rows| == 0 ==> AppendFrame(Some(t), f) == Success(t)
    ensures AppendFrame(Some(t), f).Success? ==>
      var u := AppendFrame(Some(t), f).value;
      && u.columns == t.columns && u.key == t.key
      && |u.rows| == |t.rows| + |f.rows| && u.rows[..|t.rows|] == t.rows
    ensures AppendFrame(Some(t), f).Failure? <==>
      |f.rows| > 0 &&
      ((exists c :: c in f.columns && !HasColumn(t.columns, c))
       || (t.key.Some? && !UniqueKeys(t.rows + Stored(t.columns, f.columns, f.rows), t.key.value)))
  {
    var u := t.rows + Stored(t.columns, f.columns, f.rows);
    assert u[..|t.rows|] == t.rows;
  }

  /** The columns of `CREATE TABLE locations`, `iso_code` its primary key. */
  const LOCATIONS_SCHEMA: seq<string> := [
    "iso_code", "continent", "location", "population", "population_density",
    "median_age", "aged_65_older", "aged_70_older", "gdp_per_capita",
    "extreme_poverty", "cardiovasc_death_rate", "diabetes_prevalence",
    "female_smokers", "male_smokers", "handwashing_facilities",
    "hospital_beds_per_thousand", "life_expectancy", "human_development_index"
  ]

  /** The columns of `CREATE TABLE covid_stats` after the engine-assigned `id`. */
  const STATS_SCHEMA: seq<string> := ["iso_code", "date"] + STATS_MEASURES

  /** The measures `covid_stats` declares after the country code and the date. */
  const STATS_MEASURES: seq<string> := [
    "total_cases", "new_cases", "new_cases_smoothed",
    "total_deaths", "new_deaths", "new_deaths_smoothed", "total_cases_per_million",
    "new_cases_per_million", "new_cases_smoothed_per_million", "total_deaths_per_million",
    "new_deaths_per_million", "new_deaths_smoothed_per_million", "reproduction_rate",
    "icu_patients", "icu_patients_per_million", "hosp_patients", "hosp_patients_per_million",
    "weekly_icu_admissions", "weekly_icu_admissions_per_million", "weekly_hosp_admissions",
    "weekly_hosp_admissions_per_million", "total_tests", "new_tests", "total_tests_per_thousand",
    "new_tests_per_thousand", "new_tests_smoothed", "new_tests_smoothed_per_thousand",
    "positive_rate", "tests_per_case", "tests_units", "total_vaccinations", "people_vaccinated",
    "people_fully_vaccinated", "total_boosters", "new_vaccinations", "new_vaccinations_smoothed",
    "total_vaccinations_per_hundred", "people_vaccinated_per_hundred",
    "people_fully_vaccinated_per_hundred", "total_boosters_per_hundred",
    "new_vaccinations_smoothed_per_million", "new_people_vaccinated_smoothed",
    "new_people_vaccinated_smoothed_per_hundred", "stringency_index",
    "excess_mortality_cumulative_absolute", "excess_mortality_cumulative", "excess_mortality",
    "excess_mortality_cumulative_per_million"
  ]

  /** The location projection and the `locations` table have the same columns in the same order. */
  lemma LocationColumnsMatchSchema()
    ensures LOC_COLS == LOCATIONS_SCHEMA && |LOC_COLS| == 18
  {
  }

  function Lookup(tables: map<string, Table>, name: string): Option<Table>
  {
    if name in tables then Some(tables[name]) else None
  }

  /** The tables after `create_schema`: both dropped if present, then created empty; others untouched. */
  function SchemaReset(tables: map<string, Table>): map<string, Table>
  {
    (tables - {"covid_stats"} - {"locations"})
      ["locations" := Table(LOCATIONS_SCHEMA, Some("iso_code"), [])]
      ["covid_stats" := Table(STATS_SCHEMA, None, [])]
  }

  /** After the reset both tables exist, are empty and have the schema's columns; no other table changes. */
  lemma SchemaResetSpec(tables: map<string, Table>)
    ensures Lookup(SchemaReset(tables), "locations") == Some(Table(LOCATIONS_SCHEMA, Some("iso_code"), []))
    ensures Lookup(SchemaReset(tables), "covid_stats") == Some(Table(STATS_SCHEMA, None, []))
    ensures forall n :: n != "locations" && n != "covid_stats" ==> Lookup(SchemaReset(tables), n) == Lookup(tables, n)
  {
  }

  /** The counts `load_data` reports. */
  datatype Counts = Counts(locations: nat, stats: nat)

  /**
   * `load_data` on the tables: read, transform, append the location frame, then
   * the stats frame. Each append is its own transaction, so a failing stats
   * append leaves the location rows in place.
   */
  function LoadOutcome(tables: map<string, Table>, csv: Option<Frame>, parseDate: string -> Option<Date>)
    : (map<string, Table>, Result<Counts, LoadError>)
  {
    match csv
    case None => (tables, Failure(ParserError))
    case Some(df) =>
      match Transform(df, parseDate)
      case Failure(e) => (tables, Failure(e))
      case Success(split) => Store(tables, split)
  }

  /** Lines 134-135: append the location frame, then the stats frame, stopping at the first error. */
  function Store(tables: map<string, Table>, split: Split): (map<string, Table>, Result<Counts, LoadError>)
  {
    match AppendFrame(Lookup(tables, "locations"), split.locations)
    case Failure(e) => (tables, Failure(e))
    case Success(lt) =>
      var mid := tables["locations" := lt];
      match AppendFrame(Lookup(mid, "covid_stats"), split.stats)
      case Failure(e) => (mid, Failure(e))
      case Success(st) => (mid["covid_stats" := st], Success(Counts(|split.locations.rows|, |split.stats.rows|)))
  }

  /** Appending the de-duplicated locations to the freshly reset `locations` table always succeeds. */
  lemma LocationsAppendAfterReset(split: Split)
    requires split.locations.columns == LOC_COLS
    requires DistinctKeys(split.locations.rows, IsoKey)
    ensures AppendFrame(Some(Table(LOCATIONS_SCHEMA, Some("iso_code"), [])), split.locations)
      == Success(Table(LOCATIONS_SCHEMA, Some("iso_code"), Stored(LOCATIONS_SCHEMA, LOC_COLS, split.locations.rows)))
  {
    var rows := Stored(LOCATIONS_SCHEMA, LOC_COLS, split.locations.rows);
    assert [] + rows == rows;
    LocationColumnsKnown();
    StoredLocationsUnique(split.locations.rows);
  }

  /** Every location column is a column of the `locations` table. */
  lemma LocationColumnsKnown()
    ensures Unknown(LOC_COLS, LOCATIONS_SCHEMA) == []
  {
    forall c | c in LOC_COLS ensures HasColumn(LOCATIONS_SCHEMA, c) {
      HasColumnVia(LOCATIONS_SCHEMA, c, c);
    }
  }

  /** Location rows with distinct codes are stored with distinct `iso_code` keys. */
  lemma StoredLocationsUnique(locs: seq<Row>)
    requires DistinctKeys(locs, IsoKey)
    ensures UniqueKeys(Stored(LOCATIONS_SCHEMA, LOC_COLS, locs), "iso_code")
  {
    var rows := Stored(LOCATIONS_SCHEMA, LOC_COLS, locs);
    forall i | 0 <= i < |rows| ensures Cell(rows[i], "iso_code") == IsoKey(locs[i]) {
      InsertedFirstColumn(LOCATIONS_SCHEMA, LOC_COLS, locs[i]);
    }
  }

  /** A column that leads both the table and the frame takes the frame's value. */
  lemma InsertedFirstColumn(tcols: seq<string>, fcols: seq<string>, row: Row)
    requires tcols != [] && fcols != [] && tcols[0] == fcols[0]
    ensures Cell(Inserted(tcols, fcols, row), tcols[0]) == Cell(row, tcols[0])
  {
    assert FirstMatch(fcols, tcols[0]) == Some(0);
  }

  /** Appending to the freshly reset `covid_stats` table fails exactly when the frame has rows and a
      column the table has no column for, up to case; otherwise the table holds the frame's rows as inserted. */
  lemma StatsAppendAfterReset(f: Frame)
    ensures AppendFrame(Some(Table(STATS_SCHEMA, None, [])), f).Failure? <==>
      |f.rows| > 0 && exists c :: c in f.columns && !HasColumn(STATS_SCHEMA, c)
    ensures AppendFrame(Some(Table(STATS_SCHEMA, None, [])), f).Failure? ==>
      AppendFrame(Some(Table(STATS_SCHEMA, None, [])), f).error.OperationalError?
    ensures AppendFrame(Some(Table(STATS_SCHEMA, None, [])), f).Success? ==>
      AppendFrame(Some(Table(STATS_SCHEMA, None, [])), f).value
        == Table(STATS_SCHEMA, None, Stored(STATS_SCHEMA, f.columns, f.rows))
  {
    assert [] + Stored(STATS_SCHEMA, f.columns, f.rows) == Stored(STATS_SCHEMA, f.columns, f.rows);
  }

  /**
   * A header `ISO_CODE` is stored in `iso_code`: SQLite matches column names whatever
   * their ASCII letter case, so such a stats column gives the observations a country code.
   */
  lemma MixedCaseColumnStored(row: Row)
    ensures AppendFrame(Some(Table(STATS_SCHEMA, None, [])), Frame(["date", "ISO_CODE"], [row])).Success?
    ensures var u := AppendFrame(Some(Table(STATS_SCHEMA, None, [])), Frame(["date", "ISO_CODE"], [row])).value;
      |u.rows| == 1 && Cell(u.rows[0], "iso_code") == Cell(row, "ISO_CODE") && Cell(u.rows[0], "date") == Cell(row, "date")
  {
    var f := Frame(["date", "ISO_CODE"], [row]);
    assert STATS_SCHEMA[0] == "iso_code" && STATS_SCHEMA[1] == "date";
    assert FoldCase("ISO_CODE") == "iso_code" == FoldCase("iso_code");
    HasColumnVia(STATS_SCHEMA, "date", "date");
    HasColumnVia(STATS_SCHEMA, "iso_code", "ISO_CODE");
    StatsAppendAfterReset(f);
    assert !SameIdent("date", "iso_code") && !SameIdent("ISO_CODE", "date");
    InsertedCell(STATS_SCHEMA, f.columns, row, "iso_code", 1);
    InsertedCell(STATS_SCHEMA, f.columns, row, "date", 0);
  }

  /** Storing a split into freshly reset tables: the location rows always go in, with unique codes;
      the stats rows go in unless the stats frame has rows and a column `covid_stats` has none for. */
  lemma StoreAfterReset(tables: map<string, Table>, split: Split)
    requires split.locations.columns == LOC_COLS
    requires DistinctKeys(split.locations.rows, IsoKey)
    ensures var r := Store(SchemaReset(tables), split).1;
      r.Failure? <==> |split.stats.rows| > 0 && exists c :: c in split.stats.columns && !HasColumn(STATS_SCHEMA, c)
    ensures var (after, r) := Store(SchemaReset(tables), split);
      r.Failure? ==> r.error.OperationalError? && "locations" in after
    ensures var (after, r) := Store(SchemaReset(tables), split);
      r.Success? ==>
        && "locations" in after && "covid_stats" in after
        && after["locations"].rows == Stored(LOCATIONS_SCHEMA, LOC_COLS, split.locations.rows)
        && UniqueKeys(after["locations"].rows, "iso_code")
        && after["covid_stats"].rows == Stored(STATS_SCHEMA, split.stats.columns, split.stats.rows)
  {
    LocationsAppendAfterReset(split);
    SchemaResetSpec(tables);
    var lt := Table(LOCATIONS_SCHEMA, Some("iso_code"), Stored(LOCATIONS_SCHEMA, LOC_COLS, split.locations.rows));
    var mid := SchemaReset(tables)["locations" := lt];
    assert Lookup(mid, "covid_stats") == Some(Table(STATS_SCHEMA, None, []));
    StatsAppendAfterReset(split.stats);
  }

  /** A table column that no frame column names, up to case, is NULL in every stored row. */
  lemma StoredKeepsMissing(tcols: seq<string>, fcols: seq<string>, rows: seq<Row>, c: string)
    requires !HasColumn(fcols, c)
    ensures forall i :: 0 <= i < |Stored(tcols, fcols, rows)| ==> Cell(Stored(tcols, fcols, rows)[i], c).None?
  {
    forall i | 0 <= i < |rows| ensures Cell(Stored(tcols, fcols, rows)[i], c).None? {
      InsertedAbsent(tcols, fcols, rows[i], c);
    }
  }

  /**
   * The run `main` makes: after `create_schema`, loading a parsed frame that has
   * the key and location columns never fails on `locations`; it fails on
   * `covid_stats` exactly when some row survives the null filter and a stats
   * column names no column of that table, up to case. On success `locations`
   * holds one row per distinct country code and `covid_stats` one row per kept row.
   */
  lemma LoadAfterReset(tables: map<string, Table>, df: Frame, parseDate: string -> Option<Date>)
    requires Transform(df, parseDate).Success?
    ensures var r := LoadOutcome(SchemaReset(tables), Some(df), parseDate).1;
      r.Failure? <==> |DropNa(df).rows| > 0 && exists c :: c in StatCols(df.columns) && !HasColumn(STATS_SCHEMA, c)
    ensures var (after, r) := LoadOutcome(SchemaReset(tables), Some(df), parseDate);
      r.Failure? ==> r.error.OperationalError? && "locations" in after
    ensures var (after, r) := LoadOutcome(SchemaReset(tables), Some(df), parseDate);
      r.Success? ==>
        && "locations" in after && "covid_stats" in after
        && |after["locations"].rows| == |Keys(DropNa(df).rows, IsoKey)|
        && UniqueKeys(after["locations"].rows, "iso_code")
        && |after["covid_stats"].rows| == |DropNa(df).rows|
  {
    var split := Transform(df, parseDate).value;
    LoadStoresSplit(tables, df, parseDate);
    TransformSplit(df, parseDate);
    StoreAfterReset(tables, split);
  }

  /**
   * The country code each stored observation carries. `iso_code` is a location column,
   * so only a stats column that names `iso_code` up to case (say `ISO_CODE`) fills it,
   * with that column's value; when the archive has no such column, every `covid_stats`
   * row stores NULL as its code.
   */
  lemma LoadedStatsCodes(tables: map<string, Table>, df: Frame, parseDate: string -> Option<Date>)
    requires Transform(df, parseDate).Success?
    ensures var (after, r) := LoadOutcome(SchemaReset(tables), Some(df), parseDate);
      r.Success? ==>
        && "covid_stats" in after && |after["covid_stats"].rows| == |DropNa(df).rows|
        && forall i :: 0 <= i < |after["covid_stats"].rows| ==>
          Cell(after["covid_stats"].rows[i], "iso_code") == StatsCode(df, i)
    ensures var (after, r) := LoadOutcome(SchemaReset(tables), Some(df), parseDate);
      r.Success? && (forall c :: c in df.columns && c != "iso_code" ==> !SameIdent(c, "iso_code")) ==>
        forall i :: 0 <= i < |after["covid_stats"].rows| ==> Cell(after["covid_stats"].rows[i], "iso_code").None?
  {
    var split := Transform(df, parseDate).value;
    LoadStoresSplit(tables, df, parseDate);
    var (after, r) := Store(SchemaReset(tables), split);
    if r.Success? {
      TransformLocations(df, parseDate);
      StoreAfterReset(tables, split);
      StatsRowsCodes(df, parseDate);
      var rows := after["covid_stats"].rows;
      forall i | 0 <= i < |rows| ensures Cell(rows[i], "iso_code") == StatsCode(df, i) {
        assert rows[i] == Inserted(STATS_SCHEMA, split.stats.columns, split.stats.rows[i]);
      }
      if forall c :: c in df.columns && c != "iso_code" ==> !SameIdent(c, "iso_code") {
        assert !HasColumn(StatCols(df.columns), "iso_code");
      }
    }
  }

  /** A parsed frame that transforms is stored as its split. */
  lemma LoadStoresSplit(tables: map<string, Table>, df: Frame, parseDate: string -> Option<Date>)
    requires Transform(df, parseDate).Success?
    ensures LoadOutcome(SchemaReset(tables), Some(df), parseDate) == Store(SchemaReset(tables), Transform(df, parseDate).value)
  {
  }

  /** The value kept row `i` gives `covid_stats.iso_code`: that of the first stats column naming it up to case. */
  function StatsCode(df: Frame, i: nat): Option<string>
    requires i < |DropNa(df).rows|
  {
    match FirstMatch(StatCols(df.columns), "iso_code")
    case None => None
    case Some(k) => Cell(DropNa(df).rows[i], StatCols(df.columns)[k])
  }

  /** The `iso_code` value each stats row inserts. */
  lemma StatsRowsCodes(df: Frame, parseDate: string -> Option<Date>)
    requires Transform(df, parseDate).Success?
    ensures var split := Transform(df, parseDate).value;
      && split.stats.columns == StatCols(df.columns)
      && |split.stats.rows| == |DropNa(df).rows|
      && forall i :: 0 <= i < |split.stats.rows| ==>
        Cell(Inserted(STATS_SCHEMA, split.stats.columns, split.stats.rows[i]), "iso_code") == StatsCode(df, i)
  {
    var cleaned := Cleaned(df, parseDate);
    assert Transform(df, parseDate).value.stats == StatsFrame(cleaned);
    StatsFrameCodes(cleaned);
    var m := FirstMatch(StatCols(df.columns), "iso_code");
    if m.Some? {
      var c := StatCols(df.columns)[m.value];
      assert |FoldCase(c)| == |FoldCase("iso_code")|;
      CleanedKeepsCell(df, parseDate, c);
    }
  }

  /** The `iso_code` value each row of the stats frame inserts into `covid_stats`. */
  lemma StatsFrameCodes(cleaned: Frame)
    ensures forall i :: 0 <= i < |StatsFrame(cleaned).rows| ==>
      Cell(Inserted(STATS_SCHEMA, StatsFrame(cleaned).columns, StatsFrame(cleaned).rows[i]), "iso_code") ==
        match FirstMatch(StatCols(cleaned.columns), "iso_code")
        case None => None
        case Some(k) => Cell(cleaned.rows[i], StatCols(cleaned.columns)[k])
  {
    assert STATS_SCHEMA[0] == "iso_code";
  }

  /** Normalising dates leaves every other column of the kept rows as it was. */
  lemma CleanedKeepsCell(df: Frame, parseDate: string -> Option<Date>, c: string)
    requires c != "date"
    ensures |Cleaned(df, parseDate).rows| == |DropNa(df).rows|
    ensures forall i :: 0 <= i < |DropNa(df).rows| ==> Cell(Cleaned(df, parseDate).rows[i], c) == Cell(DropNa(df).rows[i], c)
  {
  }

  /** The SQLite database `covid19.db`: its tables by name. */
  class Database {
    var tables: map<string, Table>

    constructor (tables: map<string, Table>)
      ensures this.tables == tables
    {
      this.tables := tables;
    }
  }

  /** `create_schema`: drop `covid_stats`, drop `locations`, then create both, in that order. */
  method CreateSchema(db: Database)
    modifies db
    ensures db.tables == SchemaReset(old(db.tables))
  {
    db.tables := db.tables - {"covid_stats"};
    db.tables := db.tables - {"locations"};
    db.tables := db.tables["locations" := Table(LOCATIONS_SCHEMA, Some("iso_code"), [])];
    db.tables := db.tables["covid_stats" := Table(STATS_SCHEMA, None, [])];
  }

  /** `frame.to_sql(name, conn, if_exists="append", index=False)`: the number of rows written, or the error. */
  method ToSql(db: Database, name: string, f: Frame) returns (r: Result<nat, LoadError>)
    modifies db
    ensures AppendFrame(Lookup(old(db.tables), name), f).Failure? ==>
      r == Failure(AppendFrame(Lookup(old(db.tables), name), f).error) && db.tables == old(db.tables)
    ensures AppendFrame(Lookup(old(db.tables), name), f).Success? ==>
      r == Success(|f.rows|) && db.tables == old(db.tables)[name := AppendFrame(Lookup(old(db.tables), name), f).value]
  {
    var t := AppendFrame(Lookup(db.tables, name), f);
    if t.Failure? {
      return Failure(t.error);
    }
    db.tables := db.tables[name := t.value];
    r := Success(|f.rows|);
  }

  /** `load_data(conn, csv_path)`, the frame reassigned step by step as the program does. */
  method LoadData(db: Database, csvPath: string, readCsv: string -> Option<Frame>, parseDate: string -> Option<Date>)
    returns (r: Result<Counts, LoadError>)
    modifies db
    ensures (db.tables, r) == LoadOutcome(old(db.tables), readCsv(csvPath), parseDate)
  {
    var read := readCsv(csvPath);
    if read.None? {
      return Failure(ParserError);
    }
    var df := read.value;
    var absent := Missing(KEY_COLS, df.columns);
    if absent != [] {
      return Failure(KeyError(absent));
    }
    df := DropNa(df);
    df := NormalizeDates(df, parseDate);
    var missing := Missing(LOC_COLS, df.columns);
    if missing != [] {
      return Failure(KeyError(missing));
    }
    var locations := DedupeLocations(Project(df, LOC_COLS));
    var stats := Project(df, StatCols(df.columns));
    var written := ToSql(db, "locations", locations);
    if written.Failure? {
      return Failure(written.error);
    }
    written := ToSql(db, "covid_stats", stats);
    if written.Failure? {
      return Failure(written.error);
    }
    r := Success(Counts(|locations.rows|, |stats.rows|));
  }

  /** The loader's `main` up to its diagnostics: locate the newest archive, reset the schema, load it. */
  method RunLoader(db: Database, projectRoot: string, entries: seq<string>,
                   readCsv: string -> Option<Frame>, parseDate: string -> Option<Date>)
    returns (r: Result<Counts, LoadError>)
    modifies db
    ensures GetLatestCsv(projectRoot, entries).Failure? ==> r == Failure(FileNotFoundError) && db.tables == old(db.tables)
    ensures GetLatestCsv(projectRoot, entries).Success? ==>
      (db.tables, r) == LoadOutcome(SchemaReset(old(db.tables)), readCsv(GetLatestCsv(projectRoot, entries).value), parseDate)
  {
    var csvPath := GetLatestCsv(projectRoot, entries);
    if csvPath.Failure? {
      return Failure(csvPath.error);
    }
    CreateSchema(db);
    r := LoadData(db, csvPath.value, readCsv, parseDate);
  }
}
