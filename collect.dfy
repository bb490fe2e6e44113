/**
 * The collection stage: for each configured source, download the CSV, check
 * that it is plausibly tabular, archive it under a timestamped name, profile
 * the archived file, and finally append one line per archived source to the
 * collection history log.
 *
 * The network, SHA-256, pandas and the clock are inputs: each source's
 * download outcome, save time and write outcome come in an Attempt, the
 * digest and the two pandas reads are functions passed in an Env.
 */
module FetchOwid {
  import opened Wrappers
  import opened Text
  import opened Paths
  import opened Clock
  import opened Seqs

  newtype byte = x: int | 0 <= x < 256

  type Bytes = seq<byte>

  predicate IsHexDigit(c: char)
  {
    '0' <= c <= '9' || 'a' <= c <= 'f'
  }

  predicate IsHexDigest(s: string)
  {
    |s| == 64 && forall i :: 0 <= i < |s| ==> IsHexDigit(s[i])
  }

  /** `hashlib.sha256(b).hexdigest()`: 64 lower-case hexadecimal digits. */
  type HexDigest = s: string | IsHexDigest(s) witness seq(64, _ => '0')

  /** A configured source: its logical name (the archive file prefix) and its URL. */
  datatype Source = Source(name: string, url: string)

  const SOURCES: seq<Source> := [
    Source("owid_covid_data_github",
           "https://github.com/owid/covid-19-data/raw/master/public/data/owid-covid-data.csv")
  ]

  /** Payloads shorter than this are rejected without being parsed (empty bodies, HTML error pages). */
  const MIN_CSV_BYTES: nat := 1000

  /** What `pandas.read_csv` makes of a whole CSV file: its column labels and its number of data rows. */
  datatype CsvShape = CsvShape(columns: seq<string>, rows: nat)

  /**
   * The library calls the collector makes: whether `read_csv(..., nrows=10)` on
   * the payload succeeds, what a full `read_csv` yields (None when it raises),
   * and the SHA-256 digest.
   */
  datatype Env = Env(
    projectRoot: string,
    headParses: Bytes -> bool,
    readCsv: Bytes -> Option<CsvShape>,
    sha256: Bytes -> HexDigest)

  /** What happened to one source in one run: the download (None when it raised), the clock reading
      taken when saving, and whether writing the archive file succeeded. */
  datatype Attempt = Attempt(download: Option<Bytes>, savedAt: DateTime, writeSucceeds: bool)

  datatype Profile = Profile(rows: nat, cols: nat, hasDate: bool, hasLocation: bool, columnsSample: seq<string>)

  /** One entry of `results`: a source that was downloaded, validated, archived and profiled. */
  datatype Record = Record(name: string, path: string, sha256: HexDigest, profile: Profile)

  datatype IoError = OSError

  /** Size floor first; only a payload of at least MIN_CSV_BYTES bytes is handed to the parser. */
  function ValidateCsvBytes(b: Bytes, headParses: Bytes -> bool): (ok: bool)
    ensures |b| < MIN_CSV_BYTES ==> !ok
    ensures |b| >= MIN_CSV_BYTES ==> (ok <==> headParses(b))
  {
    if |b| < MIN_CSV_BYTES then false
    else headParses(b)
  }

  /** The archive file name `{name}_{YYYYMMDD_HHMMSS}.csv`. */
  function ArchiveName(name: string, ts: DateTime): string
  {
    name + "_" + Stamp(ts) + ".csv"
  }

  /** The archive name is the source name, `_`, the 15-character stamp and `.csv`. */
  lemma ArchiveNameShape(name: string, ts: DateTime)
    ensures var f := ArchiveName(name, ts);
      && |f| == |name| + 20
      && StartsWith(f, name + "_") && EndsWith(f, ".csv")
      && f[|name| + 1..|name| + 16] == Stamp(ts)
  {
    var f := ArchiveName(name, ts);
    StampShape(ts);
    assert f[..|name| + 1] == name + "_";
    assert f[|name| + 16..] == ".csv";
  }

  /** Where `save_bytes_to_file` writes: the archive name inside DATA_DIR. */
  function SavePath(projectRoot: string, name: string, ts: DateTime): string
  {
    Join(DataDir(projectRoot), ArchiveName(name, ts))
  }

  /** The profile of a parsed file: shape, presence of the two key columns, first ten labels. */
  function QuickProfile(f: CsvShape): (p: Profile)
    ensures p.rows == f.rows && p.cols == |f.columns|
    ensures p.hasDate <==> "date" in f.columns
    ensures p.hasLocation <==> "location" in f.columns
    ensures |p.columnsSample| == if |f.columns| < 10 then |f.columns| else 10
    ensures forall i :: 0 <= i < |p.columnsSample| ==> p.columnsSample[i] == f.columns[i]
  {
    Profile(f.rows, |f.columns|, "date" in f.columns, "location" in f.columns,
            if |f.columns| <= 10 then f.columns else f.columns[..10])
  }

  /** The profile of a file with these contents, or None when reading it raises. */
  function ProfileOf(readCsv: Bytes -> Option<CsvShape>, contents: Bytes): Option<Profile>
  {
    match readCsv(contents)
    case None => None
    case Some(f) => Some(QuickProfile(f))
  }

  /** What one iteration of the source loop appends to `results`: a record exactly when
      download, validation, save and profile all succeed. */
  function Outcome(env: Env, src: Source, att: Attempt): Option<Record>
  {
    match att.download
    case None => None
    case Some(b) =>
      if !ValidateCsvBytes(b, env.headParses) || !att.writeSucceeds then None
      else match ProfileOf(env.readCsv, b)
        case None => None
        case Some(p) => Some(Record(src.name, SavePath(env.projectRoot, src.name, att.savedAt), env.sha256(b), p))
  }

  /** A source yields a record exactly when its download, validation, save and profile all succeed. */
  lemma OutcomeSucceeds(env: Env, src: Source, att: Attempt)
    ensures Outcome(env, src, att).Some? <==>
      && att.download.Some?
      && |att.download.value| >= MIN_CSV_BYTES && env.headParses(att.download.value)
      && att.writeSucceeds
      && env.readCsv(att.download.value).Some?
  {
  }

  /** The record carries the source's name, the archive path, the payload's digest and its profile. */
  lemma OutcomeRecord(env: Env, src: Source, att: Attempt)
    requires Outcome(env, src, att).Some?
    ensures att.download.Some? && env.readCsv(att.download.value).Some?
    ensures Outcome(env, src, att).value == Record(
      src.name,
      SavePath(env.projectRoot, src.name, att.savedAt),
      env.sha256(att.download.value),
      QuickProfile(env.readCsv(att.download.value).value))
  {
  }

  /** What each iteration of the source loop appends, source by source. */
  function Outcomes(env: Env, sources: seq<Source>, attempts: seq<Attempt>): seq<Option<Record>>
    requires |attempts| == |sources|
  {
    MapPairs(sources, attempts, Step(env))
  }

  function Step(env: Env): (Source, Attempt) -> Option<Record>
  {
    (src, att) => Outcome(env, src, att)
  }

  /** `results` after the loop over `sources`, the i-th attempt belonging to the i-th source. */
  function Collected(env: Env, sources: seq<Source>, attempts: seq<Attempt>): seq<Record>
    requires |attempts| == |sources|
  {
    Somes(Outcomes(env, sources, attempts))
  }

  /** Whether a pass writes its payload: it was downloaded, passed the size and parse check, and the write succeeded. */
  predicate Writes(env: Env, att: Attempt)
  {
    att.download.Some? && ValidateCsvBytes(att.download.value, env.headParses) && att.writeSucceeds
  }

  /** The archive after one attempt: a validated payload is written when the write succeeds,
      even if profiling it then fails. */
  function ArchiveStep(archive: map<string, Bytes>, env: Env, src: Source, att: Attempt): map<string, Bytes>
  {
    if Writes(env, att) then archive[SavePath(env.projectRoot, src.name, att.savedAt) := att.download.value]
    else archive
  }

  function Archived(archive: map<string, Bytes>, env: Env, sources: seq<Source>, attempts: seq<Attempt>): map<string, Bytes>
    requires |attempts| == |sources|
  {
    if sources == [] then archive
    else
      var n := |sources| - 1;
      ArchiveStep(Archived(archive, env, sources[..n], attempts[..n]), env, sources[n], attempts[n])
  }

  /** The file each pass writes, in loop order: its save path when it writes its payload, none otherwise. */
  function WrittenPaths(env: Env, sources: seq<Source>, attempts: seq<Attempt>): (r: seq<Option<string>>)
    requires |attempts| == |sources|
    ensures |r| == |sources|
    ensures forall i :: 0 <= i < |sources| ==>
      r[i] == if Writes(env, attempts[i]) then Some(SavePath(env.projectRoot, sources[i].name, attempts[i].savedAt)) else None
  {
    seq(|sources|, i requires 0 <= i < |sources| =>
      if Writes(env, attempts[i]) then Some(SavePath(env.projectRoot, sources[i].name, attempts[i].savedAt)) else None)
  }

  /**
   * The files after the loop are the ones there before and the save path of every pass
   * that writes its payload, and no other: a failed pass never adds or removes a file.
   */
  lemma {:induction false} ArchivedPaths(archive: map<string, Bytes>, env: Env, sources: seq<Source>, attempts: seq<Attempt>)
    requires |attempts| == |sources|
    ensures forall p :: p in Archived(archive, env, sources, attempts) <==> p in archive || Some(p) in WrittenPaths(env, sources, attempts)
  {
    if sources != [] {
      var n := |sources| - 1;
      ArchivedPaths(archive, env, sources[..n], attempts[..n]);
      WrittenPathsSnoc(env, sources, attempts);
      ArchiveStepKeys(Archived(archive, env, sources[..n], attempts[..n]), env, sources[n], attempts[n]);
    }
  }

  lemma WrittenPathsSnoc(env: Env, sources: seq<Source>, attempts: seq<Attempt>)
    requires |attempts| == |sources| && sources != []
    ensures var n := |sources| - 1;
      WrittenPaths(env, sources, attempts) == WrittenPaths(env, sources[..n], attempts[..n]) + [WrittenPaths(env, sources, attempts)[n]]
  {
    var n := |sources| - 1;
    var w := WrittenPaths(env, sources, attempts);
    var v := WrittenPaths(env, sources[..n], attempts[..n]);
    forall i | 0 <= i < n ensures w[i] == v[i] {
      assert sources[..n][i] == sources[i] && attempts[..n][i] == attempts[i];
    }
  }

  /** One pass adds its save path to the archive when it writes its payload, and nothing else. */
  lemma ArchiveStepKeys(archive: map<string, Bytes>, env: Env, src: Source, att: Attempt)
    ensures forall p :: p in ArchiveStep(archive, env, src, att) <==>
      p in archive || (Writes(env, att) && p == SavePath(env.projectRoot, src.name, att.savedAt))
  {
  }

  /** What one more pass of the source loop adds to `results` and to the archive. */
  lemma LoopStep(env: Env, archive: map<string, Bytes>, sources: seq<Source>, attempts: seq<Attempt>, i: nat)
    requires |attempts| == |sources| && i < |sources|
    ensures Collected(env, sources[..i + 1], attempts[..i + 1])
      == Collected(env, sources[..i], attempts[..i]) + Somes([Outcome(env, sources[i], attempts[i])])
    ensures Archived(archive, env, sources[..i + 1], attempts[..i + 1])
      == ArchiveStep(Archived(archive, env, sources[..i], attempts[..i]), env, sources[i], attempts[i])
  {
    assert sources[..i + 1] == sources[..i] + [sources[i]] && attempts[..i + 1] == attempts[..i] + [attempts[i]];
    assert sources[..i + 1][..i] == sources[..i] && attempts[..i + 1][..i] == attempts[..i];
    MapPairsAppend(sources[..i], attempts[..i], [sources[i]], [attempts[i]], Step(env));
    SomesAppend(Outcomes(env, sources[..i], attempts[..i]), Outcomes(env, [sources[i]], [attempts[i]]));
  }

  /** The sources are handled one after the other: the records of a run over `s + t` are those of
      `s` followed by those of `t`, so a failing source never affects the ones after it. */
  lemma CollectedAppend(env: Env, s: seq<Source>, a: seq<Attempt>, t: seq<Source>, b: seq<Attempt>)
    requires |a| == |s| && |b| == |t|
    ensures Collected(env, s + t, a + b) == Collected(env, s, a) + Collected(env, t, b)
  {
    MapPairsAppend(s, a, t, b, Step(env));
    SomesAppend(Outcomes(env, s, a), Outcomes(env, t, b));
  }

  /** Entry `i` of the per-source outcomes is what source `i` yields with attempt `i`. */
  lemma OutcomesAt(env: Env, sources: seq<Source>, attempts: seq<Attempt>, i: nat)
    requires |attempts| == |sources| && i < |sources|
    ensures |Outcomes(env, sources, attempts)| == |sources|
    ensures Outcomes(env, sources, attempts)[i] == Outcome(env, sources[i], attempts[i])
  {
  }

  /**
   * The records are the successful sources' records, one per source, in source
   * order: record `k` is the outcome of the source at `SomePositions(...)[k]`,
   * those positions strictly increase, and every source that yields a record
   * has its position among them.
   */
  lemma CollectedFromSources(env: Env, sources: seq<Source>, attempts: seq<Attempt>)
    requires |attempts| == |sources|
    ensures var os := Outcomes(env, sources, attempts);
      |SomePositions(os)| == |Collected(env, sources, attempts)|
    ensures var os := Outcomes(env, sources, attempts);
      forall k :: 0 <= k < |Collected(env, sources, attempts)| ==>
        SomePositions(os)[k] < |sources| && os[SomePositions(os)[k]] == Some(Collected(env, sources, attempts)[k])
    ensures var os := Outcomes(env, sources, attempts);
      forall k, l :: 0 <= k < l < |SomePositions(os)| ==> SomePositions(os)[k] < SomePositions(os)[l]
    ensures var os := Outcomes(env, sources, attempts);
      forall i :: 0 <= i < |sources| && os[i].Some? ==> i in SomePositions(os)
  {
    var os := Outcomes(env, sources, attempts);
    assert Collected(env, sources, attempts) == Somes(os);
    SomesAtPositions(os);
    SomePositionsIncrease(os);
    SomePositionsComplete(os);
  }

  /** Record `k` is the outcome of one particular source, on that source's own attempt. */
  lemma CollectedRecordSource(env: Env, sources: seq<Source>, attempts: seq<Attempt>, k: nat)
    requires |attempts| == |sources|
    requires k < |Collected(env, sources, attempts)|
    ensures |SomePositions(Outcomes(env, sources, attempts))| == |Collected(env, sources, attempts)|
    ensures var p := SomePositions(Outcomes(env, sources, attempts))[k];
      p < |sources| && Outcome(env, sources[p], attempts[p]) == Some(Collected(env, sources, attempts)[k])
  {
    CollectedFromSources(env, sources, attempts);
    OutcomesAt(env, sources, attempts, SomePositions(Outcomes(env, sources, attempts))[k]);
  }

  /** The fields of the history log, in column order. */
  const HISTORY_FIELDS: seq<string> := ["ts_paris", "name", "path", "sha256", "rows", "cols"]

  /** One history line for a record, stamped with the clock reading taken when it is written. */
  function HistoryRow(ts: DateTime, r: Record): seq<string>
  {
    [Stamp(ts), r.name, r.path, r.sha256, Decimal(r.profile.rows), Decimal(r.profile.cols)]
  }

  /** The lines written for `results`, the k-th stamped with the k-th clock reading. */
  function HistoryRows(results: seq<Record>, clock: nat -> DateTime): seq<seq<string>>
  {
    seq(|results|, k requires 0 <= k < |results| => HistoryRow(clock(k), results[k]))
  }

  /** The history log after a run: the old lines untouched (or, for a new file, the header),
      then one line per record. */
  function HistoryAfter(before: Option<seq<seq<string>>>, results: seq<Record>, clock: nat -> DateTime): seq<seq<string>>
  {
    HistoryStart(before) + HistoryRows(results, clock)
  }

  /** The log once opened for appending: its old lines, or just the header for a new file. */
  function HistoryStart(before: Option<seq<seq<string>>>): seq<seq<string>>
  {
    match before case Some(lines) => lines case None => [HISTORY_FIELDS]
  }

  lemma HistoryRowsSnoc(results: seq<Record>, clock: nat -> DateTime, j: nat)
    requires j < |results|
    ensures HistoryRows(results[..j + 1], clock) == HistoryRows(results[..j], clock) + [HistoryRow(clock(j), results[j])]
  {
  }

  /** Line `k` written for the results carries record `k`'s name, path and digest, and its
      shape fields read back as the profiled row and column counts. */
  lemma HistoryRowFields(results: seq<Record>, clock: nat -> DateTime, k: nat)
    requires k < |results|
    ensures var line := HistoryRows(results, clock)[k];
      && line == HistoryRow(clock(k), results[k])
      && |line| == 6
      && line[0] == Stamp(clock(k))
      && line[1] == results[k].name
      && line[2] == results[k].path
      && line[3] == results[k].sha256
      && ParseDecimal(line[4]) == results[k].profile.rows
      && ParseDecimal(line[5]) == results[k].profile.cols
  {
    DecimalRoundTrip(results[k].profile.rows);
    DecimalRoundTrip(results[k].profile.cols);
  }

  /** Earlier content is kept as a prefix, the header is written iff the file is new, and
      the lines for the records follow in record order. */
  lemma HistoryLayout(before: Option<seq<seq<string>>>, results: seq<Record>, clock: nat -> DateTime)
    ensures var after := HistoryAfter(before, results, clock);
      var start := if before.Some? then |before.value| else 1;
      && |after| == start + |results|
      && (before.Some? ==> after[..start] == before.value)
      && (before.None? ==> after[0] == HISTORY_FIELDS)
      && after[start..] == HistoryRows(results, clock)
  {
  }

  /** The file system the collector touches: the archive files under DATA_DIR, by path, and the
      history log `collect_history.csv` as rows of fields (None while the file does not exist). */
  class Disk {
    var archive: map<string, Bytes>
    var history: Option<seq<seq<string>>>

    constructor (archive: map<string, Bytes>, history: Option<seq<seq<string>>>)
      ensures this.archive == archive && this.history == history
    {
      this.archive := archive;
      this.history := history;
    }
  }

  /** Writes the payload to a new archive file named after the source and the clock reading. */
  method SaveBytesToFile(disk: Disk, projectRoot: string, b: Bytes, name: string, now: DateTime, writeSucceeds: bool)
    returns (r: Result<string, IoError>)
    modifies disk`archive
    ensures writeSucceeds ==> r == Success(SavePath(projectRoot, name, now))
    ensures !writeSucceeds ==> r == Failure(OSError)
    ensures disk.archive == if writeSucceeds then old(disk.archive)[SavePath(projectRoot, name, now) := b] else old(disk.archive)
  {
    var path := Join(DataDir(projectRoot), ArchiveName(name, now));
    if !writeSucceeds {
      return Failure(OSError);
    }
    disk.archive := disk.archive[path := b];
    r := Success(path);
  }

  /** Reads an archive file back and profiles it; None when the read raises. */
  method QuickProfileCsv(disk: Disk, path: string, readCsv: Bytes -> Option<CsvShape>) returns (p: Option<Profile>)
    ensures path !in disk.archive ==> p.None?
    ensures path in disk.archive ==> p == ProfileOf(readCsv, disk.archive[path])
  {
    if path !in disk.archive {
      return None;
    }
    var df := readCsv(disk.archive[path]);
    match df {
      case None => p := None;
      case Some(f) => p := Some(QuickProfile(f));
    }
  }

  /** One pass of the source loop, the body of its try block: download, digest, validate, save,
      profile. A failing step ends the pass with nothing recorded. */
  method CollectSource(disk: Disk, env: Env, src: Source, attempt: Attempt) returns (r: Option<Record>)
    modifies disk`archive
    ensures r == Outcome(env, src, attempt)
    ensures disk.archive == ArchiveStep(old(disk.archive), env, src, attempt)
  {
    match attempt.download {
      case None =>
        // the download raised: logged, and the loop moves on
        return None;
      case Some(b) =>
        var digest := env.sha256(b);
        if !ValidateCsvBytes(b, env.headParses) {
          return None;
        }
        var saved := SaveBytesToFile(disk, env.projectRoot, b, src.name, attempt.savedAt, attempt.writeSucceeds);
        if saved.Failure? {
          return None;
        }
        var prof := QuickProfileCsv(disk, saved.value, env.readCsv);
        if prof.None? {
          return None;
        }
        r := Some(Record(src.name, saved.value, digest, prof.value));
    }
  }

  /** Appends the run's records to the history log, which `open(..., "a")` creates when missing;
      the header goes in only when the file did not exist before. */
  method AppendHistory(disk: Disk, results: seq<Record>, rowClock: nat -> DateTime)
    modifies disk`history
    ensures disk.history == Some(HistoryAfter(old(disk.history), results, rowClock))
  {
    ghost var start := HistoryStart(disk.history);
    var existed := disk.history.Some?;
    if !existed {
      disk.history := Some([]);
      disk.history := Some(disk.history.value + [HISTORY_FIELDS]);
      assert [] + [HISTORY_FIELDS] == start;
    }
    assert HistoryRows(results[..0], rowClock) == [];
    assert start + [] == start;
    var j := 0;
    while j < |results|
      invariant 0 <= j <= |results|
      invariant disk.history == Some(start + HistoryRows(results[..j], rowClock))
    {
      var line := HistoryRow(rowClock(j), results[j]);
      disk.history := Some(disk.history.value + [line]);
      HistoryRowsSnoc(results, rowClock, j);
      assert start + HistoryRows(results[..j], rowClock) + [line] == start + (HistoryRows(results[..j], rowClock) + [line]);
      j := j + 1;
    }
    assert results[..j] == results;
  }

  /**
   * The collector's main run over the configured sources (SOURCES in the program): each source in
   * its own try block, then the history log.
   */
  method CollectAll(disk: Disk, env: Env, sources: seq<Source>, attempts: seq<Attempt>, rowClock: nat -> DateTime)
    returns (results: seq<Record>)
    requires |attempts| == |sources|
    modifies disk
    ensures results == Collected(env, sources, attempts)
    ensures disk.archive == Archived(old(disk.archive), env, sources, attempts)
    ensures disk.history == Some(HistoryAfter(old(disk.history), results, rowClock))
  {
    results := [];
    var i := 0;
    while i < |sources|
      invariant 0 <= i <= |sources|
      invariant results == Collected(env, sources[..i], attempts[..i])
      invariant disk.archive == Archived(old(disk.archive), env, sources[..i], attempts[..i])
      invariant disk.history == old(disk.history)
    {
      var r := CollectSource(disk, env, sources[i], attempts[i]);
      LoopStep(env, old(disk.archive), sources, attempts, i);
      results := results + Somes([r]);
      i := i + 1;
    }
    assert sources[..i] == sources && attempts[..i] == attempts;
    AppendHistory(disk, results, rowClock);
  }
}
