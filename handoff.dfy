/**
 * Where the two stages meet. The collector names each archive
 * `{source}_{YYYYMMDD_HHMMSS}.csv` inside DATA_DIR; the loader takes the
 * greatest name that starts with `owid_covid_data` and ends with `.csv`. The
 * lemmas here show that the configured source's archives are the files the
 * loader looks for, and that of several archives of one source the loader
 * picks the one with the latest Paris wall-clock reading. Outside the repeated
 * hour at the autumn clock change that is the one saved last.
 */
module Handoff {
  import opened Wrappers
  import opened Text
  import opened Paths
  import opened Clock
  import F = FetchOwid
  import E = EtlLoad

  /** For one source, archive names sort like their wall-clock save readings, and distinct readings give distinct names. */
  lemma ArchiveNameOrder(name: string, t1: DateTime, t2: DateTime)
    ensures LexLe(F.ArchiveName(name, t1), F.ArchiveName(name, t2)) <==> ChronoLe(t1, t2)
    ensures F.ArchiveName(name, t1) == F.ArchiveName(name, t2) <==> t1 == t2
  {
    var p := name + "_";
    var s1, s2 := Stamp(t1), Stamp(t2);
    StampShape(t1);
    StampShape(t2);
    assert F.ArchiveName(name, t1) == p + (s1 + ".csv");
    assert F.ArchiveName(name, t2) == p + (s2 + ".csv");
    LexLeCommonPrefix(p, s1 + ".csv", s2 + ".csv");
    ConcatEqual(p, s1 + ".csv", p, s2 + ".csv");
    LexLeBlocks(s1, ".csv", s2, ".csv");
    ConcatEqual(s1, ".csv", s2, ".csv");
    LexLeRefl(".csv");
    LexLeRefl(s1);
    StampOrder(t1, t2);
  }

  /** A source whose name starts with the loader's prefix produces archives the loader accepts. */
  lemma SourceArchiveIsFound(name: string, ts: DateTime)
    requires StartsWith(name, E.ARCHIVE_PREFIX)
    ensures E.IsArchiveName(F.ArchiveName(name, ts))
  {
    F.ArchiveNameShape(name, ts);
    var f := F.ArchiveName(name, ts);
    assert f[..|E.ARCHIVE_PREFIX|] == f[..|name| + 1][..|E.ARCHIVE_PREFIX|];
    assert (name + "_")[..|E.ARCHIVE_PREFIX|] == name[..|E.ARCHIVE_PREFIX|];
  }

  /** Every configured source's archives are found by the loader. */
  lemma ConfiguredArchivesAreFound(ts: DateTime)
    ensures forall src :: src in F.SOURCES ==> E.IsArchiveName(F.ArchiveName(src.name, ts))
  {
    SourceArchiveIsFound(F.SOURCES[0].name, ts);
  }

  /** An archive name contains no `/`, so the saved file's base name is the archive name. */
  lemma SavedFileName(projectRoot: string, name: string, ts: DateTime)
    requires !HasSlash(name)
    ensures Basename(F.SavePath(projectRoot, name, ts)) == F.ArchiveName(name, ts)
  {
    var f := F.ArchiveName(name, ts);
    F.ArchiveNameShape(name, ts);
    StampShape(ts);
    forall i | 0 <= i < |f| ensures f[i] != '/' {
      if i < |name| {
        assert f[i] == name[i];
      } else if |name| + 1 <= i < |name| + 16 {
        assert f[i] == f[|name| + 1..|name| + 16][i - |name| - 1];
      } else if |name| + 16 <= i {
        assert f[i] == f[|name| + 16..][i - |name| - 16];
      }
    }
    BasenameOfJoin(DataDir(projectRoot), f);
  }

  /**
   * When every archive in the directory listing is an archive of `name` whose wall-clock
   * save reading is not after `latest`, and the archive stamped `latest` is listed, the
   * loader opens the file the collector wrote with reading `latest`.
   */
  lemma NewestArchiveIsLocated(projectRoot: string, name: string, entries: seq<string>, latest: DateTime)
    requires StartsWith(name, E.ARCHIVE_PREFIX)
    requires F.ArchiveName(name, latest) in entries
    requires forall f :: f in entries && E.IsArchiveName(f) ==>
      exists t: DateTime :: f == F.ArchiveName(name, t) && ChronoLe(t, latest)
    ensures E.GetLatestCsv(projectRoot, entries) == Success(F.SavePath(projectRoot, name, latest))
  {
    var a := F.ArchiveName(name, latest);
    SourceArchiveIsFound(name, latest);
    var r := E.GetLatestCsv(projectRoot, entries);
    var f :| f in entries && E.IsArchiveName(f) && r.value == Join(DataDir(projectRoot), f) &&
      (forall g :: g in entries && E.IsArchiveName(g) ==> LexLe(g, f));
    var t: DateTime :| f == F.ArchiveName(name, t) && ChronoLe(t, latest);
    ArchiveNameOrder(name, t, latest);
    LexLeAntisymmetric(f, a);
  }

  /** Two archives of one source: the loader picks the one with the later wall-clock reading. */
  lemma LaterOfTwoIsLocated(projectRoot: string, name: string, t1: DateTime, t2: DateTime)
    requires StartsWith(name, E.ARCHIVE_PREFIX)
    requires ChronoLe(t1, t2)
    ensures E.GetLatestCsv(projectRoot, [F.ArchiveName(name, t1), F.ArchiveName(name, t2)])
      == Success(F.SavePath(projectRoot, name, t2))
  {
    var entries := [F.ArchiveName(name, t1), F.ArchiveName(name, t2)];
    assert ChronoLe(t2, t2);
    forall f | f in entries && E.IsArchiveName(f)
      ensures exists t: DateTime :: f == F.ArchiveName(name, t) && ChronoLe(t, t2)
    {
      if f == entries[0] { assert f == F.ArchiveName(name, t1); } else { assert f == F.ArchiveName(name, t2); }
    }
    NewestArchiveIsLocated(projectRoot, name, entries, t2);
  }
}
