/**
 * parseLogs: the walk over `<base>/projects`, its project filter and
 * modification-time filter, the cutoff for `--days`, one shared dedup map for
 * every file, and the aggregation of that map into a ParseResult.
 *
 * The directory walk itself is an input: the `.jsonl` candidates under the
 * projects directory, in the order filepath.WalkDir reaches them, each with
 * its path relative to the projects directory, its modification time (None
 * when the entry's Info fails) and its content.
 */
module Logs {
  import opened Wrappers
  import opened Text
  import opened Pricing
  import opened Ingest
  import opened Aggregation

  // ---------------------------------------------------------------------------
  // The cutoff of `--days`

  /** Instants are seconds of local time; a local day is 86400 of them. */
  const SecondsPerDay: int := 86400

  /** The local day an instant falls on. */
  function DayOf(t: int): int {
    t / SecondsPerDay
  }

  /** Local midnight (days-1) days before the day of `now`; no cutoff unless days > 0. */
  function CutoffFor(days: int, now: int): (c: Cutoff)
    ensures c.CutoffAt? <==> days > 0
    ensures c.CutoffAt? ==> DayOf(c.instant) == DayOf(now) - (days - 1) && c.instant % SecondsPerDay == 0
  {
    if days > 0 then CutoffAt((DayOf(now) - (days - 1)) * SecondsPerDay) else NoCutoff
  }

  /**
   * The window is whole local days: an instant is at or after the cutoff iff
   * its day is one of the last `days` days up to today (so days = 1 is today).
   */
  lemma CutoffKeepsLastDays(days: int, now: int, t: int)
    requires days > 0
    ensures t >= CutoffFor(days, now).instant <==> DayOf(now) - (days - 1) <= DayOf(t)
  {
    var start := DayOf(now) - (days - 1);
    assert t == DayOf(t) * SecondsPerDay + t % SecondsPerDay;
    if DayOf(t) < start {
      assert DayOf(t) * SecondsPerDay <= (start - 1) * SecondsPerDay;
    } else {
      assert DayOf(t) * SecondsPerDay >= start * SecondsPerDay;
    }
  }

  // ---------------------------------------------------------------------------
  // The walk

  datatype WalkFile = WalkFile(relPath: string, modTime: Option<int>, content: FileContent)

  function ProjectsDir(baseDir: string): string {
    if baseDir == "" then "projects" else JoinPath(baseDir, "projects")
  }

  /** strings.SplitN(rel, "/", 2)[0]: the text before the first '/'. */
  function FirstSegment(rel: string): (r: string)
    ensures r <= rel
    ensures forall j :: 0 <= j < |r| ==> r[j] != '/'
    ensures |r| == |rel| || rel[|r|] == '/'
  {
    var i := IndexOf(rel, "/");
    if i < 0 then
      assert forall j :: 0 <= j < |rel| ==> rel[j] != '/' by {
        forall j | 0 <= j < |rel| ensures rel[j] != '/' {
          assert !OccursAt(rel, "/", j);
        }
      }
      rel
    else
      assert forall j :: 0 <= j < i ==> rel[j] != '/' by {
        forall j | 0 <= j < i ensures rel[j] != '/' {
          assert !OccursAt(rel, "/", j);
        }
      }
      rel[..i]
  }

  /**
   * A file lies in a project directory that the filter prunes: the walk
   * returns SkipDir for every directory below `projects` whose first segment
   * does not contain the filter, ignoring case. Files directly in `projects`
   * are never pruned, because the filter is only consulted for directories.
   */
  predicate Pruned(rel: string, filter: string) {
    && filter != ""
    && Contains(rel, "/")
    && !Contains(Lower(FirstSegment(rel)), Lower(filter))
  }

  /** The file is too old for the window, by its modification time. */
  predicate TooOld(f: WalkFile, cutoff: Cutoff) {
    cutoff.CutoffAt? && f.modTime.Some? && f.modTime.value < cutoff.instant
  }

  /** The walk callback reaches parseFile for this file. */
  predicate Visits(f: WalkFile, projectsDir: string, filter: string, cutoff: Cutoff) {
    && !Pruned(f.relPath, filter)
    && HasSuffix(JoinPath(projectsDir, f.relPath), ".jsonl")
    && !TooOld(f, cutoff)
  }

  /** The walk's running state: writes into the shared map, and its two counters. */
  datatype WalkState = WalkState(writes: seq<Write>, totalFiles: nat, parseErrors: nat)

  /** The writes parseFile makes for one file of the walk: none unless it is visited and opens. */
  function FileWrites(f: WalkFile, projectsDir: string, filter: string, cutoff: Cutoff): seq<Write> {
    if Visits(f, projectsDir, filter, cutoff) && f.content.Scanned? then
      FoldLines(f.content.lines, cutoff, Base(JoinPath(projectsDir, f.relPath)), FirstSegment(f.relPath)).writes
    else []
  }

  /**
   * One callback for a file: totalFiles counts the file before it is read;
   * a file that fails to open or to read keeps the writes it made but adds
   * no parse errors.
   */
  function WalkStep(st: WalkState, f: WalkFile, projectsDir: string, filter: string, cutoff: Cutoff): (r: WalkState)
    ensures !Visits(f, projectsDir, filter, cutoff) ==> r == st
    ensures Visits(f, projectsDir, filter, cutoff) ==> r.totalFiles == st.totalFiles + 1
    ensures st.writes <= r.writes && r.parseErrors >= st.parseErrors
    ensures f.content.OpenFailed? || (f.content.Scanned? && f.content.readFailed) ==> r.parseErrors == st.parseErrors
    // A visited file that opens appends exactly its fold's writes, and its parse errors unless reading failed.
    ensures Visits(f, projectsDir, filter, cutoff) && f.content.Scanned? ==>
              var fs := FoldLines(f.content.lines, cutoff, Base(JoinPath(projectsDir, f.relPath)), FirstSegment(f.relPath));
              && r.writes == st.writes + fs.writes
              && r.parseErrors == st.parseErrors + (if f.content.readFailed then 0 else fs.parseErrs)
    ensures f.content.OpenFailed? ==> r.writes == st.writes
    ensures r.writes == st.writes + FileWrites(f, projectsDir, filter, cutoff)
  {
    if !Visits(f, projectsDir, filter, cutoff) then st
    else match f.content
      case OpenFailed => st.(totalFiles := st.totalFiles + 1)
      case Scanned(lines, readFailed) =>
        var path := JoinPath(projectsDir, f.relPath);
        var fs := FoldLines(lines, cutoff, Base(path), FirstSegment(f.relPath));
        WalkState(st.writes + fs.writes, st.totalFiles + 1,
                  if readFailed then st.parseErrors else st.parseErrors + fs.parseErrs)
  }

  /** The whole walk, in traversal order. */
  function WalkFold(files: seq<WalkFile>, projectsDir: string, filter: string, cutoff: Cutoff): WalkState
    decreases |files|
  {
    if files == [] then WalkState([], 0, 0)
    else WalkStep(WalkFold(files[..|files| - 1], projectsDir, filter, cutoff), files[|files| - 1], projectsDir, filter, cutoff)
  }

  /** Each file's writes, in walk order. */
  function WalkChunks(files: seq<WalkFile>, projectsDir: string, filter: string, cutoff: Cutoff): (chunks: seq<seq<Write>>)
    ensures |chunks| == |files|
    ensures forall j :: 0 <= j < |files| ==> chunks[j] == FileWrites(files[j], projectsDir, filter, cutoff)
  {
    seq(|files|, j requires 0 <= j < |files| => FileWrites(files[j], projectsDir, filter, cutoff))
  }

  /** A file none of whose accepted lines carries `id` adds no write to `id`. */
  lemma FileWritesAvoidKey(f: WalkFile, projectsDir: string, filter: string, cutoff: Cutoff, id: string)
    requires Visits(f, projectsDir, filter, cutoff) && f.content.Scanned? ==> NoAcceptedId(f.content.lines, cutoff, id)
    requires !("_noid_" <= id)
    ensures forall q :: 0 <= q < |FileWrites(f, projectsDir, filter, cutoff)| ==> FileWrites(f, projectsDir, filter, cutoff)[q].key != id
  {
    if Visits(f, projectsDir, filter, cutoff) && f.content.Scanned? {
      var base, project := Base(JoinPath(projectsDir, f.relPath)), FirstSegment(f.relPath);
      FileAvoidsKey(f.content.lines, cutoff, base, project, id);
      assert FileWrites(f, projectsDir, filter, cutoff) == FoldLines(f.content.lines, cutoff, base, project).writes;
    } else {
      assert FileWrites(f, projectsDir, filter, cutoff) == [];
    }
  }

  /** The walk's writes are every file's writes, one file after another. */
  lemma {:induction false} WalkFoldWrites(files: seq<WalkFile>, projectsDir: string, filter: string, cutoff: Cutoff)
    ensures WalkFold(files, projectsDir, filter, cutoff).writes == Concat(WalkChunks(files, projectsDir, filter, cutoff))
    decreases |files|
  {
    if files != [] {
      var n := |files| - 1;
      WalkFoldWrites(files[..n], projectsDir, filter, cutoff);
      assert WalkChunks(files, projectsDir, filter, cutoff)[..n] == WalkChunks(files[..n], projectsDir, filter, cutoff);
    }
  }

  /** The files the walk hands to parseFile. */
  function Visited(files: seq<WalkFile>, projectsDir: string, filter: string, cutoff: Cutoff): (r: seq<WalkFile>)
    ensures |r| <= |files|
    ensures forall i :: 0 <= i < |r| ==> Visits(r[i], projectsDir, filter, cutoff)
    decreases |files|
  {
    if files == [] then []
    else
      var prev := Visited(files[..|files| - 1], projectsDir, filter, cutoff);
      if Visits(files[|files| - 1], projectsDir, filter, cutoff) then prev + [files[|files| - 1]] else prev
  }

  /** totalFiles is the number of files that reach parseFile, whether or not they can be read. */
  lemma {:induction false} TotalFilesCountsVisits(files: seq<WalkFile>, projectsDir: string, filter: string, cutoff: Cutoff)
    ensures WalkFold(files, projectsDir, filter, cutoff).totalFiles == |Visited(files, projectsDir, filter, cutoff)|
    decreases |files|
  {
    if files != [] {
      TotalFilesCountsVisits(files[..|files| - 1], projectsDir, filter, cutoff);
    }
  }

  /** The files outside pruned projects. */
  function Unpruned(files: seq<WalkFile>, filter: string): (r: seq<WalkFile>)
    ensures forall i :: 0 <= i < |r| ==> !Pruned(r[i].relPath, filter)
    decreases |files|
  {
    if files == [] then []
    else
      var prev := Unpruned(files[..|files| - 1], filter);
      if Pruned(files[|files| - 1].relPath, filter) then prev else prev + [files[|files| - 1]]
  }

  /** The empty filter prunes nothing. */
  lemma {:induction false} EmptyFilterPrunesNothing(files: seq<WalkFile>)
    ensures Unpruned(files, "") == files
  {
    if files != [] {
      EmptyFilterPrunesNothing(files[..|files| - 1]);
    }
  }

  /**
   * The project filter acts only by pruning: walking with a filter is walking
   * the unpruned files with no filter.
   */
  lemma {:induction false} FilterOnlyPrunes(files: seq<WalkFile>, projectsDir: string, filter: string, cutoff: Cutoff)
    ensures WalkFold(files, projectsDir, filter, cutoff) == WalkFold(Unpruned(files, filter), projectsDir, "", cutoff)
    decreases |files|
  {
    if files != [] {
      var n := |files| - 1;
      FilterOnlyPrunes(files[..n], projectsDir, filter, cutoff);
      var prev := Unpruned(files[..n], filter);
      var st := WalkFold(files[..n], projectsDir, filter, cutoff);
      WalkStepPruned(st, files[n], projectsDir, filter, cutoff);
      if !Pruned(files[n].relPath, filter) {
        assert (prev + [files[n]])[..|prev|] == prev;
      }
    }
  }

  /** One callback with a filter: a pruned file changes nothing, any other is handled as with no filter. */
  lemma WalkStepPruned(st: WalkState, f: WalkFile, projectsDir: string, filter: string, cutoff: Cutoff)
    ensures WalkStep(st, f, projectsDir, filter, cutoff)
            == if Pruned(f.relPath, filter) then st else WalkStep(st, f, projectsDir, "", cutoff)
  {
    assert !Pruned(f.relPath, "");
  }

  /** The project filter ignores case: two filters with the same lower case walk alike. */
  lemma {:induction false} FilterIgnoresCase(files: seq<WalkFile>, projectsDir: string, f1: string, f2: string, cutoff: Cutoff)
    requires Lower(f1) == Lower(f2)
    ensures WalkFold(files, projectsDir, f1, cutoff) == WalkFold(files, projectsDir, f2, cutoff)
    decreases |files|
  {
    if files != [] {
      FilterIgnoresCase(files[..|files| - 1], projectsDir, f1, f2, cutoff);
      assert f1 == "" <==> f2 == "" by {
        assert |Lower(f1)| == |f1| && |Lower(f2)| == |f2|;
      }
    }
  }

  /** Without a cutoff no file is skipped for its modification time. */
  lemma {:induction false} NoCutoffIgnoresModTimes(files: seq<WalkFile>, others: seq<WalkFile>, projectsDir: string, filter: string)
    requires |others| == |files|
    requires forall i :: 0 <= i < |files| ==> others[i].relPath == files[i].relPath && others[i].content == files[i].content
    ensures WalkFold(files, projectsDir, filter, NoCutoff) == WalkFold(others, projectsDir, filter, NoCutoff)
    decreases |files|
  {
    if files != [] {
      var n := |files| - 1;
      NoCutoffIgnoresModTimes(files[..n], others[..n], projectsDir, filter);
    }
  }

  // ---------------------------------------------------------------------------
  // parseLogs

  /** The report, without its wall-clock Duration. */
  datatype ParseResult = ParseResult(
    modelUsage: map<string, Bucket>,
    dailyUsage: Views,
    projectUsage: Views,
    totalFiles: nat,
    totalRecords: nat,
    parseErrors: nat)

  /** The dedup map a walk leaves behind. */
  function Deduped(files: seq<WalkFile>, projectsDir: string, filter: string, cutoff: Cutoff): map<string, Record> {
    ApplyWrites(map[], WalkFold(files, projectsDir, filter, cutoff).writes)
  }

  /**
   * Deduplication across the whole walk: an accepted line with request ID
   * `id`, in a file the walk reads, leaves its record (model, project, date,
   * usage) under `id` when no accepted line after it, in its file or in a
   * later one, carries the same ID. An ID that starts like a synthetic key
   * is set aside, since a later line without ID could reuse it.
   */
  lemma LastAcceptedLineWins(files: seq<WalkFile>, projectsDir: string, filter: string, cutoff: Cutoff,
                             fi: nat, li: nat, id: string)
    requires fi < |files| && Visits(files[fi], projectsDir, filter, cutoff) && files[fi].content.Scanned?
    requires li < |files[fi].content.lines|
    requires var v := Classify(files[fi].content.lines[li], cutoff); v.Accepted? && v.rec.requestId == id
    requires id != "" && !("_noid_" <= id)
    requires NoAcceptedId(files[fi].content.lines[li + 1..], cutoff, id)
    requires forall j :: fi < j < |files| && Visits(files[j], projectsDir, filter, cutoff) && files[j].content.Scanned? ==>
               NoAcceptedId(files[j].content.lines, cutoff, id)
    ensures var v := Classify(files[fi].content.lines[li], cutoff);
      var d := Deduped(files, projectsDir, filter, cutoff);
      && id in d
      && d[id] == Record(v.rec.model, FirstSegment(files[fi].relPath), v.date, v.rec.usage.value)
  {
    var f := files[fi];
    var lines := f.content.lines;
    var chunks: seq<seq<Write>> := WalkChunks(files, projectsDir, filter, cutoff);
    FileLastWrite(lines, cutoff, Base(JoinPath(projectsDir, f.relPath)), FirstSegment(f.relPath), li, id);
    forall j | fi < j < |files|
      ensures forall q :: 0 <= q < |chunks[j]| ==> chunks[j][q].key != id
    {
      FileWritesAvoidKey(files[j], projectsDir, filter, cutoff, id);
    }
    WalkFoldWrites(files, projectsDir, filter, cutoff);
    ChunkLastWrite(chunks, fi, |AcceptedLines(lines[..li], cutoff)|, id);
  }

  /**
   * Streaming updates: a file whose two accepted lines carry the same request
   * ID leaves one record, the second line's.
   */
  lemma StreamingUpdatesKeepLast(f: WalkFile, projectsDir: string, filter: string, cutoff: Cutoff, l1: Line, l2: Line, id: string)
    requires Visits(f, projectsDir, filter, cutoff) && f.content.Scanned? && f.content.lines == [l1, l2]
    requires Classify(l1, cutoff).Accepted? && Classify(l1, cutoff).rec.requestId == id
    requires Classify(l2, cutoff).Accepted? && Classify(l2, cutoff).rec.requestId == id
    requires id != ""
    ensures var v := Classify(l2, cutoff);
      Deduped([f], projectsDir, filter, cutoff) == map[id := Record(v.rec.model, FirstSegment(f.relPath), v.date, v.rec.usage.value)]
  {
    OneFileDeduped(f, projectsDir, filter, cutoff);
    TwoLinesSameId(l1, l2, cutoff, Base(JoinPath(projectsDir, f.relPath)), FirstSegment(f.relPath), id);
  }

  /** A walk of one file that is visited and opens leaves the map of that file's writes. */
  lemma OneFileDeduped(f: WalkFile, projectsDir: string, filter: string, cutoff: Cutoff)
    requires Visits(f, projectsDir, filter, cutoff) && f.content.Scanned?
    ensures Deduped([f], projectsDir, filter, cutoff)
            == ApplyWrites(map[], FoldLines(f.content.lines, cutoff, Base(JoinPath(projectsDir, f.relPath)), FirstSegment(f.relPath)).writes)
  {
    var fs := FoldLines(f.content.lines, cutoff, Base(JoinPath(projectsDir, f.relPath)), FirstSegment(f.relPath));
    assert [f][..0] == [];
    assert WalkFold([f], projectsDir, filter, cutoff).writes == [] + fs.writes;
    assert [] + fs.writes == fs.writes;
  }

  /**
   * parseLogs. `projectsIsDir` is what os.Stat says of `<baseDir>/projects`,
   * `now` the clock, and `walk` the files below that directory in walk order.
   */
  method ParseLogs(baseDir: string, projectsIsDir: bool, walk: seq<WalkFile>, days: int, now: int, projectFilter: string)
    returns (res: Result<ParseResult>)
    ensures !projectsIsDir ==> res == Err("no projects directory found at " + ProjectsDir(baseDir))
    ensures projectsIsDir ==> res.Ok?
    ensures res.Ok? ==>
              var cutoff := CutoffFor(days, now);
              var st := WalkFold(walk, ProjectsDir(baseDir), projectFilter, cutoff);
              var deduped := Deduped(walk, ProjectsDir(baseDir), projectFilter, cutoff);
              var r := res.value;
              && r.totalFiles == st.totalFiles
              && r.parseErrors == st.parseErrors
              && r.totalRecords == |deduped|
              && r.modelUsage == ExpectedBuckets(deduped, deduped.Keys, Everything)
              && r.dailyUsage == ExpectedView(deduped, deduped.Keys, Daily)
              && r.projectUsage == ExpectedView(deduped, deduped.Keys, PerProject)
              && Additive(r.modelUsage, r.dailyUsage) && Additive(r.modelUsage, r.projectUsage)
              && Total(r.modelUsage).requests == r.totalRecords
  {
    var projectsDir := ProjectsDir(baseDir);
    if !projectsIsDir {
      return Err("no projects directory found at " + projectsDir);
    }
    var cutoff := CutoffFor(days, now);
    var totalFiles, parseErrors := 0, 0;
    var d := new Dedup();
    ghost var writes: seq<Write> := [];
    for i := 0 to |walk|
      invariant WalkFold(walk[..i], projectsDir, projectFilter, cutoff) == WalkState(writes, totalFiles, parseErrors)
      invariant d.records == ApplyWrites(map[], writes)
    {
      var f := walk[i];
      assert walk[..i + 1][..i] == walk[..i];
      if Visits(f, projectsDir, projectFilter, cutoff) {
        var path := JoinPath(projectsDir, f.relPath);
        var projectSlug := FirstSegment(f.relPath);
        totalFiles := totalFiles + 1;
        var _, pErr, failed := ParseFile(Base(path), f.content, cutoff, projectSlug, d);
        if !failed {
          parseErrors := parseErrors + pErr;
        }
        if f.content.Scanned? {
          var fs := FoldLines(f.content.lines, cutoff, Base(path), projectSlug);
          ApplyWritesAppend(map[], writes, fs.writes);
          writes := writes + fs.writes;
        }
      }
    }
    assert walk[..|walk|] == walk;
    var models, daily, projects := Aggregate(d.records);
    res := Ok(ParseResult(models, daily, projects, totalFiles, |d.records|, parseErrors));
  }
}
