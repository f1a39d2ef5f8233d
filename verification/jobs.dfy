/** The two image-generation job runners: `run_generation_500.py` at the
    repository root and `ecg-image-generator/run_generation_500.py`. Each
    collects WFDB `.dat` files from a directory walk, sorts them, selects
    the slice this run works on (a test prefix, a start/count range or one
    chunk of a job array) and starts one worker per file whose image does
    not exist yet, stopping at the first worker that fails. The walk, the
    files that exist and the workers that fail are inputs; the workers
    themselves are not modelled. */
module Jobs {
  import opened Base
  import opened Text
  import opened StrOrder

  // ---------------------------------------------------------------------
  // Collecting the records

  predicate IsDat(f: WalkedFile) { EndsWith(f.name, ".dat") }

  /** The `.dat` files of the walk, joined to their directory, in walk order. */
  function DatPaths(walk: seq<WalkedFile>): seq<string> {
    if |walk| == 0 then []
    else (if IsDat(walk[0]) then [PathJoin(walk[0].root, walk[0].name)] else []) + DatPaths(walk[1..])
  }

  lemma {:induction false} DatPathsMembers(walk: seq<WalkedFile>, p: string)
    ensures p in DatPaths(walk) <==>
            exists i :: 0 <= i < |walk| && IsDat(walk[i]) && p == PathJoin(walk[i].root, walk[i].name)
  {
    if |walk| > 0 {
      DatPathsMembers(walk[1..], p);
      if exists i :: 0 <= i < |walk[1..]| && IsDat(walk[1..][i]) && p == PathJoin(walk[1..][i].root, walk[1..][i].name) {
        var i :| 0 <= i < |walk[1..]| && IsDat(walk[1..][i]) && p == PathJoin(walk[1..][i].root, walk[1..][i].name);
        assert walk[i + 1] == walk[1..][i];
      }
      if exists i :: 0 <= i < |walk| && IsDat(walk[i]) && p == PathJoin(walk[i].root, walk[i].name) {
        var i :| 0 <= i < |walk| && IsDat(walk[i]) && p == PathJoin(walk[i].root, walk[i].name);
        if i > 0 { assert walk[1..][i - 1] == walk[i]; }
      }
    }
  }

  /** `os.path.splitext(dat_path)[0] + '.hea'`: the header beside a `.dat`. */
  function HeaderOf(dat: string): string {
    SplitExt(dat).0 + ".hea"
  }

  /** The `.dat` paths whose header file exists, in order. */
  function Paired(dats: seq<string>, existing: set<string>): seq<string> {
    if |dats| == 0 then []
    else (if HeaderOf(dats[0]) in existing then [dats[0]] else []) + Paired(dats[1..], existing)
  }

  lemma {:induction false} PairedMembers(dats: seq<string>, existing: set<string>, p: string)
    ensures p in Paired(dats, existing) <==> p in dats && HeaderOf(p) in existing
  {
    if |dats| > 0 {
      PairedMembers(dats[1..], existing, p);
      assert dats == [dats[0]] + dats[1..];
    }
  }

  // ---------------------------------------------------------------------
  // Running the workers

  /** `os.path.splitext(os.path.basename(p))[0] + '.png'`. */
  function OutputName(p: string): string {
    SplitExt(Basename(p)).0 + ".png"
  }

  /** A record `dir/stem.dat` produces the image `stem.png`. */
  lemma OutputNameOf(dir: string, stem: string)
    requires '/' !in stem
    requires exists k :: 0 <= k < |stem| && stem[k] != '.'
    ensures OutputName(PathJoin(dir, stem + ".dat")) == stem + ".png"
  {
    var name := stem + ".dat";
    assert '/' !in name by {
      forall k | 0 <= k < |name| ensures name[k] != '/' {
        if k < |stem| { assert name[k] == stem[k]; } else { assert name[k] in ".dat"; }
      }
    }
    BasenameJoin(dir, name);
    SplitExtOf(stem, ".dat");
  }

  /** The selected files whose output image does not exist yet. */
  function Pending(files: seq<string>, outDir: string, existing: set<string>): seq<string> {
    if |files| == 0 then []
    else
      (if PathJoin(outDir, OutputName(files[0])) in existing then [] else [files[0]])
      + Pending(files[1..], outDir, existing)
  }

  lemma {:induction false} PendingMembers(files: seq<string>, outDir: string, existing: set<string>, p: string)
    ensures p in Pending(files, outDir, existing) <==>
            p in files && PathJoin(outDir, OutputName(p)) !in existing
  {
    if |files| > 0 {
      PendingMembers(files[1..], outDir, existing, p);
      assert files == [files[0]] + files[1..];
    }
  }

  /** The workers started for the pending files: one per file, in order,
      up to and including the first one that fails. */
  function Attempts(pending: seq<string>, failing: set<string>): seq<string> {
    if |pending| == 0 then []
    else if pending[0] in failing then [pending[0]]
    else [pending[0]] + Attempts(pending[1..], failing)
  }

  /** `runs` is a prefix of `pending` in which only the last record can be
      in `failing`, and it stops short of `pending` only after a failure. */
  predicate StopsAtFirstFailure(pending: seq<string>, runs: seq<string>, failing: set<string>) {
    && |runs| <= |pending|
    && (forall i :: 0 <= i < |runs| ==> runs[i] == pending[i])
    && (forall i :: 0 <= i < |runs| - 1 ==> pending[i] !in failing)
    && (|runs| < |pending| ==> |runs| > 0 && pending[|runs| - 1] in failing)
  }

  /** The runs form a prefix of the pending files; only the last of them
      can have failed; they stop short only after a failure; and when no
      worker fails, every pending file is run. */
  lemma {:induction false} AttemptsStopAtFirstFailure(pending: seq<string>, failing: set<string>)
    ensures var r := Attempts(pending, failing);
            && |r| <= |pending| && r == pending[..|r|]
            && (forall i :: 0 <= i < |r| - 1 ==> r[i] !in failing)
            && (|r| < |pending| ==> |r| > 0 && r[|r| - 1] in failing)
            && ((forall i :: 0 <= i < |pending| ==> pending[i] !in failing) ==> r == pending)
  {
    if |pending| > 0 && pending[0] !in failing {
      var t := pending[1..];
      AttemptsStopAtFirstFailure(t, failing);
      var rt := Attempts(t, failing);
      var r := Attempts(pending, failing);
      assert r == [pending[0]] + rt;
      assert pending[..|r|] == [pending[0]] + t[..|rt|];
      forall i | 0 <= i < |r| - 1 ensures r[i] !in failing {
        if i > 0 { assert r[i] == rt[i - 1]; }
      }
      if |r| < |pending| { assert r[|r| - 1] == rt[|rt| - 1]; }
      if forall i :: 0 <= i < |pending| ==> pending[i] !in failing {
        forall i | 0 <= i < |t| ensures t[i] !in failing { assert t[i] == pending[i + 1]; }
        assert pending == [pending[0]] + t;
      }
    }
  }

  // ---------------------------------------------------------------------
  // Selection and outcomes

  /** Why a run starts no worker. */
  datatype Stop =
    | MissingJobArgs   // no `--limit` and not both job arguments
    | NoMode           // no range, no limit and not both job arguments
    | NoFiles          // nothing found, or the selection is empty
    | ZeroJobs         // `--total-jobs 0`: the ceiling division divides by zero
    | EmptyChunk       // a trailing job of the array receives no file

  datatype Selection = Stopped(reason: Stop) | Selected(files: seq<string>)

  /** What a runner does: stop early, or start these worker commands. */
  datatype Outcome = Halted(reason: Stop) | Ran(commands: seq<seq<string>>)

  /** `all_file_paths[j*c : min(j*c + c, n)]` with `c = (n + t - 1) // t`. */
  function JobSlice(paths: seq<string>, j: int, t: int): (r: seq<string>)
    requires t != 0
    ensures r == Chunk(paths, t, j)
  {
    var c := PyFloorDiv(|paths| + t - 1, t);
    SliceMinEnd(paths, j * c, j * c + c);
    PySlice(paths, j * c, MinInt(j * c + c, |paths|))
  }

  // ---------------------------------------------------------------------
  // run_generation_500.py (root)

  const Script500: string := "/users/lip24dg/ecg/ecg-image-generator/gen_ecg_images_from_data_batch.py"
  const OutputDir500: string := "/mnt/parscratch/users/lip24dg/data/Generated_data/records500/"

  /** The files this run works on. A limit acts as job 0 of 1. */
  function Select500(paths: seq<string>, limit: Option<int>, jobId: Option<int>, totalJobs: Option<int>): Selection {
    if limit.None? && (jobId.None? || totalJobs.None?) then Stopped(MissingJobArgs)
    else
      var ps := if limit.Some? then PySlice(paths, 0, limit.value) else paths;
      var j := if limit.Some? then 0 else jobId.value;
      var t := if limit.Some? then 1 else totalJobs.value;
      if ps == [] then Stopped(NoFiles)
      else if t == 0 then Stopped(ZeroJobs)
      else
        var files := JobSlice(ps, j, t);
        if files == [] then Stopped(EmptyChunk) else Selected(files)
  }

  /** The worker command for one record. */
  function Command500(p: string): (cmd: seq<string>)
    ensures |cmd| == 10 && cmd[3] == p
  {
    ["python3", Script500, "-i", p, "-o", OutputDir500, "--num_leads", "twelve", "--lead_bbox", "--store_config"]
  }

  /** One worker command per attempted record, in order. */
  function Commands500(runs: seq<string>): (cmds: seq<seq<string>>)
    ensures |cmds| == |runs| && forall i :: 0 <= i < |runs| ==> cmds[i] == Command500(runs[i])
  {
    seq(|runs|, i requires 0 <= i < |runs| => Command500(runs[i]))
  }

  /** `main()` of the root runner. */
  function Run500(walk: seq<WalkedFile>, limit: Option<int>, jobId: Option<int>, totalJobs: Option<int>,
                  existing: set<string>, failing: set<string>): Outcome
  {
    match Select500(Sort(DatPaths(walk)), limit, jobId, totalJobs)
    case Stopped(why) => Halted(why)
    case Selected(files) =>
      var runs := Attempts(Pending(files, OutputDir500, existing), failing);
      Ran(Commands500(runs))
  }

  /** Test mode runs the first `limit` sorted records, whatever the job
      arguments say. */
  lemma LimitSelectsPrefix500(paths: seq<string>, l: int, jobId: Option<int>, totalJobs: Option<int>)
    ensures var s := Select500(paths, Some(l), jobId, totalJobs);
            && (PySlice(paths, 0, l) == [] ==> s == Stopped(NoFiles))
            && (PySlice(paths, 0, l) != [] ==> s == Selected(PySlice(paths, 0, l)))
  {
    var ps := PySlice(paths, 0, l);
    if ps != [] {
      assert PyFloorDiv(|ps| + 1 - 1, 1) == |ps|;
      assert JobSlice(ps, 0, 1) == ps[0..|ps|];
    }
  }

  /** In a job array of `t > 0` jobs over a non-empty list, job `j` works on
      exactly its ceiling-division chunk (or stops when that is empty), and
      the chunks of jobs `0 .. t-1` laid end to end are the whole list. */
  lemma JobArrayPartition500(paths: seq<string>, t: int)
    requires t > 0 && paths != []
    ensures forall j :: 0 <= j < t ==>
              Select500(paths, None, Some(j), Some(t)) ==
              (if Chunk(paths, t, j) == [] then Stopped(EmptyChunk) else Selected(Chunk(paths, t, j)))
    ensures ChunksUpTo(paths, t, t) == paths
  {
    ChunksPartition(paths, t);
  }

  /** Without a limit, both job arguments are needed. */
  lemma MissingJobArgsIff500(paths: seq<string>, limit: Option<int>, jobId: Option<int>, totalJobs: Option<int>)
    ensures Select500(paths, limit, jobId, totalJobs) == Stopped(MissingJobArgs) <==>
            limit.None? && (jobId.None? || totalJobs.None?)
  {
    if limit.Some? || (jobId.Some? && totalJobs.Some?) {
      var s := Select500(paths, limit, jobId, totalJobs);
      assert s.Stopped? ==> s.reason != MissingJobArgs;
    }
  }

  /** A run that selected files issues one command per attempted record,
      in selection order, and the attempts stop at the first failure. */
  lemma RunStopsAtFirstFailure500(walk: seq<WalkedFile>, limit: Option<int>, jobId: Option<int>, totalJobs: Option<int>,
                                  existing: set<string>, failing: set<string>)
    requires Select500(Sort(DatPaths(walk)), limit, jobId, totalJobs).Selected?
    ensures var files := Select500(Sort(DatPaths(walk)), limit, jobId, totalJobs).files;
            var pending := Pending(files, OutputDir500, existing);
            var runs := Attempts(pending, failing);
            Run500(walk, limit, jobId, totalJobs, existing, failing) == Ran(Commands500(runs))
            && StopsAtFirstFailure(pending, runs, failing)
  {
    var files := Select500(Sort(DatPaths(walk)), limit, jobId, totalJobs).files;
    AttemptsPrefix(Pending(files, OutputDir500, existing), failing);
  }

  /** The attempts of a pending list stop at its first failure. */
  lemma AttemptsPrefix(pending: seq<string>, failing: set<string>)
    ensures StopsAtFirstFailure(pending, Attempts(pending, failing), failing)
  {
    AttemptsStopAtFirstFailure(pending, failing);
    var runs := Attempts(pending, failing);
    forall i | 0 <= i < |runs| ensures runs[i] == pending[i] {
      assert runs[i] == pending[..|runs|][i];
    }
  }

  // ---------------------------------------------------------------------
  // ecg-image-generator/run_generation_500.py

  /** The arguments the manager knows, and the ones it passes through. */
  datatype GenArgs = GenArgs(
    scriptToRun: string, dataRoot: string, imageOut: string, maskOut: string,
    jobId: Option<int>, totalJobs: Option<int>, limit: Option<int>,
    startIndex: Option<int>, numFiles: Option<int>,
    unknown: seq<string>)

  /** The files this run works on: a range, else a limit, else a job. */
  function SelectGen(paths: seq<string>, a: GenArgs): Selection {
    var chosen: Option<seq<string>> :=
      if a.startIndex.Some? && a.numFiles.Some? then
        Some(PySlice(paths, a.startIndex.value, a.startIndex.value + a.numFiles.value))
      else if a.limit.Some? then Some(PySlice(paths, 0, a.limit.value))
      else if a.jobId.Some? && a.totalJobs.Some? && a.totalJobs.value != 0 then
        Some(JobSlice(paths, a.jobId.value, a.totalJobs.value))
      else None;
    if chosen.None? then
      if a.jobId.Some? && a.totalJobs.Some? then Stopped(ZeroJobs) else Stopped(NoMode)
    else if chosen.value == [] then Stopped(NoFiles)
    else Selected(chosen.value)
  }

  /** The worker command: a fixed prefix, then every argument the manager
      did not recognise, verbatim and in order. */
  function CommandGen(python: string, a: GenArgs, p: string): (cmd: seq<string>)
    ensures |cmd| == 8 + |a.unknown| && cmd[8..] == a.unknown
    ensures cmd[..8] == [python, a.scriptToRun, "-i", p, "-o", a.imageOut, "--mask-output-dir", a.maskOut]
  {
    [python, a.scriptToRun, "-i", p, "-o", a.imageOut, "--mask-output-dir", a.maskOut] + a.unknown
  }

  /** One worker command per attempted record, in order. */
  function CommandsGen(python: string, a: GenArgs, runs: seq<string>): (cmds: seq<seq<string>>)
    ensures |cmds| == |runs| && forall i :: 0 <= i < |runs| ==> cmds[i] == CommandGen(python, a, runs[i])
  {
    seq(|runs|, i requires 0 <= i < |runs| => CommandGen(python, a, runs[i]))
  }

  /** `main()` of the manager. `python` is `sys.executable`. */
  function RunGen(walk: seq<WalkedFile>, a: GenArgs, python: string,
                  existing: set<string>, failing: set<string>): Outcome
  {
    var paths := Sort(Paired(DatPaths(walk), existing));
    match SelectGen(paths, a)
    case Stopped(why) => Halted(why)
    case Selected(files) =>
      var runs := Attempts(Pending(files, a.imageOut, existing), failing);
      Ran(CommandsGen(python, a, runs))
  }

  /** Only `.dat` files whose header exists are candidates, and the list
      is sorted. */
  lemma GenCandidates(walk: seq<WalkedFile>, existing: set<string>, p: string)
    ensures var paths := Sort(Paired(DatPaths(walk), existing));
            && Sorted(paths)
            && (p in paths <==>
                  (HeaderOf(p) in existing &&
                   exists i :: 0 <= i < |walk| && IsDat(walk[i]) && p == PathJoin(walk[i].root, walk[i].name)))
  {
    SortElements(Paired(DatPaths(walk), existing));
    PairedMembers(DatPaths(walk), existing, p);
    DatPathsMembers(walk, p);
  }

  /** Mode priority: a range wins over a limit and a job, a limit wins
      over a job, and a job with `t > 0` works on its ceiling-division
      chunk. */
  lemma ModePriorityGen(paths: seq<string>, a: GenArgs, limit: Option<int>, jobId: Option<int>, totalJobs: Option<int>)
    ensures a.startIndex.Some? && a.numFiles.Some? ==>
              SelectGen(paths, a) == SelectGen(paths, a.(limit := limit, jobId := jobId, totalJobs := totalJobs))
    ensures !(a.startIndex.Some? && a.numFiles.Some?) && a.limit.Some? ==>
              SelectGen(paths, a) == SelectGen(paths, a.(jobId := jobId, totalJobs := totalJobs))
    ensures !(a.startIndex.Some? && a.numFiles.Some?) && a.limit.None? && a.jobId.Some? && a.totalJobs.Some?
              && a.totalJobs.value > 0 && Chunk(paths, a.totalJobs.value, a.jobId.value) != [] ==>
              SelectGen(paths, a) == Selected(Chunk(paths, a.totalJobs.value, a.jobId.value))
  {
  }

  /** A range inside the list selects exactly those consecutive records. */
  lemma RangeSelectsGen(paths: seq<string>, a: GenArgs)
    requires a.startIndex.Some? && a.numFiles.Some?
    requires 0 <= a.startIndex.value && 0 < a.numFiles.value && a.startIndex.value + a.numFiles.value <= |paths|
    ensures SelectGen(paths, a) == Selected(paths[a.startIndex.value..a.startIndex.value + a.numFiles.value])
  {
    var s := a.startIndex.value;
    assert |paths[s..s + a.numFiles.value]| > 0;
  }

  /** A run that selected files issues one command per attempted record,
      each carrying the pass-through arguments, and the attempts stop at
      the first failure. */
  lemma RunStopsAtFirstFailureGen(walk: seq<WalkedFile>, a: GenArgs, python: string,
                                  existing: set<string>, failing: set<string>)
    requires SelectGen(Sort(Paired(DatPaths(walk), existing)), a).Selected?
    ensures var files := SelectGen(Sort(Paired(DatPaths(walk), existing)), a).files;
            var pending := Pending(files, a.imageOut, existing);
            var runs := Attempts(pending, failing);
            RunGen(walk, a, python, existing, failing) == Ran(CommandsGen(python, a, runs))
            && StopsAtFirstFailure(pending, runs, failing)
  {
    var files := SelectGen(Sort(Paired(DatPaths(walk), existing)), a).files;
    AttemptsPrefix(Pending(files, a.imageOut, existing), failing);
  }
}
