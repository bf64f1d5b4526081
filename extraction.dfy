/**
 The body of `main` after the model is loaded: discover the windows, stop if
 there are none, create the output directory, then walk the sorted list and,
 for each window whose tensor file is missing, load it, run the model and
 save the layer's activations under `<stem>.pt`.

 The output directory is a map from file name to an opaque artifact value
 of type `A`. Tokenizing a sequence and running the model on it is one
 opaque function `embed`; `None` stands for the call raising.
 */
module Extraction {
  import opened Wrappers
  import opened Paths
  import opened PathOrder
  import opened Catalog
  import opened Loader

  datatype Failure =
    | NoFastaFound                              // `sys.exit` before any work is done
    | LoadFailed(path: Path, error: LoadError)  // `load_sequence` raised
    | ModelFailed(path: Path)                   // tokenizing or the forward pass raised

  /** What the loop reports for a window it finished: skipped, or saved. */
  datatype Status = Skipped(name: string) | Saved(name: string)

  /** The output directory after the loop, what it did per window, and the exception that stopped it. */
  datatype RunResult<A> = RunResult(out: map<string, A>, trace: seq<Status>, failure: Option<Failure>)

  /** Every file already in `m` is still in `m'` with the same content. */
  predicate Extends<A(==)>(m: map<string, A>, m': map<string, A>)
  {
    m.Keys <= m'.Keys && forall n :: n in m ==> m'[n] == m[n]
  }

  /** The file names of the windows in `paths`. */
  function ArtifactNames(paths: seq<Path>): (names: set<string>)
  {
    if paths == [] then {} else {ArtifactName(paths[0])} + ArtifactNames(paths[1..])
  }

  lemma {:induction false} ArtifactNamesHas(paths: seq<Path>, p: Path)
    requires p in paths
    ensures ArtifactName(p) in ArtifactNames(paths)
    decreases |paths|
  {
    if paths[0] != p {
      ArtifactNamesHas(paths[1..], p);
    }
  }

  /** The exception is one that processing window `p` can raise. */
  predicate WindowFailure(f: Failure, p: Path)
  {
    (f.LoadFailed? && f.path == p) || f == ModelFailed(p)
  }

  /** Lines 111-119 for one window: load the sequence, tokenize and run the model, keep the layer. */
  function Compute<A(==)>(p: Path, load: Path -> Result<string, LoadError>, embed: string -> Option<A>): (r: Result<A, Failure>)
    ensures r.Err? ==> WindowFailure(r.error, p)
    ensures load(p).Err? ==> r == Err(LoadFailed(p, load(p).error))
    ensures load(p).Ok? && embed(load(p).value).None? ==> r == Err(ModelFailed(p))
    ensures load(p).Ok? && embed(load(p).value).Some? ==> r == Ok(embed(load(p).value).value)
  {
    match load(p)
    case Err(e) => Err(LoadFailed(p, e))
    case Ok(sequence) =>
      match embed(sequence)
      case None => Err(ModelFailed(p))
      case Some(v) => Ok(v)
  }

  /**
   One iteration of the loop (lines 106-120). An existing file is skipped and
   left as it is; otherwise the window is computed and its file added, and
   nothing else in the directory changes.
   */
  function Step<A(==)>(out: map<string, A>, p: Path, load: Path -> Result<string, LoadError>, embed: string -> Option<A>)
    : (r: Result<(map<string, A>, Status), Failure>)
    ensures ArtifactName(p) in out ==> r == Ok((out, Skipped(ArtifactName(p))))
    ensures ArtifactName(p) !in out ==> (r.Ok? <==> Compute(p, load, embed).Ok?)
    ensures ArtifactName(p) !in out && Compute(p, load, embed).Err? ==> r == Err(Compute(p, load, embed).error)
    ensures r.Err? ==> WindowFailure(r.error, p)
    ensures r.Ok? ==> Extends(out, r.value.0) && r.value.0.Keys == out.Keys + {ArtifactName(p)}
    ensures r.Ok? && ArtifactName(p) !in out ==>
      r.value.1 == Saved(ArtifactName(p)) && r.value.0[ArtifactName(p)] == Compute(p, load, embed).value
  {
    var name := ArtifactName(p);
    if name in out then Ok((out, Skipped(name)))
    else
      match Compute(p, load, embed)
      case Err(e) => Err(e)
      case Ok(v) => Ok((out[name := v], Saved(name)))
  }

  /**
   The loop over `paths` (lines 105-120). It stops at the first exception, so
   the trace is complete exactly when no window failed; files are only ever
   added, and only under the names of the windows.
   */
  function Run<A(==)>(out: map<string, A>, paths: seq<Path>, load: Path -> Result<string, LoadError>, embed: string -> Option<A>)
    : (r: RunResult<A>)
    ensures |r.trace| <= |paths|
    ensures r.failure.None? <==> |r.trace| == |paths|
    ensures r.failure.Some? ==> !r.failure.value.NoFastaFound?
    ensures Extends(out, r.out)
    decreases |paths|
  {
    if paths == [] then RunResult(out, [], None)
    else
      match Step(out, paths[0], load, embed)
      case Err(e) => RunResult(out, [], Some(e))
      case Ok((out', st)) =>
        var rest := Run(out', paths[1..], load, embed);
        RunResult(rest.out, [st] + rest.trace, rest.failure)
  }

  /** How many windows the run reported as saved. */
  function SavedCount(trace: seq<Status>): (n: nat)
    ensures n <= |trace|
  {
    if trace == [] then 0
    else (if trace[0].Saved? then 1 else 0) + SavedCount(trace[1..])
  }

  /** No two reports of a save name the same file. */
  predicate DistinctSaves(trace: seq<Status>)
  {
    forall j, k :: 0 <= j < k < |trace| && trace[j].Saved? && trace[k].Saved? ==> trace[j].name != trace[k].name
  }

  /** A name is reported saved exactly when some save report carries it. */
  lemma {:induction false} SavedNamesIn(trace: seq<Status>, n: string)
    ensures n in SavedNames(trace) <==> exists j :: 0 <= j < |trace| && trace[j].Saved? && trace[j].name == n
  {
    if trace != [] {
      SavedNamesIn(trace[1..], n);
      if n in SavedNames(trace[1..]) {
        var j :| 0 <= j < |trace[1..]| && trace[1..][j].Saved? && trace[1..][j].name == n;
        assert trace[j + 1] == trace[1..][j];
      }
      if exists j :: 0 <= j < |trace| && trace[j].Saved? && trace[j].name == n {
        var j :| 0 <= j < |trace| && trace[j].Saved? && trace[j].name == n;
        if j > 0 {
          assert trace[1..][j - 1] == trace[j];
        }
      }
    }
  }

  /** Without repeated save reports, counting them counts the names saved. */
  lemma {:induction false} DistinctSavedCount(trace: seq<Status>)
    requires DistinctSaves(trace)
    ensures SavedCount(trace) == |SavedNames(trace)|
  {
    if trace != [] {
      var tail := trace[1..];
      assert DistinctSaves(tail) by {
        forall j, k | 0 <= j < k < |tail| && tail[j].Saved? && tail[k].Saved? ensures tail[j].name != tail[k].name {
          assert tail[j] == trace[j + 1] && tail[k] == trace[k + 1];
        }
      }
      DistinctSavedCount(tail);
      if trace[0].Saved? {
        SavedNamesIn(tail, trace[0].name);
      }
    }
  }

  /** The trace a run reports when every window is skipped. */
  function AllSkipped(paths: seq<Path>): (t: seq<Status>)
    ensures |t| == |paths|
  {
    if paths == [] then [] else [Skipped(ArtifactName(paths[0]))] + AllSkipped(paths[1..])
  }

  /** The names the run reported as saved. */
  function SavedNames(trace: seq<Status>): (names: set<string>)
  {
    if trace == [] then {}
    else (if trace[0].Saved? then {trace[0].name} else {}) + SavedNames(trace[1..])
  }

  lemma {:induction false} RunTraceName<A>(out: map<string, A>, paths: seq<Path>, load: Path -> Result<string, LoadError>, embed: string -> Option<A>, i: nat)
    requires i < |Run(out, paths, load, embed).trace|
    ensures Run(out, paths, load, embed).trace[i].name == ArtifactName(paths[i])
    decreases |paths|
  {
    RunHead(out, paths, load, embed);
    if i > 0 {
      RunTraceName(Step(out, paths[0], load, embed).value.0, paths[1..], load, embed, i - 1);
      assert paths[1..][i - 1] == paths[i];
    }
  }

  /** The i-th report of a run is about the file of the i-th window. */
  lemma RunTraceNames<A>(out: map<string, A>, paths: seq<Path>, load: Path -> Result<string, LoadError>, embed: string -> Option<A>)
    ensures var r := Run(out, paths, load, embed);
      forall i :: 0 <= i < |r.trace| ==> r.trace[i].name == ArtifactName(paths[i])
  {
    var r := Run(out, paths, load, embed);
    forall i | 0 <= i < |r.trace| ensures r.trace[i].name == ArtifactName(paths[i]) {
      RunTraceName(out, paths, load, embed, i);
    }
  }

  /** A run adds files only under the names of its windows, also when an exception stops it. */
  lemma {:induction false} RunOnlyWindowNames<A>(out: map<string, A>, paths: seq<Path>, load: Path -> Result<string, LoadError>, embed: string -> Option<A>)
    ensures Run(out, paths, load, embed).out.Keys <= out.Keys + ArtifactNames(paths)
    decreases |paths|
  {
    if paths != [] {
      match Step(out, paths[0], load, embed)
      case Err(_) =>
      case Ok((out', st)) =>
        RunOnlyWindowNames(out', paths[1..], load, embed);
    }
  }

  /** Completeness: a run without an exception leaves a file for every window, and no other new file. */
  lemma {:induction false} RunComplete<A>(out: map<string, A>, paths: seq<Path>, load: Path -> Result<string, LoadError>, embed: string -> Option<A>)
    requires Run(out, paths, load, embed).failure.None?
    ensures Run(out, paths, load, embed).out.Keys == out.Keys + ArtifactNames(paths)
    decreases |paths|
  {
    if paths != [] {
      match Step(out, paths[0], load, embed)
      case Err(_) =>
      case Ok((out', st)) =>
        RunComplete(out', paths[1..], load, embed);
    }
  }

  /** The files a run reports as saved are exactly the files it added. */
  lemma {:induction false} RunSavedNames<A>(out: map<string, A>, paths: seq<Path>, load: Path -> Result<string, LoadError>, embed: string -> Option<A>)
    ensures var r := Run(out, paths, load, embed);
      SavedNames(r.trace) == r.out.Keys - out.Keys
    decreases |paths|
  {
    if paths != [] {
      match Step(out, paths[0], load, embed)
      case Err(_) =>
      case Ok((out', st)) =>
        RunSavedNames(out', paths[1..], load, embed);
        var rest := Run(out', paths[1..], load, embed);
        assert ([st] + rest.trace)[1..] == rest.trace;
    }
  }

  /** A run over windows whose files all exist skips every one of them and writes nothing. */
  lemma {:induction false} RunAllPresent<A>(out: map<string, A>, paths: seq<Path>, load: Path -> Result<string, LoadError>, embed: string -> Option<A>)
    requires ArtifactNames(paths) <= out.Keys
    ensures Run(out, paths, load, embed) == RunResult(out, AllSkipped(paths), None)
    decreases |paths|
  {
    if paths != [] {
      RunAllPresent(out, paths[1..], load, embed);
    }
  }

  /**
   Idempotence: running again after a run without an exception skips every
   window and writes nothing, whatever the files and the model would now give.
   */
  lemma RunIdempotent<A>(out: map<string, A>, paths: seq<Path>, load: Path -> Result<string, LoadError>, embed: string -> Option<A>,
                         load': Path -> Result<string, LoadError>, embed': string -> Option<A>)
    requires Run(out, paths, load, embed).failure.None?
    ensures var done := Run(out, paths, load, embed).out;
      Run(done, paths, load', embed') == RunResult(done, AllSkipped(paths), None)
  {
    RunComplete(out, paths, load, embed);
    RunAllPresent(Run(out, paths, load, embed).out, paths, load', embed');
  }

  /** When every window can be computed, the run has no exception. */
  lemma {:induction false} RunSucceeds<A>(out: map<string, A>, paths: seq<Path>, load: Path -> Result<string, LoadError>, embed: string -> Option<A>)
    requires forall k :: 0 <= k < |paths| ==> Compute(paths[k], load, embed).Ok?
    ensures Run(out, paths, load, embed).failure.None?
    decreases |paths|
  {
    if paths != [] {
      match Step(out, paths[0], load, embed)
      case Err(_) =>
      case Ok((out', st)) =>
        forall k | 0 <= k < |paths| - 1 ensures Compute(paths[1..][k], load, embed).Ok? {
          assert paths[1..][k] == paths[k + 1];
        }
        RunSucceeds(out', paths[1..], load, embed);
    }
  }

  /**
   A window whose file the run saves had no file before the run, and no
   earlier window has its name: each file is computed at most once, by the
   first window naming it, and later windows with that name are skipped.
   */
  lemma {:induction false} RunSavedAt<A>(out: map<string, A>, paths: seq<Path>, load: Path -> Result<string, LoadError>, embed: string -> Option<A>, j: nat)
    requires j < |Run(out, paths, load, embed).trace| && Run(out, paths, load, embed).trace[j].Saved?
    ensures ArtifactName(paths[j]) !in out && FirstOfName(paths, j)
    decreases |paths|
  {
    RunHead(out, paths, load, embed);
    if j > 0 {
      var out' := Step(out, paths[0], load, embed).value.0;
      assert Run(out, paths, load, embed).trace[j] == Run(out', paths[1..], load, embed).trace[j - 1];
      RunSavedAt(out', paths[1..], load, embed, j - 1);
      FirstOfNameCons(paths, j, out'.Keys);
    }
  }

  /**
   Window `j` of `paths` is the first with its name when it is so among the
   windows after the first, and the first window's name is a name it lacks.
   */
  lemma FirstOfNameCons(paths: seq<Path>, j: nat, seen: set<string>)
    requires 0 < j < |paths| && FirstOfName(paths[1..], j - 1)
    requires ArtifactName(paths[0]) in seen && ArtifactName(paths[j]) !in seen
    ensures FirstOfName(paths, j)
  {
    assert paths[1..][j - 1] == paths[j];
    forall k | 0 < k < j ensures ArtifactName(paths[k]) != ArtifactName(paths[j]) {
      assert paths[1..][k - 1] == paths[k];
    }
  }

  /** Every report of a save is about a window that is the first with its name and whose file was missing. */
  lemma RunSavesFirstOnly<A>(out: map<string, A>, paths: seq<Path>, load: Path -> Result<string, LoadError>, embed: string -> Option<A>)
    ensures var r := Run(out, paths, load, embed);
      forall j :: 0 <= j < |r.trace| && r.trace[j].Saved? ==> ArtifactName(paths[j]) !in out && FirstOfName(paths, j)
  {
    var r := Run(out, paths, load, embed);
    forall j | 0 <= j < |r.trace| && r.trace[j].Saved? ensures ArtifactName(paths[j]) !in out && FirstOfName(paths, j) {
      RunSavedAt(out, paths, load, embed, j);
    }
  }

  /** No file is saved twice in one run. */
  lemma RunSavesOnce<A>(out: map<string, A>, paths: seq<Path>, load: Path -> Result<string, LoadError>, embed: string -> Option<A>)
    ensures DistinctSaves(Run(out, paths, load, embed).trace)
  {
    var r := Run(out, paths, load, embed);
    forall j, k | 0 <= j < k < |r.trace| && r.trace[j].Saved? && r.trace[k].Saved?
      ensures r.trace[j].name != r.trace[k].name
    {
      RunTraceName(out, paths, load, embed, j);
      RunTraceName(out, paths, load, embed, k);
      RunSavedAt(out, paths, load, embed, k);
    }
  }

  /** The number of files a run computes is the number of files it adds. */
  lemma RunSavedCount<A>(out: map<string, A>, paths: seq<Path>, load: Path -> Result<string, LoadError>, embed: string -> Option<A>)
    ensures var r := Run(out, paths, load, embed);
      SavedCount(r.trace) == |r.out.Keys - out.Keys|
  {
    var r := Run(out, paths, load, embed);
    RunSavesOnce(out, paths, load, embed);
    DistinctSavedCount(r.trace);
    RunSavedNames(out, paths, load, embed);
  }

  /**
   On a stem collision the first window in list order wins: the file holds the
   embedding of the first window with that name, and later ones are skipped.
   */
  lemma {:induction false} RunFirstWins<A>(out: map<string, A>, paths: seq<Path>, load: Path -> Result<string, LoadError>, embed: string -> Option<A>, i: nat)
    requires i < |paths| && ArtifactName(paths[i]) !in out
    requires forall k :: 0 <= k < i ==> ArtifactName(paths[k]) != ArtifactName(paths[i])
    requires Run(out, paths, load, embed).failure.None?
    ensures Compute(paths[i], load, embed).Ok?
    ensures ArtifactName(paths[i]) in Run(out, paths, load, embed).out
    ensures Run(out, paths, load, embed).out[ArtifactName(paths[i])] == Compute(paths[i], load, embed).value
    decreases |paths|
  {
    var name := ArtifactName(paths[i]);
    match Step(out, paths[0], load, embed)
    case Err(_) =>
    case Ok((out', st)) =>
      var rest := Run(out', paths[1..], load, embed);
      assert Run(out, paths, load, embed).out == rest.out;
      if i == 0 {
        assert name in out' && out'[name] == Compute(paths[0], load, embed).value;
        assert Extends(out', rest.out);
      } else {
        assert name != ArtifactName(paths[0]);
        assert name !in out';
        assert paths[1..][i - 1] == paths[i];
        forall k | 0 <= k < i - 1 ensures ArtifactName(paths[1..][k]) != ArtifactName(paths[1..][i - 1]) {
          assert paths[1..][k] == paths[k + 1];
        }
        RunFirstWins(out', paths[1..], load, embed, i - 1);
      }
  }

  /**
   An exception aborts the run at the window that raised it: the directory is
   left as the windows before it made it, and no later window is looked at.
   */
  lemma {:induction false} RunFailureLocated<A>(out: map<string, A>, paths: seq<Path>, load: Path -> Result<string, LoadError>, embed: string -> Option<A>)
    requires Run(out, paths, load, embed).failure.Some?
    ensures var r := Run(out, paths, load, embed);
      var k := |r.trace|;
      && k < |paths|
      && Run(out, paths[..k], load, embed) == RunResult(r.out, r.trace, None)
      && Step(r.out, paths[k], load, embed) == Err(r.failure.value)
    decreases |paths|
  {
    var r := Run(out, paths, load, embed);
    match Step(out, paths[0], load, embed)
    case Err(e) =>
      assert r == RunResult(out, [], Some(e));
      assert paths[..0] == [];
    case Ok((out', st)) =>
      var rest := Run(out', paths[1..], load, embed);
      assert r == RunResult(rest.out, [st] + rest.trace, rest.failure);
      RunFailureLocated(out', paths[1..], load, embed);
      var k := |rest.trace| + 1;
      var pre := paths[..k];
      assert pre[0] == paths[0] && pre[1..] == paths[1..][..k - 1];
      assert Run(out', pre[1..], load, embed) == RunResult(rest.out, rest.trace, None);
      assert Run(out, pre, load, embed) == RunResult(rest.out, [st] + rest.trace, None);
      assert paths[1..][k - 1] == paths[k];
  }

  /**
   Resuming: starting from a directory that holds a part of what a run
   produced (and at least what it started with) ends with the same directory.
   */
  lemma {:induction false} RunResume<A>(out1: map<string, A>, out2: map<string, A>, paths: seq<Path>, load: Path -> Result<string, LoadError>, embed: string -> Option<A>)
    requires Run(out1, paths, load, embed).failure.None?
    requires Extends(out1, out2) && Extends(out2, Run(out1, paths, load, embed).out)
    ensures Run(out2, paths, load, embed).out == Run(out1, paths, load, embed).out
    ensures Run(out2, paths, load, embed).failure.None?
    decreases |paths|
  {
    var done := Run(out1, paths, load, embed).out;
    if paths == [] {
      assert out2 == done;
    } else {
      var name := ArtifactName(paths[0]);
      match Step(out1, paths[0], load, embed)
      case Err(_) =>
      case Ok((next1, st1)) =>
        var rest := Run(next1, paths[1..], load, embed);
        if name in out2 {
          RunResume(next1, out2, paths[1..], load, embed);
        } else {
          var next2 := out2[name := Compute(paths[0], load, embed).value];
          RunResume(next1, next2, paths[1..], load, embed);
        }
    }
  }

  /**
   Deleting some files after a clean run and running again recomputes exactly
   the deleted files and leaves the directory as the first run left it.
   */
  lemma RerunAfterDeletion<A>(paths: seq<Path>, load: Path -> Result<string, LoadError>, embed: string -> Option<A>, deleted: set<string>)
    requires Run(map[], paths, load, embed).failure.None?
    ensures var done := Run(map[], paths, load, embed).out;
      var again := Run(done - deleted, paths, load, embed);
      again.out == done && again.failure.None? && SavedNames(again.trace) == deleted * done.Keys
  {
    var done := Run(map[], paths, load, embed).out;
    RunResume(map[], done - deleted, paths, load, embed);
    RunSavedNames(done - deleted, paths, load, embed);
  }

  /**
   The rerun after deleting files computes as many files as were deleted:
   deleting one file of a clean run makes the rerun compute exactly one.
   */
  lemma RerunCountsDeleted<A>(paths: seq<Path>, load: Path -> Result<string, LoadError>, embed: string -> Option<A>, deleted: set<string>)
    requires Run(map[], paths, load, embed).failure.None?
    ensures var done := Run(map[], paths, load, embed).out;
      SavedCount(Run(done - deleted, paths, load, embed).trace) == |deleted * done.Keys|
  {
    var done := Run(map[], paths, load, embed).out;
    var kept := done - deleted;
    RerunAfterDeletion(paths, load, embed, deleted);
    RunSavedCount(kept, paths, load, embed);
    assert Run(kept, paths, load, embed).out.Keys - kept.Keys == deleted * done.Keys;
  }

  /** Window `i` is the first in `paths` with its output name. */
  predicate FirstOfName(paths: seq<Path>, i: int)
  {
    0 <= i < |paths| && forall k :: 0 <= k < i ==> ArtifactName(paths[k]) != ArtifactName(paths[i])
  }

  /**
   Deleting some files after a clean run and running again with other files
   and another model: the directory ends with the same names, the files that
   were kept are unchanged, and exactly the deleted files are reported saved.
   */
  lemma RerunAfterDeletionWithOtherModel<A>(paths: seq<Path>, load: Path -> Result<string, LoadError>, embed: string -> Option<A>,
                                            load': Path -> Result<string, LoadError>, embed': string -> Option<A>, deleted: set<string>)
    requires Run(map[], paths, load, embed).failure.None?
    requires Run(Run(map[], paths, load, embed).out - deleted, paths, load', embed').failure.None?
    ensures var done := Run(map[], paths, load, embed).out;
      var again := Run(done - deleted, paths, load', embed');
      && again.out.Keys == done.Keys
      && SavedNames(again.trace) == deleted * done.Keys
      && forall n :: n in done && n !in deleted ==> again.out[n] == done[n]
  {
    var done := Run(map[], paths, load, embed).out;
    var kept := done - deleted;
    RunComplete(map[], paths, load, embed);
    RunComplete(kept, paths, load', embed');
    RunSavedNames(kept, paths, load', embed');
    var again := Run(kept, paths, load', embed');
    assert Extends(kept, again.out);
  }

  /**
   In such a rerun each deleted file is recomputed with the new model, from
   the first window that names it.
   */
  lemma RerunRecomputesDeleted<A>(paths: seq<Path>, load: Path -> Result<string, LoadError>, embed: string -> Option<A>,
                                  load': Path -> Result<string, LoadError>, embed': string -> Option<A>, deleted: set<string>, i: nat)
    requires FirstOfName(paths, i) && ArtifactName(paths[i]) in deleted
    requires Run(Run(map[], paths, load, embed).out - deleted, paths, load', embed').failure.None?
    ensures var again := Run(Run(map[], paths, load, embed).out - deleted, paths, load', embed');
      && Compute(paths[i], load', embed').Ok?
      && ArtifactName(paths[i]) in again.out
      && again.out[ArtifactName(paths[i])] == Compute(paths[i], load', embed').value
  {
    var kept := Run(map[], paths, load, embed).out - deleted;
    RunFirstWins(kept, paths, load', embed', i);
  }

  /** The whole run of the script: its output directory (None while it does not exist), trace and exception. */
  datatype PipelineResult<A> = PipelineResult(outdir: Option<map<string, A>>, trace: seq<Status>, failure: Option<Failure>)

  function Contents<A(==)>(outdir: Option<map<string, A>>): (files: map<string, A>)
  {
    if outdir.Some? then outdir.value else map[]
  }

  /**
   Lines 99-120: an empty discovery exits before the output directory is
   created; otherwise the directory is created if missing, keeping what it
   holds, and the loop runs over the sorted list.
   */
  function Pipeline<A(==)>(entries: seq<Path>, recursive: bool, outdir: Option<map<string, A>>,
                       load: Path -> Result<string, LoadError>, embed: string -> Option<A>): (r: PipelineResult<A>)
    ensures r.failure == Some(NoFastaFound) <==> Discover(entries, recursive) == []
    ensures Discover(entries, recursive) == [] ==> r.outdir == outdir && r.trace == []
    ensures Discover(entries, recursive) != [] ==> r.outdir.Some? && Extends(Contents(outdir), r.outdir.value)
  {
    var paths := Discover(entries, recursive);
    if paths == [] then PipelineResult(outdir, [], Some(NoFastaFound))
    else
      var r := Run(Contents(outdir), paths, load, embed);
      PipelineResult(Some(r.out), r.trace, r.failure)
  }

  /** After a run without an exception, every discovered window has its file, and nothing else was added. */
  lemma PipelineComplete<A>(entries: seq<Path>, recursive: bool, outdir: Option<map<string, A>>,
                            load: Path -> Result<string, LoadError>, embed: string -> Option<A>)
    requires Pipeline(entries, recursive, outdir, load, embed).failure.None?
    ensures var r := Pipeline(entries, recursive, outdir, load, embed);
      && r.outdir.Some?
      && r.outdir.value.Keys == Contents(outdir).Keys + ArtifactNames(Discover(entries, recursive))
      && forall p :: p in entries && Selected(p, recursive) ==> ArtifactName(p) in r.outdir.value
  {
    var paths := Discover(entries, recursive);
    RunComplete(Contents(outdir), paths, load, embed);
    forall p | p in entries && Selected(p, recursive)
      ensures ArtifactName(p) in ArtifactNames(paths)
    {
      ArtifactNamesHas(paths, p);
    }
  }

  /** Running the script a second time on the same input skips every window and changes nothing. */
  lemma PipelineRerun<A>(entries: seq<Path>, recursive: bool, outdir: Option<map<string, A>>,
                         load: Path -> Result<string, LoadError>, embed: string -> Option<A>,
                         load': Path -> Result<string, LoadError>, embed': string -> Option<A>)
    requires Pipeline(entries, recursive, outdir, load, embed).failure.None?
    ensures var r := Pipeline(entries, recursive, outdir, load, embed);
      Pipeline(entries, recursive, r.outdir, load', embed') ==
        PipelineResult(r.outdir, AllSkipped(Discover(entries, recursive)), None)
  {
    RunIdempotent(Contents(outdir), Discover(entries, recursive), load, embed, load', embed');
  }

  /** The output does not depend on the order in which the file system lists the directory. */
  lemma PipelineOrderIndependent<A>(entries1: seq<Path>, entries2: seq<Path>, recursive: bool,
                                    outdir: Option<map<string, A>>, load: Path -> Result<string, LoadError>, embed: string -> Option<A>)
    requires multiset(entries1) == multiset(entries2)
    ensures Pipeline(entries1, recursive, outdir, load, embed) == Pipeline(entries2, recursive, outdir, load, embed)
  {
    DiscoverOrderIndependent(entries1, entries2, recursive);
  }

  /** The first index of `s` at or before `j` whose window is written to `name`. */
  lemma FirstWithName(s: seq<Path>, name: string, j: nat) returns (i: nat)
    requires j < |s| && ArtifactName(s[j]) == name
    ensures i <= j && ArtifactName(s[i]) == name
    ensures forall k :: 0 <= k < i ==> ArtifactName(s[k]) != name
  {
    i := 0;
    while ArtifactName(s[i]) != name
      invariant i <= j
      invariant forall k :: 0 <= k < i ==> ArtifactName(s[k]) != name
      decreases j - i
    {
      i := i + 1;
    }
  }

  /**
   On a stem collision the window that comes first in sorted path order
   determines the file, whatever order the file system lists them in.
   */
  lemma PipelineFirstInOrderWins<A>(entries: seq<Path>, recursive: bool, outdir: Option<map<string, A>>,
                                    load: Path -> Result<string, LoadError>, embed: string -> Option<A>, p: Path)
    requires p in entries && Selected(p, recursive)
    requires ArtifactName(p) !in Contents(outdir)
    requires forall q :: q in entries && Selected(q, recursive) && ArtifactName(q) == ArtifactName(p) ==> PathLe(p, q)
    requires Pipeline(entries, recursive, outdir, load, embed).failure.None?
    ensures Compute(p, load, embed).Ok?
    ensures var r := Pipeline(entries, recursive, outdir, load, embed);
      r.outdir.Some? && ArtifactName(p) in r.outdir.value && r.outdir.value[ArtifactName(p)] == Compute(p, load, embed).value
  {
    var paths := Discover(entries, recursive);
    var j :| 0 <= j < |paths| && paths[j] == p;
    var i := FirstWithName(paths, ArtifactName(p), j);
    assert PathLe(paths[i], p) by {
      if i < j { assert PathLe(paths[i], paths[j]); } else { PathLeTotalOrder(p, p, p); }
    }
    assert paths[i] in paths;
    PathLeTotalOrder(p, paths[i], p);
    RunFirstWins(Contents(outdir), paths, load, embed, i);
  }

  /** A run result with `trace` reported before its own trace. */
  function Prepend<A>(trace: seq<Status>, r: RunResult<A>): (joined: RunResult<A>)
  {
    RunResult(r.out, trace + r.trace, r.failure)
  }

  lemma PrependTwice<A>(trace: seq<Status>, st: Status, r: RunResult<A>)
    ensures Prepend(trace, Prepend([st], r)) == Prepend(trace + [st], r)
  {
    assert trace + ([st] + r.trace) == (trace + [st]) + r.trace;
  }

  /** A run that reports something reported on its first window first, and then the rest of the run. */
  lemma RunHead<A>(out: map<string, A>, paths: seq<Path>, load: Path -> Result<string, LoadError>, embed: string -> Option<A>)
    requires Run(out, paths, load, embed).trace != []
    ensures paths != [] && Step(out, paths[0], load, embed).Ok?
    ensures Run(out, paths, load, embed).trace[0] == Step(out, paths[0], load, embed).value.1
    ensures Run(out, paths, load, embed).trace[0].name == ArtifactName(paths[0])
    ensures Run(out, paths, load, embed).trace[1..] ==
      Run(Step(out, paths[0], load, embed).value.0, paths[1..], load, embed).trace
  {
    var st := Step(out, paths[0], load, embed).value.1;
    if ArtifactName(paths[0]) in out {
      assert st == Skipped(ArtifactName(paths[0]));
    } else {
      assert st == Saved(ArtifactName(paths[0]));
    }
  }

  /** Unfolding a run at a window whose file exists. */
  lemma RunSkip<A>(out: map<string, A>, paths: seq<Path>, load: Path -> Result<string, LoadError>, embed: string -> Option<A>)
    requires paths != [] && ArtifactName(paths[0]) in out
    ensures Run(out, paths, load, embed) ==
      Prepend([Skipped(ArtifactName(paths[0]))], Run(out, paths[1..], load, embed))
  {
  }

  /** Unfolding a run at a window that is computed and saved. */
  lemma RunSave<A>(out: map<string, A>, paths: seq<Path>, load: Path -> Result<string, LoadError>, embed: string -> Option<A>, v: A)
    requires paths != [] && ArtifactName(paths[0]) !in out
    requires Compute(paths[0], load, embed) == Ok(v)
    ensures Run(out, paths, load, embed) ==
      Prepend([Saved(ArtifactName(paths[0]))], Run(out[ArtifactName(paths[0]) := v], paths[1..], load, embed))
  {
  }

  /** Unfolding a run at a window whose computation raises. */
  lemma RunStop<A>(out: map<string, A>, paths: seq<Path>, load: Path -> Result<string, LoadError>, embed: string -> Option<A>, e: Failure)
    requires paths != [] && ArtifactName(paths[0]) !in out
    requires Compute(paths[0], load, embed) == Err(e)
    ensures Run(out, paths, load, embed) == RunResult(out, [], Some(e))
  {
  }

  /** One pass of the loop over a window whose file exists. */
  lemma SkipAt<A>(trace: seq<Status>, out: map<string, A>, paths: seq<Path>, i: nat, load: Path -> Result<string, LoadError>, embed: string -> Option<A>)
    requires i < |paths| && ArtifactName(paths[i]) in out
    ensures Prepend(trace, Run(out, paths[i..], load, embed)) ==
      Prepend(trace + [Skipped(ArtifactName(paths[i]))], Run(out, paths[i + 1..], load, embed))
  {
    assert paths[i..][0] == paths[i] && paths[i..][1..] == paths[i + 1..];
    RunSkip(out, paths[i..], load, embed);
    PrependTwice(trace, Skipped(ArtifactName(paths[i])), Run(out, paths[i + 1..], load, embed));
  }

  /** One pass of the loop over a window that is computed and saved. */
  lemma SaveAt<A>(trace: seq<Status>, out: map<string, A>, paths: seq<Path>, i: nat, load: Path -> Result<string, LoadError>, embed: string -> Option<A>, v: A)
    requires i < |paths| && ArtifactName(paths[i]) !in out
    requires Compute(paths[i], load, embed) == Ok(v)
    ensures Prepend(trace, Run(out, paths[i..], load, embed)) ==
      Prepend(trace + [Saved(ArtifactName(paths[i]))], Run(out[ArtifactName(paths[i]) := v], paths[i + 1..], load, embed))
  {
    assert paths[i..][0] == paths[i] && paths[i..][1..] == paths[i + 1..];
    RunSave(out, paths[i..], load, embed, v);
    PrependTwice(trace, Saved(ArtifactName(paths[i])), Run(out[ArtifactName(paths[i]) := v], paths[i + 1..], load, embed));
  }

  /** The pass of the loop over a window whose computation raises: the loop ends there. */
  lemma StopAt<A>(trace: seq<Status>, out: map<string, A>, paths: seq<Path>, i: nat, load: Path -> Result<string, LoadError>, embed: string -> Option<A>, e: Failure)
    requires i < |paths| && ArtifactName(paths[i]) !in out
    requires Compute(paths[i], load, embed) == Err(e)
    ensures Prepend(trace, Run(out, paths[i..], load, embed)) == RunResult(out, trace, Some(e))
  {
    assert paths[i..][0] == paths[i];
    RunStop(out, paths[i..], load, embed, e);
    assert trace + [] == trace;
  }

  /**
   The output directory as the script sees it: whether it exists and the
   files in it (names to artifacts).
   */
  class OutputDirectory<A(==)> {
    var present: bool
    var artifacts: map<string, A>

    ghost predicate Valid()
      reads this
    {
      !present ==> artifacts == map[]
    }

    function State(): Option<map<string, A>>
      reads this
    {
      if present then Some(artifacts) else None
    }

    constructor (state: Option<map<string, A>>)
      ensures Valid() && State() == state
    {
      present := state.Some?;
      artifacts := Contents(state);
    }

    /** `outdir.mkdir(exist_ok=True, parents=True)`: creates the directory, keeps its files. */
    method MakeDirs()
      requires Valid()
      modifies this
      ensures Valid() && present && artifacts == old(artifacts)
    {
      present := true;
    }

    /** `torch.save(tensor, out_file)`: writes (or replaces) one file. */
    method Save(name: string, v: A)
      requires Valid() && present
      modifies this
      ensures Valid() && present && artifacts == old(artifacts)[name := v]
    {
      artifacts := artifacts[name := v];
    }

    /** The `for` loop of lines 105-120 over the discovered paths. */
    method ExtractAll(paths: seq<Path>, load: Path -> Result<string, LoadError>, embed: string -> Option<A>)
      returns (trace: seq<Status>, failure: Option<Failure>)
      requires Valid() && present
      modifies this
      ensures Valid() && present
      ensures RunResult(artifacts, trace, failure) == Run(old(artifacts), paths, load, embed)
    {
      ghost var target := Run(artifacts, paths, load, embed);
      trace, failure := [], None;
      var i := 0;
      assert paths[0..] == paths;
      while i < |paths|
        invariant 0 <= i <= |paths|
        invariant Valid() && present
        invariant Prepend(trace, Run(artifacts, paths[i..], load, embed)) == target
      {
        var p := paths[i];
        var outFile := ArtifactName(p);
        if outFile in artifacts {
          SkipAt(trace, artifacts, paths, i, load, embed);
          trace := trace + [Skipped(outFile)];
          i := i + 1;
          continue;
        }
        var sequence := load(p);
        if sequence.Err? {
          StopAt(trace, artifacts, paths, i, load, embed, LoadFailed(p, sequence.error));
          failure := Some(LoadFailed(p, sequence.error));
          return;
        }
        var embedding := embed(sequence.value);
        if embedding.None? {
          StopAt(trace, artifacts, paths, i, load, embed, ModelFailed(p));
          failure := Some(ModelFailed(p));
          return;
        }
        SaveAt(trace, artifacts, paths, i, load, embed, embedding.value);
        Save(outFile, embedding.value);
        trace := trace + [Saved(outFile)];
        i := i + 1;
      }
      assert paths[i..] == [] && trace + [] == trace;
    }
  }

  /** How the script reads a window: `load_sequence` on the files in `texts`. */
  function ScriptLoader(texts: map<Path, string>): (load: Path -> Result<string, LoadError>)
    ensures forall p :: load(p) == Err(Unreadable) <==> p !in texts
    ensures forall p :: load(p) == Err(EmptyFile) <==> p in texts && texts[p] == []
  {
    p => LoadSequence(texts, p)
  }

  /** `main` from discovery on, against a given output directory. */
  method EmbedDirectory<A(==)>(entries: seq<Path>, recursive: bool, texts: map<Path, string>,
                           embed: string -> Option<A>, outdir: OutputDirectory<A>)
    returns (trace: seq<Status>, failure: Option<Failure>)
    requires outdir.Valid()
    modifies outdir
    ensures outdir.Valid()
    ensures PipelineResult(outdir.State(), trace, failure) ==
      Pipeline(entries, recursive, old(outdir.State()), ScriptLoader(texts), embed)
  {
    var fastaPaths := Discover(entries, recursive);
    if fastaPaths == [] {
      return [], Some(NoFastaFound);
    }
    outdir.MakeDirs();
    trace, failure := outdir.ExtractAll(fastaPaths, ScriptLoader(texts), embed);
  }
}
