/** `run_experiment`: what one SLURM array task does with the arguments it
    was started with. It turns its task index into a block of consecutive
    seeds, strips the two joblib bookkeeping keys, and hands the experiment
    one parameter set per seed, each with its own results subdirectory. */
module Worker {
  import opened Wrappers
  import opened Text
  import opened Records
  import opened Ranges
  import opened Formatting

  /** The seeds array task `task` runs when every task covers `nJobs` seeds
      and this one runs `nSeeds` of them: `np.arange(task * nJobs,
      task * nJobs + nSeeds)`. */
  function WorkerSeeds(task: int, nJobs: int, nSeeds: int): (s: seq<int>)
    ensures |s| == if nSeeds <= 0 then 0 else nSeeds
  {
    Range(task * nJobs, task * nJobs + nSeeds)
  }

  datatype WorkerError =
    | MissingKey(key: string)      // KeyError
    | NotAnInteger(key: string)    // TypeError in the seed arithmetic
    | ResultsDirNotText            // TypeError in `os.path.join`
    | NoParallelJobs               // joblib's ValueError for `n_jobs == 0`

  /** The parameter set handed over for one seed: the stripped arguments
      with `seed` set and `results_dir` one level deeper, named by the seed. */
  function SeedTask(base: Record, rd: string, seed: int): Record {
    Update(Update(base, "seed", IntV(seed)), "results_dir", StrV(Join(rd, IntToString(seed))))
  }

  /** The parameter sets for the seeds, in order. */
  function SeedTasks(base: Record, rd: string, seeds: seq<int>): (ts: seq<Record>)
    ensures |ts| == |seeds|
  {
    if |seeds| == 0 then []
    else SeedTasks(base, rd, seeds[..|seeds| - 1]) + [SeedTask(base, rd, seeds[|seeds| - 1])]
  }

  /** The `j`-th parameter set is the one for the `j`-th seed. */
  lemma {:induction false} SeedTasksAt(base: Record, rd: string, seeds: seq<int>, j: nat)
    requires j < |seeds|
    ensures SeedTasks(base, rd, seeds)[j] == SeedTask(base, rd, seeds[j])
  {
    var n := |seeds| - 1;
    var prefix := SeedTasks(base, rd, seeds[..n]);
    assert SeedTasks(base, rd, seeds) == prefix + [SeedTask(base, rd, seeds[n])];
    if j < n {
      SeedTasksAt(base, rd, seeds[..n], j);
      assert seeds[..n][j] == seeds[j];
      assert (prefix + [SeedTask(base, rd, seeds[n])])[j] == prefix[j];
    } else {
      assert |prefix| == j;
    }
  }

  /** What the loop over the seeds yields once the results directory `rd`
      has been read: nothing for no seeds, a TypeError from `os.path.join`
      when `rd` is not text, and one parameter set per seed otherwise. */
  function LoopResult(params: Record, rd: Value, seeds: seq<int>): Result<seq<Record>, WorkerError> {
    if |seeds| == 0 then Success([])
    else if !rd.StrV? then Failure(ResultsDirNotText)
    else Success(SeedTasks(params, rd.s, seeds))
  }

  /** What the loop leaves in the shared dict: the last seed's parameter
      set, or the first seed alone when the directory is not text. */
  function LoopArgs(params: Record, rd: Value, seeds: seq<int>): Record {
    if |seeds| == 0 then params
    else if !rd.StrV? then Update(params, "seed", IntV(seeds[0]))
    else SeedTask(params, rd.s, seeds[|seeds| - 1])
  }

  /** What the inner generator `generate_joblib_seeds` yields, run once the
      parallel runner asks for its first item: it reads the seed count and
      the results directory only then, after the joblib keys are gone. */
  function GenerateResult(params: Record, initialSeed: int, nSeeds: Value): Result<seq<Record>, WorkerError> {
    if !nSeeds.IntV? then Failure(NotAnInteger("joblib_n_seeds"))
    else
      var rd := Lookup(params, "results_dir");
      if rd.None? then Failure(MissingKey("results_dir"))
      else LoopResult(params, rd.value, Range(initialSeed, initialSeed + nSeeds.i))
  }

  /** What the generator leaves in the shared dict. */
  function GenerateArgs(params: Record, initialSeed: int, nSeeds: Value): Record {
    if !nSeeds.IntV? then params
    else
      var rd := Lookup(params, "results_dir");
      if rd.None? then params
      else LoopArgs(params, rd.value, Range(initialSeed, initialSeed + nSeeds.i))
  }

  /** The keys `run_experiment` reads before it deletes anything: the
      stripped arguments, the first seed, the seed count and the job count,
      or the error raised while reading them. */
  function Prelude(args: Record): Result<(Record, int, Value, int), WorkerError> {
    var jobs, nSeeds, seed := Lookup(args, "joblib_n_jobs"), Lookup(args, "joblib_n_seeds"), Lookup(args, "seed");
    if jobs.None? then Failure(MissingKey("joblib_n_jobs"))
    else if nSeeds.None? then Failure(MissingKey("joblib_n_seeds"))
    else if seed.None? then Failure(MissingKey("seed"))
    else if !seed.value.IntV? then Failure(NotAnInteger("seed"))
    else if !jobs.value.IntV? then Failure(NotAnInteger("joblib_n_jobs"))
    else Success((Remove(Remove(args, "joblib_n_jobs"), "joblib_n_seeds"), seed.value.i * jobs.value.i, nSeeds.value, jobs.value.i))
  }

  /** What `run_experiment` hands the experiment. joblib's `Parallel`
      rejects a job count of 0 while it sets up its backend, before it asks
      the generator for anything. */
  function RunExperimentResult(args: Record): Result<seq<Record>, WorkerError> {
    var p := Prelude(args);
    if p.Failure? then Failure(p.error)
    else if p.value.3 == 0 then Failure(NoParallelJobs)
    else GenerateResult(p.value.0, p.value.1, p.value.2)
  }

  /** What `run_experiment` leaves in the caller's `args`. */
  function RunExperimentArgs(args: Record): Record {
    var p := Prelude(args);
    if p.Failure? then args
    else if p.value.3 == 0 then p.value.0
    else GenerateArgs(p.value.0, p.value.1, p.value.2)
  }

  lemma SeedTasksSnoc(base: Record, rd: string, seeds: seq<int>, k: nat)
    requires k < |seeds|
    ensures SeedTasks(base, rd, seeds[..k + 1]) == SeedTasks(base, rd, seeds[..k]) + [SeedTask(base, rd, seeds[k])]
  {
    assert seeds[..k + 1][..k] == seeds[..k];
  }

  /** Setting the seed and the directory again replaces the previous seed's
      values: the dict is the same as if only the new seed had been set. */
  lemma ReassignSeed(base: Record, rd: string, prev: int, seed: int)
    requires "results_dir" in KeySet(base)
    ensures Update(Update(SeedTask(base, rd, prev), "seed", IntV(seed)), "results_dir", StrV(Join(rd, IntToString(seed))))
      == SeedTask(base, rd, seed)
  {
    var a := Update(base, "seed", IntV(prev));
    var pd, sd := StrV(Join(rd, IntToString(prev))), StrV(Join(rd, IntToString(seed)));
    UpdateSwap(a, "results_dir", pd, "seed", IntV(seed));
    UpdateTwice(base, "seed", IntV(prev), IntV(seed));
    UpdateTwice(Update(base, "seed", IntV(seed)), "results_dir", pd, sd);
  }

  /** `run_experiment(func, args)`: returns the parameter sets in the order
      they are handed to the experiment, and leaves in `args` what the
      source leaves there. */
  method RunExperiment(args: Dict) returns (r: Result<seq<Record>, WorkerError>)
    modifies args
    ensures r == RunExperimentResult(old(args.items))
    ensures args.items == RunExperimentArgs(old(args.items))
  {
    var jobs := Lookup(args.items, "joblib_n_jobs");
    if jobs.None? { return Failure(MissingKey("joblib_n_jobs")); }
    var nSeeds := Lookup(args.items, "joblib_n_seeds");
    if nSeeds.None? { return Failure(MissingKey("joblib_n_seeds")); }
    var seed := Lookup(args.items, "seed");
    if seed.None? { return Failure(MissingKey("seed")); }
    if !seed.value.IntV? { return Failure(NotAnInteger("seed")); }
    if !jobs.value.IntV? { return Failure(NotAnInteger("joblib_n_jobs")); }
    var initialSeed := seed.value.i * jobs.value.i;
    var found := args.DelItem("joblib_n_jobs");
    found := args.DelItem("joblib_n_seeds");
    if jobs.value.i == 0 { return Failure(NoParallelJobs); }
    r := GenerateJoblibSeeds(args, initialSeed, nSeeds.value);
  }

  /** `generate_joblib_seeds(params_dict)` driven to the end: one snapshot
      of the shared dict per seed, the dict itself rewritten each time. */
  method GenerateJoblibSeeds(params: Dict, initialSeed: int, nSeeds: Value) returns (r: Result<seq<Record>, WorkerError>)
    modifies params
    ensures r == GenerateResult(old(params.items), initialSeed, nSeeds)
    ensures params.items == GenerateArgs(old(params.items), initialSeed, nSeeds)
  {
    if !nSeeds.IntV? { return Failure(NotAnInteger("joblib_n_seeds")); }
    var seeds := Range(initialSeed, initialSeed + nSeeds.i);
    var rd := Lookup(params.items, "results_dir");
    if rd.None? { return Failure(MissingKey("results_dir")); }
    r := SeedLoop(params, rd.value, seeds);
  }

  /** The generator's `for seed in seeds` loop: set the seed and the seed's
      directory in the shared dict, then yield the dict. */
  method SeedLoop(params: Dict, rd: Value, seeds: seq<int>) returns (r: Result<seq<Record>, WorkerError>)
    requires "results_dir" in KeySet(params.items)
    modifies params
    ensures r == LoopResult(old(params.items), rd, seeds)
    ensures params.items == LoopArgs(old(params.items), rd, seeds)
  {
    ghost var base := params.items;
    ghost var text := if rd.StrV? then rd.s else "";
    var tasks: seq<Record> := [];
    for k := 0 to |seeds|
      invariant k > 0 ==> rd.StrV?
      invariant tasks == SeedTasks(base, text, seeds[..k])
      invariant params.items == if k == 0 then base else SeedTask(base, text, seeds[k - 1])
    {
      params.SetItem("seed", IntV(seeds[k]));
      if !rd.StrV? {
        return Failure(ResultsDirNotText);
      }
      params.SetItem("results_dir", StrV(Join(rd.s, IntToString(seeds[k]))));
      assert params.items == SeedTask(base, text, seeds[k]) by {
        if k > 0 {
          ReassignSeed(base, text, seeds[k - 1], seeds[k]);
        }
      }
      SeedTasksSnoc(base, text, seeds, k);
      tasks := tasks + [params.items];
    }
    assert seeds[..|seeds|] == seeds;
    if |seeds| == 0 {
      assert tasks == [];
    }
    return Success(tasks);
  }

  /** The first error `run_experiment` raises: the keys are read in the
      order `joblib_n_jobs`, `joblib_n_seeds`, `seed`, and the seed
      arithmetic fails before anything is deleted. */
  lemma RunExperimentFirstError(args: Record)
    ensures Lookup(args, "joblib_n_jobs").None? ==> RunExperimentResult(args) == Failure(MissingKey("joblib_n_jobs"))
    ensures Lookup(args, "joblib_n_jobs").Some? && Lookup(args, "joblib_n_seeds").None? ==>
      RunExperimentResult(args) == Failure(MissingKey("joblib_n_seeds"))
    ensures Lookup(args, "joblib_n_jobs").Some? && Lookup(args, "joblib_n_seeds").Some? && Lookup(args, "seed").None? ==>
      RunExperimentResult(args) == Failure(MissingKey("seed"))
    ensures var jobs, seed := Lookup(args, "joblib_n_jobs"), Lookup(args, "seed");
      (jobs.Some? && Lookup(args, "joblib_n_seeds").Some? && seed.Some? && !(seed.value.IntV? && jobs.value.IntV?)) ==>
        (RunExperimentResult(args).Failure? && RunExperimentResult(args).error.NotAnInteger? && RunExperimentArgs(args) == args)
    ensures var jobs, seed := Lookup(args, "joblib_n_jobs"), Lookup(args, "seed");
      (Lookup(args, "joblib_n_seeds").Some? && seed.Some? && seed.value.IntV? && jobs == Some(IntV(0))) ==>
        (RunExperimentResult(args) == Failure(NoParallelJobs)
         && RunExperimentArgs(args) == Remove(Remove(args, "joblib_n_jobs"), "joblib_n_seeds"))
  {
  }

  /** A successful call needs all four keys, integer seed arithmetic, a
      job count other than 0, and a textual `results_dir` unless there is no
      seed to run. */
  lemma RunExperimentSucceeds(args: Record)
    ensures RunExperimentResult(args).Success? <==>
      && Lookup(args, "joblib_n_jobs").Some? && Lookup(args, "joblib_n_jobs").value.IntV?
      && Lookup(args, "joblib_n_jobs").value.i != 0
      && Lookup(args, "joblib_n_seeds").Some? && Lookup(args, "joblib_n_seeds").value.IntV?
      && Lookup(args, "seed").Some? && Lookup(args, "seed").value.IntV?
      && Lookup(args, "results_dir").Some?
      && (Lookup(args, "results_dir").value.StrV? || Lookup(args, "joblib_n_seeds").value.i <= 0)
  {
    StrippedLookup(args, "results_dir");
  }

  /** The arguments without the two joblib keys. */
  lemma StrippedLookup(args: Record, k: string)
    ensures Lookup(Remove(Remove(args, "joblib_n_jobs"), "joblib_n_seeds"), k)
      == if k == "joblib_n_jobs" || k == "joblib_n_seeds" then None else Lookup(args, k)
  {
    RemoveLookup(args, "joblib_n_jobs", k);
    RemoveLookup(Remove(args, "joblib_n_jobs"), "joblib_n_seeds", k);
  }

  lemma SeedTaskLookup(base: Record, rd: string, seed: int, k: string)
    ensures Lookup(SeedTask(base, rd, seed), k) ==
      if k == "seed" then Some(IntV(seed))
      else if k == "results_dir" then Some(StrV(Join(rd, IntToString(seed))))
      else Lookup(base, k)
  {
    UpdateLookup(base, "seed", IntV(seed), k);
    UpdateLookup(Update(base, "seed", IntV(seed)), "results_dir", StrV(Join(rd, IntToString(seed))), k);
  }

  /** With integer `seed = s`, `joblib_n_jobs = n != 0`, `joblib_n_seeds = m`
      and a textual `results_dir = rd`, the call succeeds and hands the
      experiment `m` parameter sets (none if `m <= 0`), one per seed of the
      block `[s * n, s * n + m)` in increasing order. The `j`-th has seed
      `s * n + j`, results directory `rd/<that seed>`, no joblib keys, and
      every other argument as given. */
  lemma RunExperimentTasks(args: Record, s: int, n: int, m: int, rd: string, j: nat, k: string)
    requires n != 0
    requires Lookup(args, "joblib_n_jobs") == Some(IntV(n)) && Lookup(args, "joblib_n_seeds") == Some(IntV(m))
    requires Lookup(args, "seed") == Some(IntV(s)) && Lookup(args, "results_dir") == Some(StrV(rd))
    ensures RunExperimentResult(args).Success?
    ensures |RunExperimentResult(args).value| == if m <= 0 then 0 else m
    ensures j < m ==>
      Lookup(RunExperimentResult(args).value[j], k) == (
        if k == "seed" then Some(IntV(s * n + j))
        else if k == "results_dir" then Some(StrV(Join(rd, IntToString(s * n + j))))
        else if k == "joblib_n_jobs" || k == "joblib_n_seeds" then None
        else Lookup(args, k))
  {
    var base := Remove(Remove(args, "joblib_n_jobs"), "joblib_n_seeds");
    assert RunExperimentResult(args) == GenerateResult(base, s * n, IntV(m));
    StrippedLookup(args, "results_dir");
    StrippedLookup(args, k);
    GenerateTasks(base, s * n, m, rd, j, k);
  }

  lemma GenerateTasks(params: Record, initialSeed: int, m: int, rd: string, j: nat, k: string)
    requires Lookup(params, "results_dir") == Some(StrV(rd))
    ensures GenerateResult(params, initialSeed, IntV(m)).Success?
    ensures |GenerateResult(params, initialSeed, IntV(m)).value| == if m <= 0 then 0 else m
    ensures j < m ==>
      Lookup(GenerateResult(params, initialSeed, IntV(m)).value[j], k) == (
        if k == "seed" then Some(IntV(initialSeed + j))
        else if k == "results_dir" then Some(StrV(Join(rd, IntToString(initialSeed + j))))
        else Lookup(params, k))
  {
    if j < m {
      var seeds := Range(initialSeed, initialSeed + m);
      assert seeds[j] == initialSeed + j by {
        RangeAt(initialSeed, initialSeed + m, j);
      }
      assert Lookup(GenerateResult(params, initialSeed, IntV(m)).value[j], k) == Lookup(SeedTask(params, rd, seeds[j]), k) by {
        GenerateShape(params, initialSeed, m, rd);
        SeedTasksAt(params, rd, seeds, j);
      }
      SeedTaskLookup(params, rd, initialSeed + j, k);
    }
    GenerateShape(params, initialSeed, m, rd);
  }

  /** With a textual `results_dir`, the generator yields one parameter set
      per seed of the block. */
  lemma GenerateShape(params: Record, initialSeed: int, m: int, rd: string)
    requires Lookup(params, "results_dir") == Some(StrV(rd))
    ensures GenerateResult(params, initialSeed, IntV(m)) == Success(SeedTasks(params, rd, Range(initialSeed, initialSeed + m)))
    ensures |Range(initialSeed, initialSeed + m)| == if m <= 0 then 0 else m
  {
    var seeds := Range(initialSeed, initialSeed + m);
    if m <= 0 {
      assert SeedTasks(params, rd, seeds) == [];
    } else {
      assert |seeds| > 0;
    }
  }

  /** Two parameter sets of one call never share a results directory. */
  lemma RunExperimentDirsDistinct(args: Record, s: int, n: int, m: int, rd: string, i: nat, j: nat)
    requires Lookup(args, "joblib_n_jobs") == Some(IntV(n)) && Lookup(args, "joblib_n_seeds") == Some(IntV(m))
    requires Lookup(args, "seed") == Some(IntV(s)) && Lookup(args, "results_dir") == Some(StrV(rd))
    requires n != 0
    requires i < j < m
    ensures var r := RunExperimentResult(args);
      r.Success? && j < |r.value| && Lookup(r.value[i], "results_dir") != Lookup(r.value[j], "results_dir")
  {
    RunExperimentTasks(args, s, n, m, rd, i, "results_dir");
    RunExperimentTasks(args, s, n, m, rd, j, "results_dir");
    var a, b := Join(rd, IntToString(s * n + i)), Join(rd, IntToString(s * n + j));
    if a == b {
      SeedNamesDistinct(rd, s * n + i, s * n + j);
    }
  }
}
