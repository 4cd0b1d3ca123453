/** The `Launcher` object: it collects experiments and default parameters,
    then runs every experiment with `n_exp` seeds, either locally through
    joblib or on SLURM as one array job per experiment. */
module Launcher {
  import opened Wrappers
  import opened Text
  import opened Records
  import opened Ranges
  import opened Formatting
  import opened Config
  import opened Slurm

  // ---------------------------------------------------------------------
  // Seeds of a local run

  /** What `np.random.choice(np.arange(1, max_seeds), size=n_exp,
      replace=False)` returns: `n_exp` distinct values from
      `1 .. max_seeds - 1`. */
  predicate SeedDraw(draw: seq<int>, nExp: nat, maxSeeds: int) {
    |draw| == nExp && Distinct(draw) && forall i :: 0 <= i < |draw| ==> 1 <= draw[i] < maxSeeds
  }

  /** A launcher's seed bound always leaves room for such a draw. */
  lemma SeedDrawPossible(nExp: nat, maxSeeds: int)
    requires maxSeeds > nExp
    ensures SeedDraw(Range(1, nExp + 1), nExp, maxSeeds)
  {
    RangeDistinct(1, nExp + 1);
    var r := Range(1, nExp + 1);
    forall i | 0 <= i < |r| ensures 1 <= r[i] < maxSeeds {
      RangeAt(1, nExp + 1, i);
    }
  }

  /** The seeds every experiment runs with: `0 .. n_exp - 1`, or the random
      draw when `randomize_seeds` is set. */
  function Seeds(s: Settings, draw: seq<int>): seq<int> {
    if s.randomizeSeeds then draw else Range(0, s.nExp)
  }

  lemma SeedsOfRun(s: Settings, draw: seq<int>)
    requires s.randomizeSeeds ==> SeedDraw(draw, s.nExp, s.maxSeeds)
    ensures |Seeds(s, draw)| == s.nExp && Distinct(Seeds(s, draw))
    ensures !s.randomizeSeeds ==> forall j :: 0 <= j < s.nExp ==> Seeds(s, draw)[j] == j
    ensures s.randomizeSeeds ==> forall j :: 0 <= j < s.nExp ==> 1 <= Seeds(s, draw)[j] < s.maxSeeds
  {
    if !s.randomizeSeeds {
      RangeDistinct(0, s.nExp);
      forall j | 0 <= j < s.nExp ensures Seeds(s, draw)[j] == j {
        RangeAt(0, s.nExp, j);
      }
    }
  }

  // ---------------------------------------------------------------------
  // `itertools.product(experiments, seeds)`

  function Row(e: Record, seeds: seq<int>): (r: seq<(Record, int)>)
    ensures |r| == |seeds| && forall j :: 0 <= j < |seeds| ==> r[j] == (e, seeds[j])
  {
    seq(|seeds|, j requires 0 <= j < |seeds| => (e, seeds[j]))
  }

  /** Every experiment with every seed, experiment by experiment. */
  function Product(exps: seq<Record>, seeds: seq<int>): (p: seq<(Record, int)>)
    ensures |p| == |exps| * |seeds|
  {
    if exps == [] then []
    else
      assert |exps| * |seeds| == |seeds| + (|exps| - 1) * |seeds|;
      Row(exps[0], seeds) + Product(exps[1..], seeds)
  }

  /** Where experiment `i` with seed `j` sits among `width` seeds per
      experiment. */
  function Position(i: nat, j: nat, width: nat): nat {
    i * width + j
  }

  /** The pair at position `i * |seeds| + j` is experiment `i` with seed `j`. */
  lemma {:induction false} ProductAt(exps: seq<Record>, seeds: seq<int>, i: nat, j: nat)
    requires i < |exps| && j < |seeds|
    ensures Position(i, j, |seeds|) < |Product(exps, seeds)|
    ensures Product(exps, seeds)[Position(i, j, |seeds|)] == (exps[i], seeds[j])
  {
    assert |exps| * |seeds| == |seeds| + (|exps| - 1) * |seeds|;
    if i > 0 {
      ProductAt(exps[1..], seeds, i - 1, j);
      assert i * |seeds| + j == |seeds| + ((i - 1) * |seeds| + j);
    }
  }

  /** Every pair holds one of the experiments. */
  lemma {:induction false} ProductMembers(exps: seq<Record>, seeds: seq<int>, p: (Record, int))
    requires p in Product(exps, seeds)
    ensures p.0 in exps && p.1 in seeds
  {
    if exps != [] {
      if p !in Row(exps[0], seeds) {
        ProductMembers(exps[1..], seeds, p);
      }
    }
  }

  // ---------------------------------------------------------------------
  // `_generate_exp_params`: one dict, updated and yielded over and over

  /** One iteration of the generator's loop: the experiment's entries, then
      the seed, then the results directory, written into the shared dict. */
  function Step(d: Record, pair: (Record, int), dir: string): Record {
    Update(Update(UpdateAll(d, pair.0), "seed", IntV(pair.1)),
           "results_dir", StrV(ResultsDir(dir, pair.0, Some(pair.1))))
  }

  /** One iteration of the generator's loop, on the shared dict. */
  method ApplyStep(paramsDict: Dict, pair: (Record, int), dir: string)
    modifies paramsDict
    ensures paramsDict.items == Step(old(paramsDict.items), pair, dir)
  {
    var (exp, seed) := pair;
    paramsDict.UpdateFrom(exp);
    paramsDict.SetItem("seed", IntV(seed));
    paramsDict.SetItem("results_dir", StrV(ResultsDir(dir, exp, Some(seed))));
  }

  /** The generator's loop: each iteration updates the shared dict and
      yields a copy of it. */
  method YieldCalls(paramsDict: Dict, pairs: seq<(Record, int)>, dir: string) returns (tasks: seq<Record>)
    modifies paramsDict
    ensures tasks == Snapshots(old(paramsDict.items), pairs, dir)
  {
    ghost var start := paramsDict.items;
    tasks := [];
    for t := 0 to |pairs|
      invariant tasks + Snapshots(paramsDict.items, pairs[t..], dir) == Snapshots(start, pairs, dir)
    {
      ghost var next := Step(paramsDict.items, pairs[t], dir);
      ghost var later := Snapshots(next, pairs[t + 1..], dir);
      assert pairs[t..][1..] == pairs[t + 1..];
      assert Snapshots(paramsDict.items, pairs[t..], dir) == [next] + later;
      ConcatAssoc(tasks, [next], later);
      ApplyStep(paramsDict, pairs[t], dir);
      tasks := tasks + [paramsDict.items];
    }
  }

  /** The shared dict after the given iterations. */
  function Fold(d: Record, pairs: seq<(Record, int)>, dir: string): Record
    decreases |pairs|
  {
    if pairs == [] then d else Fold(Step(d, pairs[0], dir), pairs[1..], dir)
  }

  /** What the calls receive, from a dict `d` on: `**params` copies the
      dict as it is when it is yielded. */
  function Snapshots(d: Record, pairs: seq<(Record, int)>, dir: string): (ts: seq<Record>)
    ensures |ts| == |pairs|
    decreases |pairs|
  {
    if pairs == [] then [] else [Step(d, pairs[0], dir)] + Snapshots(Step(d, pairs[0], dir), pairs[1..], dir)
  }

  /** Call `t` sees the dict after the first `t` iterations, updated once
      more. */
  lemma {:induction false} SnapshotAt(d: Record, pairs: seq<(Record, int)>, dir: string, t: nat)
    requires t < |pairs|
    ensures Snapshots(d, pairs, dir)[t] == Step(Fold(d, pairs[..t], dir), pairs[t], dir)
    decreases t
  {
    if t > 0 {
      var next := Step(d, pairs[0], dir);
      SnapshotAt(next, pairs[1..], dir, t - 1);
      assert Snapshots(d, pairs, dir) == [next] + Snapshots(next, pairs[1..], dir);
      assert pairs[..t][1..] == pairs[1..][..t - 1];
      assert Fold(d, pairs[..t], dir) == Fold(next, pairs[1..][..t - 1], dir);
    }
  }

  /** The parameter sets a local run hands to the experiment: the
      function's own defaults, overridden by the launcher's default
      parameters, then each experiment and seed in turn. */
  function ExpParams(funcDefaults: Record, defaults: Record, exps: seq<Record>, seeds: seq<int>, dir: string): seq<Record> {
    Snapshots(UpdateAll(funcDefaults, defaults), Product(exps, seeds), dir)
  }

  lemma StepLookup(d: Record, pair: (Record, int), dir: string, k: string)
    ensures Lookup(Step(d, pair, dir), k) == (
      if k == "results_dir" then Some(StrV(ResultsDir(dir, pair.0, Some(pair.1))))
      else if k == "seed" then Some(IntV(pair.1))
      else if k in KeySet(pair.0) then Lookup(pair.0, k)
      else Lookup(d, k))
  {
    var a := UpdateAll(d, pair.0);
    UpdateLookup(Update(a, "seed", IntV(pair.1)), "results_dir", StrV(ResultsDir(dir, pair.0, Some(pair.1))), k);
    UpdateLookup(a, "seed", IntV(pair.1), k);
    UpdateAllLookup(d, pair.0, k);
  }

  /** A local run makes one call per experiment and seed. */
  lemma ExpParamsCount(funcDefaults: Record, defaults: Record, exps: seq<Record>, seeds: seq<int>, dir: string)
    ensures |ExpParams(funcDefaults, defaults, exps, seeds, dir)| == |exps| * |seeds|
  {
  }

  /** Call `t` runs the experiment and seed of the `t`-th pair: it gets
      that seed, the results directory of that experiment and seed, and
      every entry of the experiment (`ProductAt` says which pair that is). */
  lemma TaskParams(funcDefaults: Record, defaults: Record, exps: seq<Record>, seeds: seq<int>, dir: string,
                   t: nat, k: string)
    requires t < |exps| * |seeds|
    ensures t < |ExpParams(funcDefaults, defaults, exps, seeds, dir)|
    ensures var call, pair := ExpParams(funcDefaults, defaults, exps, seeds, dir)[t], Product(exps, seeds)[t];
      Lookup(call, "seed") == Some(IntV(pair.1))
      && Lookup(call, "results_dir") == Some(StrV(ResultsDir(dir, pair.0, Some(pair.1))))
      && (k in KeySet(pair.0) && k != "seed" && k != "results_dir" ==> Lookup(call, k) == Lookup(pair.0, k))
  {
    var start, pairs := UpdateAll(funcDefaults, defaults), Product(exps, seeds);
    SnapshotAt(start, pairs, dir, t);
    var before := Fold(start, pairs[..t], dir);
    StepLookup(before, pairs[t], dir, "seed");
    StepLookup(before, pairs[t], dir, "results_dir");
    StepLookup(before, pairs[t], dir, k);
  }

  /** A key no experiment sets keeps the launcher's default parameter, or
      else the experiment function's default, in every call. */
  lemma TaskDefaults(funcDefaults: Record, defaults: Record, exps: seq<Record>, seeds: seq<int>, dir: string,
                     t: nat, k: string)
    requires t < |exps| * |seeds|
    requires k != "seed" && k != "results_dir" && forall e :: e in exps ==> k !in KeySet(e)
    ensures t < |ExpParams(funcDefaults, defaults, exps, seeds, dir)|
    ensures Lookup(ExpParams(funcDefaults, defaults, exps, seeds, dir)[t], k) ==
      if k in KeySet(defaults) then Lookup(defaults, k) else Lookup(funcDefaults, k)
  {
    var start, pairs := UpdateAll(funcDefaults, defaults), Product(exps, seeds);
    SnapshotAt(start, pairs, dir, t);
    var prefix := pairs[..t];
    forall q | 0 <= q < |prefix| ensures k !in KeySet(prefix[q].0) {
      ProductMembers(exps, seeds, pairs[q]);
    }
    FoldUntouched(start, prefix, dir, k);
    ProductMembers(exps, seeds, pairs[t]);
    StepLookup(Fold(start, prefix, dir), pairs[t], dir, k);
    UpdateAllLookup(funcDefaults, defaults, k);
  }

  lemma {:induction false} FoldUntouched(d: Record, pairs: seq<(Record, int)>, dir: string, k: string)
    requires k != "seed" && k != "results_dir"
    requires forall q :: 0 <= q < |pairs| ==> k !in KeySet(pairs[q].0)
    ensures Lookup(Fold(d, pairs, dir), k) == Lookup(d, k)
    decreases |pairs|
  {
    if pairs != [] {
      var next := Step(d, pairs[0], dir);
      StepLookup(d, pairs[0], dir, k);
      assert forall q :: 0 <= q < |pairs[1..]| ==> pairs[1..][q] == pairs[q + 1];
      FoldUntouched(next, pairs[1..], dir, k);
    }
  }

  /** The dict is shared: a key set by one experiment and not by a later
      one reaches the later one's calls. */
  lemma KeyCarriesOver()
    ensures var first, second := [Entry("lr", IntV(1))], [Entry("gamma", IntV(2))];
      Lookup(ExpParams([], [], [first, second], [0], "logs")[1], "lr") == Some(IntV(1))
  {
    var first, second := [Entry("lr", IntV(1))], [Entry("gamma", IntV(2))];
    var exps := [first, second];
    var pairs := Product(exps, [0]);
    ProductAt(exps, [0], 0, 0);
    ProductAt(exps, [0], 1, 0);
    assert UpdateAll([], []) == [];
    SnapshotAt([], pairs, "logs", 1);
    var one := Step([], (first, 0), "logs");
    assert Fold([], pairs[..1], "logs") == one by {
      var rest: seq<(Record, int)> := pairs[..1][1..];
      assert rest == [];
    }
    assert "lr" in KeySet(first) && "lr" !in KeySet(second);
    StepLookup([], (first, 0), "logs", "lr");
    StepLookup(one, (second, 0), "logs", "lr");
  }

  /** The value a key ends with after records are written over `v` one
      after another: that of the last record that sets it, or `v`. */
  function LastSet(rs: seq<Record>, k: string, v: Option<Value>): Option<Value>
    decreases |rs|
  {
    if |rs| == 0 then v
    else LastSet(rs[1..], k, if k in KeySet(rs[0]) then Lookup(rs[0], k) else v)
  }

  /** No record sets the key: it keeps `v`. */
  lemma {:induction false} LastSetNone(rs: seq<Record>, k: string, v: Option<Value>)
    requires forall q :: 0 <= q < |rs| ==> k !in KeySet(rs[q])
    ensures LastSet(rs, k, v) == v
    decreases |rs|
  {
    if |rs| > 0 {
      assert forall q :: 0 <= q < |rs[1..]| ==> rs[1..][q] == rs[q + 1];
      LastSetNone(rs[1..], k, v);
    }
  }

  /** Record `i` sets the key and no later one does: the key has record
      `i`'s value. */
  lemma {:induction false} LastSetWhich(rs: seq<Record>, k: string, v: Option<Value>, i: nat)
    requires i < |rs| && k in KeySet(rs[i])
    requires forall q :: i < q < |rs| ==> k !in KeySet(rs[q])
    ensures LastSet(rs, k, v) == Lookup(rs[i], k)
    decreases i
  {
    assert forall q :: 0 <= q < |rs[1..]| ==> rs[1..][q] == rs[q + 1];
    if i == 0 {
      LastSetNone(rs[1..], k, Lookup(rs[0], k));
    } else {
      LastSetWhich(rs[1..], k, if k in KeySet(rs[0]) then Lookup(rs[0], k) else v, i - 1);
    }
  }

  /** The same over the experiments of a sequence of iterations. */
  function LastValue(pairs: seq<(Record, int)>, k: string, v: Option<Value>): Option<Value>
    decreases |pairs|
  {
    if |pairs| == 0 then v
    else LastValue(pairs[1..], k, if k in KeySet(pairs[0].0) then Lookup(pairs[0].0, k) else v)
  }

  /** Apart from `seed` and `results_dir`, the shared dict after some
      iterations holds what the experiments last wrote into it. */
  lemma {:induction false} FoldLookup(d: Record, pairs: seq<(Record, int)>, dir: string, k: string)
    requires k != "seed" && k != "results_dir"
    ensures Lookup(Fold(d, pairs, dir), k) == LastValue(pairs, k, Lookup(d, k))
    decreases |pairs|
  {
    if |pairs| > 0 {
      StepLookup(d, pairs[0], dir, k);
      FoldLookup(Step(d, pairs[0], dir), pairs[1..], dir, k);
    }
  }

  lemma {:induction false} LastValueAppend(a: seq<(Record, int)>, b: seq<(Record, int)>, k: string, v: Option<Value>)
    ensures LastValue(a + b, k, v) == LastValue(b, k, LastValue(a, k, v))
    decreases |a|
  {
    if |a| > 0 {
      assert (a + b)[0] == a[0];
      assert (a + b)[1..] == a[1..] + b;
      LastValueAppend(a[1..], b, k, if k in KeySet(a[0].0) then Lookup(a[0].0, k) else v);
    } else {
      assert a + b == b;
    }
  }

  lemma {:induction false} LastValueUntouched(pairs: seq<(Record, int)>, k: string, v: Option<Value>)
    requires forall q :: 0 <= q < |pairs| ==> k !in KeySet(pairs[q].0)
    ensures LastValue(pairs, k, v) == v
    decreases |pairs|
  {
    if |pairs| > 0 {
      assert forall q :: 0 <= q < |pairs[1..]| ==> pairs[1..][q] == pairs[q + 1];
      LastValueUntouched(pairs[1..], k, v);
    }
  }

  /** One experiment's row of iterations writes its value once per seed. */
  lemma {:induction false} LastValueRow(e: Record, seeds: seq<int>, k: string, v: Option<Value>)
    requires |seeds| > 0
    ensures LastValue(Row(e, seeds), k, v) == if k in KeySet(e) then Lookup(e, k) else v
    decreases |seeds|
  {
    var row := Row(e, seeds);
    var w := if k in KeySet(e) then Lookup(e, k) else v;
    assert row[1..] == Row(e, seeds[1..]);
    if |seeds| > 1 {
      LastValueRow(e, seeds[1..], k, w);
    }
  }

  /** Over the whole product the experiments write in list order. */
  lemma {:induction false} LastValueProduct(rs: seq<Record>, seeds: seq<int>, k: string, v: Option<Value>)
    requires |seeds| > 0
    ensures LastValue(Product(rs, seeds), k, v) == LastSet(rs, k, v)
    decreases |rs|
  {
    if |rs| > 0 {
      LastValueAppend(Row(rs[0], seeds), Product(rs[1..], seeds), k, v);
      LastValueRow(rs[0], seeds, k, v);
      LastValueProduct(rs[1..], seeds, k, if k in KeySet(rs[0]) then Lookup(rs[0], k) else v);
    }
  }

  /** The iterations before experiment `i` with seed `j`: all earlier
      experiments with every seed, then experiment `i` with the seeds
      before `j`. */
  lemma {:induction false} ProductPrefix(exps: seq<Record>, seeds: seq<int>, i: nat, j: nat)
    requires i < |exps| && j < |seeds|
    ensures Position(i, j, |seeds|) <= |Product(exps, seeds)|
    ensures Product(exps, seeds)[..Position(i, j, |seeds|)] == Product(exps[..i], seeds) + Row(exps[i], seeds)[..j]
    decreases i
  {
    ProductAt(exps, seeds, i, j);
    var row := Row(exps[0], seeds);
    var rest := Product(exps[1..], seeds);
    assert Product(exps, seeds) == row + rest;
    if i == 0 {
      assert exps[..0] == [];
      assert (row + rest)[..j] == row[..j];
    } else {
      ProductPrefix(exps[1..], seeds, i - 1, j);
      assert Position(i, j, |seeds|) == |seeds| + Position(i - 1, j, |seeds|);
      assert exps[..i][1..] == exps[1..][..i - 1];
      assert Product(exps[..i], seeds) == row + Product(exps[1..][..i - 1], seeds);
      ConcatAssoc(row, Product(exps[1..][..i - 1], seeds), Row(exps[1..][i - 1], seeds)[..j]);
      assert (row + rest)[..Position(i, j, |seeds|)] == row + rest[..Position(i - 1, j, |seeds|)];
    }
  }

  /** The dict is shared, so a key the current experiment does not set holds
      what the last earlier experiment setting it wrote, or else the
      launcher's default parameter, or else the function's default. Later
      experiments never contribute. */
  lemma TaskCarried(funcDefaults: Record, defaults: Record, exps: seq<Record>, seeds: seq<int>, dir: string,
                    i: nat, j: nat, k: string)
    requires i < |exps| && j < |seeds|
    requires k != "seed" && k != "results_dir" && k !in KeySet(exps[i])
    ensures Position(i, j, |seeds|) < |ExpParams(funcDefaults, defaults, exps, seeds, dir)|
    ensures Lookup(ExpParams(funcDefaults, defaults, exps, seeds, dir)[Position(i, j, |seeds|)], k) ==
      LastSet(exps[..i], k, if k in KeySet(defaults) then Lookup(defaults, k) else Lookup(funcDefaults, k))
  {
    var start, pairs := UpdateAll(funcDefaults, defaults), Product(exps, seeds);
    var t := Position(i, j, |seeds|);
    ProductAt(exps, seeds, i, j);
    SnapshotAt(start, pairs, dir, t);
    StepLookup(Fold(start, pairs[..t], dir), pairs[t], dir, k);
    FoldLookup(start, pairs[..t], dir, k);
    ProductPrefix(exps, seeds, i, j);
    var before, row := Product(exps[..i], seeds), Row(exps[i], seeds)[..j];
    LastValueAppend(before, row, k, Lookup(start, k));
    LastValueUntouched(row, k, LastValue(before, k, Lookup(start, k)));
    LastValueProduct(exps[..i], seeds, k, Lookup(start, k));
    UpdateAllLookup(funcDefaults, defaults, k);
  }

  /** Call `i * |seeds| + j` writes to the results directory of
      experiment `i` and seed `j`. */
  lemma TaskDir(funcDefaults: Record, defaults: Record, exps: seq<Record>, seeds: seq<int>, dir: string,
                i: nat, j: nat)
    requires i < |exps| && j < |seeds|
    ensures Position(i, j, |seeds|) < |ExpParams(funcDefaults, defaults, exps, seeds, dir)|
    ensures Lookup(ExpParams(funcDefaults, defaults, exps, seeds, dir)[Position(i, j, |seeds|)], "results_dir")
         == Some(StrV(ResultsDir(dir, exps[i], Some(seeds[j]))))
  {
    ProductAt(exps, seeds, i, j);
    TaskParams(funcDefaults, defaults, exps, seeds, dir, Position(i, j, |seeds|), "seed");
  }

  /** Two calls of one experiment with different seeds never share a
      results directory. */
  lemma TaskDirsDistinct(funcDefaults: Record, defaults: Record, exps: seq<Record>, seeds: seq<int>, dir: string,
                         i: nat, j1: nat, j2: nat)
    requires i < |exps| && j1 < j2 < |seeds| && Distinct(seeds)
    ensures Position(i, j1, |seeds|) < |ExpParams(funcDefaults, defaults, exps, seeds, dir)|
    ensures Position(i, j2, |seeds|) < |ExpParams(funcDefaults, defaults, exps, seeds, dir)|
    ensures var ts := ExpParams(funcDefaults, defaults, exps, seeds, dir);
      Lookup(ts[Position(i, j1, |seeds|)], "results_dir") != Lookup(ts[Position(i, j2, |seeds|)], "results_dir")
  {
    TaskDir(funcDefaults, defaults, exps, seeds, dir, i, j1);
    TaskDir(funcDefaults, defaults, exps, seeds, dir, i, j2);
    if ResultsDir(dir, exps[i], Some(seeds[j1])) == ResultsDir(dir, exps[i], Some(seeds[j2])) {
      SeedDirsDistinct(dir, exps[i], seeds[j1], seeds[j2]);
    }
  }

  // ---------------------------------------------------------------------
  // Submission to SLURM

  /** Where `save_slurm` writes the script. */
  function ScriptPath(s: Settings): string {
    Join(s.expDirSlurm, "slurm_" + s.expName + ".sh")
  }

  /** The script is a file named after the experiment directly inside the
      SLURM experiment directory. */
  lemma ScriptPathParts(s: Settings)
    requires '/' !in s.expName
    ensures SplitOn(ScriptPath(s), '/') == SplitOn(s.expDirSlurm, '/') + ["slurm_" + s.expName + ".sh"]
  {
    var name := "slurm_" + s.expName + ".sh";
    SplitOnJoin(s.expDirSlurm, name, '/');
    SplitOnNoSeparator(name, '/');
  }

  /** The sbatch command of one experiment: the script, then `$1` the
      experiment's results directory, `$2` the experiment count, `$3` the
      job count, then the experiment's flags and, if there are any, the
      default parameters' flags. */
  function SbatchCommand(s: Settings, path: string, exp: Record, defaults: Record): string {
    var u := s.useUnderscoreArgparse;
    var args := CommandLine(exp, u) + (if defaults != [] then " " + CommandLine(defaults, u) else "");
    "sbatch " + (path + " " + (ResultsDir(s.expDirSlurm, exp, None) + " "
      + (IntToString(s.nExp) + " " + (IntToString(s.joblibNJobs) + " " + args))))
  }

  /** The shell reads the command as the script and its positional
      arguments: the results directory, the experiment count and the job
      count, then the flags of the experiment and of the defaults. */
  lemma SbatchWords(s: Settings, path: string, exp: Record, defaults: Record)
    requires path != [] && ' ' !in path
    requires ResultsDir(s.expDirSlurm, exp, None) != [] && ' ' !in ResultsDir(s.expDirSlurm, exp, None)
    requires ShellSafe(exp) && ShellSafe(defaults)
    ensures Words(SbatchCommand(s, path, exp, defaults)) ==
      ["sbatch", path, ResultsDir(s.expDirSlurm, exp, None), IntToString(s.nExp), IntToString(s.joblibNJobs)]
      + RecordWords(exp, s.useUnderscoreArgparse) + RecordWords(defaults, s.useUnderscoreArgparse)
  {
    var u := s.useUnderscoreArgparse;
    var rd, n, j := ResultsDir(s.expDirSlurm, exp, None), IntToString(s.nExp), IntToString(s.joblibNJobs);
    var tail := if defaults != [] then " " + CommandLine(defaults, u) else "";
    DefaultsWords(defaults, u);
    CommandLineWords(exp, u, tail);
    var args := CommandLine(exp, u) + tail;
    IntToStringHasNo(s.nExp, ' ');
    IntToStringHasNo(s.joblibNJobs, ' ');
    assert "sbatch " == "sbatch" + " ";
    WordsCons(j, args);
    WordsCons(n, j + " " + args);
    WordsCons(rd, n + " " + (j + " " + args));
    WordsCons(path, rd + " " + (n + " " + (j + " " + args)));
    WordsCons("sbatch", path + " " + (rd + " " + (n + " " + (j + " " + args))));
    FiveFirst("sbatch", path, rd, n, j, RecordWords(exp, u), RecordWords(defaults, u));
  }

  lemma FiveFirst(a: string, b: string, c: string, d: string, e: string, v: seq<string>, w: seq<string>)
    ensures [a] + ([b] + ([c] + ([d] + ([e] + (v + w))))) == [a, b, c, d, e] + v + w
  {
  }

  /** The trailing default flags read as their words. */
  lemma DefaultsWords(defaults: Record, u: bool)
    requires ShellSafe(defaults)
    ensures Words(if defaults != [] then " " + CommandLine(defaults, u) else "") == RecordWords(defaults, u)
  {
    if defaults != [] {
      CommandLineWords(defaults, u, "");
      assert CommandLine(defaults, u) + "" == CommandLine(defaults, u);
      assert (" " + CommandLine(defaults, u))[1..] == CommandLine(defaults, u);
    }
  }

  /** The commands of all experiments, in order. */
  function Commands(s: Settings, path: string, exps: seq<Record>, defaults: Record): (cs: seq<string>)
    ensures |cs| == |exps|
    decreases |exps|
  {
    if exps == [] then []
    else Commands(s, path, exps[..|exps| - 1], defaults) + [SbatchCommand(s, path, exps[|exps| - 1], defaults)]
  }

  lemma {:induction false} CommandAt(s: Settings, path: string, exps: seq<Record>, defaults: Record, i: nat)
    requires i < |exps|
    ensures Commands(s, path, exps, defaults)[i] == SbatchCommand(s, path, exps[i], defaults)
    decreases |exps|
  {
    if i < |exps| - 1 {
      CommandAt(s, path, exps[..|exps| - 1], defaults, i);
    }
  }

  /** The loop of `_run_slurm` that builds one command per experiment. */
  method SbatchCommands(s: Settings, path: string, exps: seq<Record>, defaults: Record) returns (commands: seq<string>)
    ensures commands == Commands(s, path, exps, defaults)
  {
    commands := [];
    for i := 0 to |exps|
      invariant commands == Commands(s, path, exps[..i], defaults)
    {
      assert exps[..i + 1][..i] == exps[..i];
      commands := commands + [SbatchCommand(s, path, exps[i], defaults)];
    }
    assert exps[..|exps|] == exps;
  }

  /** What a SLURM run produces: the script written to `path`, and one
      command per experiment (run, or printed in test mode). */
  datatype Submission = Submission(path: string, script: string, commands: seq<string>)

  function SubmitSpec(s: LauncherSettings, h: Host, exps: seq<Record>, defaults: Record): Result<Submission, SlurmError> {
    var script := GenerateSlurmAsWritten(s, h);
    if script.Failure? then Failure(script.error)
    else Success(Submission(ScriptPath(s), script.value, Commands(s, ScriptPath(s), exps, defaults)))
  }

  /** A test-mode local run prints, per experiment and seed index, the
      experiment, the default parameters, the index and the experiment's
      results directory without a seed level. */
  datatype PreviewLine = PreviewLine(exp: Record, defaults: Record, seed: int, resultsDir: string)

  function Preview(s: Settings, exps: seq<Record>, defaults: Record): (ps: seq<PreviewLine>)
    ensures |ps| == |exps| * s.nExp
  {
    var pairs := Product(exps, Range(0, s.nExp));
    assert |pairs| == |exps| * s.nExp;
    seq(|pairs|, t requires 0 <= t < |pairs| => PreviewLine(pairs[t].0, defaults, pairs[t].1, ResultsDir(s.expDirLocal, pairs[t].0, None)))
  }

  /** Line `i * n_exp + j` of the preview shows experiment `i` with seed
      index `j`, and the experiment's results directory without a seed. */
  lemma PreviewAt(s: Settings, exps: seq<Record>, defaults: Record, i: nat, j: nat)
    requires i < |exps| && j < s.nExp
    ensures Position(i, j, s.nExp) < |Preview(s, exps, defaults)|
    ensures Preview(s, exps, defaults)[Position(i, j, s.nExp)]
         == PreviewLine(exps[i], defaults, j, ResultsDir(s.expDirLocal, exps[i], None))
  {
    var seeds := Range(0, s.nExp);
    ProductAt(exps, seeds, i, j);
    RangeAt(0, s.nExp, j);
  }

  /** A local run that is not a test makes one call per experiment and seed,
      `n_exp` calls per experiment, whether the seeds are sampled or not. */
  lemma LocalCallCount(s: LauncherSettings, h: Host, exps: seq<Record>, defaults: Record,
                       funcDefaults: Record, draw: seq<int>)
    requires s.randomizeSeeds ==> SeedDraw(draw, s.nExp, s.maxSeeds)
    ensures var r := RunSpec(s, h, exps, defaults, true, false, funcDefaults, draw);
      r.Success? && r.value.LocalCalls? && |r.value.params| == |exps| * s.nExp
  {
    SeedsOfRun(s, draw);
  }

  datatype RunOutput =
    | Slurm(submission: Submission)
    | LocalPreview(lines: seq<PreviewLine>)
    | LocalCalls(params: seq<Record>)

  /** `run(local, test)` from the launcher's state before the call. A run
      that samples seeds is given a draw `np.random.choice` can return. */
  function RunSpec(s: LauncherSettings, h: Host, exps: seq<Record>, defaults: Record,
                   local: bool, test: bool, funcDefaults: Record, draw: seq<int>): Result<RunOutput, SlurmError>
    requires local && !test && s.randomizeSeeds ==> SeedDraw(draw, s.nExp, s.maxSeeds)
  {
    if local then
      if test then Success(LocalPreview(Preview(s, exps, defaults)))
      else Success(LocalCalls(ExpParams(funcDefaults, defaults, exps, Seeds(s, draw), s.expDirLocal)))
    else
      var r := SubmitSpec(s, h, exps, defaults);
      if r.Failure? then Failure(r.error) else Success(Slurm(r.value))
  }

  // ---------------------------------------------------------------------
  // The launcher object

  class Launcher {
    const config: LauncherSettings
    var experimentList: seq<Record>
    var defaultParams: Record

    constructor (config: LauncherSettings)
      ensures this.config == config && experimentList == [] && defaultParams == []
    {
      this.config := config;
      experimentList := [];
      defaultParams := [];
    }

    /** `add_experiment(**kwargs)` */
    method AddExperiment(exp: Record)
      modifies this
      ensures experimentList == old(experimentList) + [exp]
      ensures defaultParams == old(defaultParams)
    {
      experimentList := experimentList + [exp];
    }

    /** `add_default_params(**kwargs)` */
    method AddDefaultParams(params: Record)
      modifies this
      ensures defaultParams == UpdateAll(old(defaultParams), params)
      ensures experimentList == old(experimentList)
    {
      defaultParams := UpdateAll(defaultParams, params);
    }

    /** `_run_slurm`: the script, then one sbatch command per experiment. */
    method RunSlurm(h: Host) returns (r: Result<Submission, SlurmError>)
      ensures r == SubmitSpec(config, h, experimentList, defaultParams)
    {
      var script := GenerateSlurmAsWritten(config, h);
      if script.Failure? {
        return Failure(script.error);
      }
      var path := ScriptPath(config);
      var commands := SbatchCommands(config, path, experimentList, defaultParams);
      r := Success(Submission(path, script.value, commands));
    }

    /** `_generate_exp_params`, with the random draw given. */
    method GenerateExpParams(paramsDict: Dict, draw: seq<int>) returns (tasks: seq<Record>)
      requires config.randomizeSeeds ==> SeedDraw(draw, config.nExp, config.maxSeeds)
      modifies paramsDict
      ensures tasks == ExpParams(old(paramsDict.items), defaultParams, experimentList, Seeds(config, draw), config.expDirLocal)
    {
      paramsDict.UpdateFrom(defaultParams);
      var pairs := Product(experimentList, Seeds(config, draw));
      tasks := YieldCalls(paramsDict, pairs, config.expDirLocal);
    }

    /** `_run_joblib`; the experiment function's defaults and the random
        draw are given. */
    method RunJoblib(test: bool, funcDefaults: Record, draw: seq<int>) returns (out: RunOutput)
      requires !test && config.randomizeSeeds ==> SeedDraw(draw, config.nExp, config.maxSeeds)
      ensures !test ==> out.LocalCalls? && |out.params| == |experimentList| * config.nExp
      ensures out == if test then LocalPreview(Preview(config, experimentList, defaultParams))
                     else LocalCalls(ExpParams(funcDefaults, defaultParams, experimentList, Seeds(config, draw), config.expDirLocal))
    {
      if test {
        out := LocalPreview(Preview(config, experimentList, defaultParams));
      } else {
        var paramsDict := new Dict(funcDefaults);
        var tasks := GenerateExpParams(paramsDict, draw);
        SeedsOfRun(config, draw);
        out := LocalCalls(tasks);
      }
    }

    /** `run(local, test)`: the experiment list is emptied once the run is
        through; a failed SLURM script leaves it as it was. */
    method Run(local: bool, test: bool, h: Host, funcDefaults: Record, draw: seq<int>) returns (r: Result<RunOutput, SlurmError>)
      requires local && !test && config.randomizeSeeds ==> SeedDraw(draw, config.nExp, config.maxSeeds)
      modifies this
      ensures r == RunSpec(config, h, old(experimentList), old(defaultParams), local, test, funcDefaults, draw)
      ensures experimentList == if r.Success? then [] else old(experimentList)
      ensures defaultParams == old(defaultParams)
    {
      if local {
        var out := RunJoblib(test, funcDefaults, draw);
        r := Success(out);
      } else {
        var sub := RunSlurm(h);
        if sub.Failure? {
          return Failure(sub.error);
        }
        r := Success(Slurm(sub.value));
      }
      experimentList := [];
    }
  }

  /** `Launcher(...)`: the settings are normalised, or the construction
      fails as `Configure` says. */
  method NewLauncher(a: LauncherArgs, h: Host) returns (r: Result<Launcher, ConfigError>)
    ensures r.Failure? <==> Configure(a, h).Failure?
    ensures r.Failure? ==> r.error == Configure(a, h).error
    ensures r.Success? ==> fresh(r.value) && r.value.config == Configure(a, h).value
    ensures r.Success? ==> r.value.experimentList == [] && r.value.defaultParams == []
  {
    var c := Configure(a, h);
    if c.Failure? {
      return Failure(c.error);
    }
    var l := new Launcher(c.value);
    r := Success(l);
  }
}
