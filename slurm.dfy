/** `Launcher.generate_slurm`: the SLURM batch script of a launcher, and
    the seed arithmetic the script and `run_experiment` share. The sbatch
    command passes the results directory, the experiment count and the job
    count as `$1`, `$2` and `$3`; array task `t` runs with `--seed t`, so it
    covers the seeds `[t * n_jobs, t * n_jobs + k)` for the `k` the script
    passes as `--joblib-n-seeds`. */
module Slurm {
  import opened Wrappers
  import opened Text
  import opened Ranges
  import opened Config
  import opened Worker

  // ---------------------------------------------------------------------
  // Seeds per array task

  /** The three forms of the `--joblib-n-seeds` argument. */
  datatype SeedsArg =
    | AllExperiments   // "$2": every experiment in one task
    | OnePerJob        // "$3": one seed per parallel job
    | Remainder        // "${JOBLIB_SEEDS}": computed by the script

  function SeedsArgText(a: SeedsArg): string {
    match a
    case AllExperiments => "$2"
    case OnePerJob => "$3"
    case Remainder => "${JOBLIB_SEEDS}"
  }

  /** The choice of `--joblib-n-seeds`. The source's last branch raises
      `NotImplementedError`; no input reaches it. */
  function JoblibSeedsArg(nExp: nat, nJobs: int): SeedsArg
    requires nJobs >= 1
  {
    if nExp < nJobs then AllExperiments
    else if nExp % nJobs == 0 then OnePerJob
    else if nExp % nJobs != 0 then Remainder
    else assert false; Remainder
  }

  /** How many seeds array task `task` runs: the value the argument has in
      the script, where `${JOBLIB_SEEDS}` is `n_jobs` while a full block of
      `n_jobs` seeds still fits below `n_exp`, and `n_exp % n_jobs` after. */
  function SeedCount(a: SeedsArg, task: nat, nExp: nat, nJobs: int): int
    requires nJobs >= 1
  {
    match a
    case AllExperiments => nExp
    case OnePerJob => nJobs
    case Remainder => if (task + 1) * nJobs <= nExp then nJobs else nExp % nJobs
  }

  /** The seeds array task `task` runs. */
  function TaskSeeds(nExp: nat, nJobs: int, task: nat): seq<int>
    requires nJobs >= 1
  {
    WorkerSeeds(task, nJobs, SeedCount(JoblibSeedsArg(nExp, nJobs), task, nExp, nJobs))
  }

  /** Every array task runs at most `n_jobs` seeds and never more than there
      are experiments, and at least one while there are experiments: the
      `--joblib-n-seeds` the script passes is always one of its three
      forms, never the `NotImplementedError`. */
  lemma SeedsPerTask(nExp: nat, nJobs: int, task: nat)
    requires nJobs >= 1
    ensures var c := SeedCount(JoblibSeedsArg(nExp, nJobs), task, nExp, nJobs);
      c <= nJobs && c <= nExp && (nExp > 0 ==> c >= 1)
    ensures JoblibSeedsArg(nExp, nJobs) == AllExperiments <==> nExp < nJobs
    ensures JoblibSeedsArg(nExp, nJobs) == OnePerJob <==> nExp >= nJobs && nExp % nJobs == 0
  {
  }

  /** The seeds the array tasks `0 .. tasks - 1` run, task after task. */
  function ArraySeeds(nExp: nat, nJobs: int, tasks: nat): seq<int>
    requires nJobs >= 1
  {
    if tasks == 0 then [] else ArraySeeds(nExp, nJobs, tasks - 1) + TaskSeeds(nExp, nJobs, tasks - 1)
  }

  /** The upper end of `#SBATCH -a 0-N` as written: `n_exp // n_jobs`. */
  function ArrayUpperAsWritten(nExp: nat, nJobs: int): int
    requires nJobs >= 1
  {
    nExp / nJobs
  }

  /** The upper end that gives `ceil(n_exp / n_jobs)` tasks (one task when
      there are no experiments, as the source always starts one). */
  function ArrayUpper(nExp: nat, nJobs: int): (u: nat)
    requires nJobs >= 1
    ensures nExp > 0 && nExp % nJobs != 0 ==> u == ArrayUpperAsWritten(nExp, nJobs)
  {
    if nExp == 0 then 0 else DivOfPredecessor(nExp, nJobs); (nExp - 1) / nJobs
  }

  lemma DivOfPredecessor(a: nat, n: int)
    requires n >= 1 && a > 0
    ensures a % n != 0 ==> (a - 1) / n == a / n
    ensures a % n == 0 ==> (a - 1) / n == a / n - 1
  {
    var q, r := a / n, a % n;
    if r != 0 {
      DivUnique(a - 1, n, q, r - 1);
    } else {
      DivUnique(a - 1, n, q - 1, n - 1);
    }
  }

  lemma DivUnique(a: int, n: int, q: int, r: int)
    requires n >= 1 && 0 <= r < n && a == q * n + r
    ensures a / n == q && a % n == r
  {
    var q', r' := a / n, a % n;
    if q > q' {
      MulGap(q, q', n);
    } else if q < q' {
      MulGap(q', q, n);
    }
  }

  lemma MulGap(x: int, y: int, n: int)
    requires x > y && n >= 1
    ensures x * n - y * n >= n
  {
    MulAtLeast(x - y, n);
    assert x * n == (x - y) * n + y * n;
  }

  lemma {:induction false} MulAtLeast(d: int, n: int)
    requires d >= 1 && n >= 1
    ensures d * n >= n
    decreases d
  {
    if d > 1 {
      MulAtLeast(d - 1, n);
      assert d * n == (d - 1) * n + n;
    }
  }

  /** Tasks that each run a full block of `n_jobs` seeds cover one
      contiguous range from seed 0. */
  lemma {:induction false} FullTasks(nExp: nat, nJobs: int, k: nat)
    requires nJobs >= 1
    requires JoblibSeedsArg(nExp, nJobs) == OnePerJob || (JoblibSeedsArg(nExp, nJobs) == Remainder && k * nJobs <= nExp)
    ensures ArraySeeds(nExp, nJobs, k) == Range(0, k * nJobs)
  {
    if k > 0 {
      assert (k - 1) * nJobs + nJobs == k * nJobs;
      FullTasks(nExp, nJobs, k - 1);
      RangeAppend(0, (k - 1) * nJobs, k * nJobs);
    }
  }

  /** With the corrected bound the array tasks run every seed
      `0 .. n_exp - 1` exactly once, in increasing order. */
  lemma ArrayCoversExperiments(nExp: nat, nJobs: int)
    requires nJobs >= 1
    ensures ArraySeeds(nExp, nJobs, ArrayUpper(nExp, nJobs) + 1) == Range(0, nExp)
  {
    if nExp < nJobs {
      SingleTask(nExp, nJobs);
    } else if nExp % nJobs == 0 {
      DivisibleTasks(nExp, nJobs, nExp / nJobs);
    } else {
      DivOfPredecessor(nExp, nJobs);
      PartialLastTask(nExp, nJobs, nExp / nJobs, nExp % nJobs);
    }
  }

  /** When `n_jobs` divides `n_exp = q * n_jobs`, the `q` tasks of the
      corrected bound each run a full block. */
  lemma DivisibleTasks(nExp: nat, nJobs: int, q: nat)
    requires nJobs >= 1 && nExp >= nJobs && nExp == q * nJobs
    ensures ArraySeeds(nExp, nJobs, ArrayUpper(nExp, nJobs) + 1) == Range(0, nExp)
  {
    DivUnique(nExp, nJobs, q, 0);
    DivOfPredecessor(nExp, nJobs);
    assert ArrayUpper(nExp, nJobs) + 1 == q;
    FullTasks(nExp, nJobs, q);
  }

  /** Fewer experiments than jobs: one task runs them all. */
  lemma SingleTask(nExp: nat, nJobs: int)
    requires nJobs >= 1 && nExp < nJobs
    ensures ArraySeeds(nExp, nJobs, ArrayUpper(nExp, nJobs) + 1) == Range(0, nExp)
  {
    assert ArrayUpper(nExp, nJobs) == 0 by {
      if nExp > 0 { DivUnique(nExp - 1, nJobs, 0, nExp - 1); }
    }
    assert ArraySeeds(nExp, nJobs, 1) == TaskSeeds(nExp, nJobs, 0);
  }

  /** When `n_jobs` does not divide `n_exp`, the `q` full tasks and one
      task of `r = n_exp % n_jobs` seeds cover `0 .. n_exp - 1`. */
  lemma PartialLastTask(nExp: nat, nJobs: int, q: nat, r: int)
    requires nJobs >= 1 && nExp >= nJobs && nExp == q * nJobs + r && 0 < r < nJobs
    ensures ArraySeeds(nExp, nJobs, q + 1) == Range(0, nExp)
  {
    DivUnique(nExp, nJobs, q, r);
    assert JoblibSeedsArg(nExp, nJobs) == Remainder;
    assert (q + 1) * nJobs == q * nJobs + nJobs;
    assert TaskSeeds(nExp, nJobs, q) == Range(q * nJobs, nExp);
    FullTasks(nExp, nJobs, q);
    RangeAppend(0, q * nJobs, nExp);
  }

  /** As written, when `n_jobs` divides a positive `n_exp` the array has one
      task too many, which runs the seeds `n_exp .. n_exp + n_jobs - 1`. */
  lemma ArrayAsWrittenRunsExtraTask(nExp: nat, nJobs: int)
    requires nJobs >= 1 && nExp > 0 && nExp % nJobs == 0
    ensures ArraySeeds(nExp, nJobs, ArrayUpperAsWritten(nExp, nJobs) + 1) == Range(0, nExp + nJobs)
  {
    var q := nExp / nJobs;
    assert (q + 1) * nJobs == nExp + nJobs;
    FullTasks(nExp, nJobs, q + 1);
  }

  /** Two experiments run on one job: the header says `0-2` where `0-1`
      was meant, and the third task runs seed 2, which is no experiment. */
  lemma ArrayAsWrittenExample()
    ensures ArrayUpperAsWritten(2, 1) == 2 && ArrayUpper(2, 1) == 1
    ensures 2 in ArraySeeds(2, 1, ArrayUpperAsWritten(2, 1) + 1)
  {
    ArrayAsWrittenRunsExtraTask(2, 1);
    RangeHas(0, 3, 2);
  }

  // ---------------------------------------------------------------------
  // The conda hook

  /** The `eval` line for the conda installation found, as written: the
      anaconda branch probes `anaconda3` but runs `anaconda/bin/conda`. */
  function CondaHookAsWritten(user: string, h: Host): Option<string> {
    if h.minicondaExists then Some("/home/" + user + "/miniconda3/bin/conda")
    else if h.anaconda3Exists then Some("/home/" + user + "/anaconda/bin/conda")
    else None
  }

  /** The installation directory the probe found. */
  function CondaDir(user: string, h: Host): Option<string> {
    if h.minicondaExists then Some("/home/" + user + "/miniconda3")
    else if h.anaconda3Exists then Some("/home/" + user + "/anaconda3")
    else None
  }

  /** The `conda` binary of the installation that was found. */
  function CondaHook(user: string, h: Host): (hook: Option<string>)
    ensures hook.Some? <==> CondaDir(user, h).Some?
    ensures hook.Some? ==> hook.value == CondaDir(user, h).value + "/bin/conda"
  {
    if h.minicondaExists then Some("/home/" + user + "/miniconda3/bin/conda")
    else if h.anaconda3Exists then Some("/home/" + user + "/anaconda3/bin/conda")
    else None
  }

  /** As written, with only `anaconda3` installed the script runs a conda
      binary outside the directory the probe found. */
  lemma CondaHookAsWrittenMisses(user: string, h: Host)
    requires !h.minicondaExists && h.anaconda3Exists
    ensures !StartsWith(CondaHookAsWritten(user, h).value, CondaDir(user, h).value + "/")
  {
    var dir := CondaDir(user, h).value + "/";
    var hook := CondaHookAsWritten(user, h).value;
    var p := |"/home/" + user + "/anaconda"|;
    assert hook[p] == '/';
    assert dir[p] == '3';
  }

  // ---------------------------------------------------------------------
  // The script

  /** The `#SBATCH` options the script sets. */
  datatype Flag =
    | Account | Partition | Begin | Gres
    | JobName | Array | Time | Tasks | CpusPerTask | MemPerCpu | OutputLog | ErrorLog

  /** An option as written in the script, with its separator. */
  function DirectiveText(f: Flag): string {
    match f
    case Account => "-A "
    case Partition => "-p "
    case Begin => "--begin="
    case Gres => "--gres="
    case JobName => "-J "
    case Array => "-a "
    case Time => "-t "
    case Tasks => "-n "
    case CpusPerTask => "-c "
    case MemPerCpu => "--mem-per-cpu="
    case OutputLog => "-o "
    case ErrorLog => "-e "
  }

  /** The value of a directive: text, or a number written with `str()`
      after a fixed prefix. */
  datatype DirectiveArg = TextArg(text: string) | Number(prefix: string, n: int)

  function DirectiveValueText(a: DirectiveArg): string {
    match a
    case TextArg(text) => text
    case Number(prefix, n) => prefix + IntToString(n)
  }

  /** A line of the script: a `#SBATCH` directive with its option and
      value, or any other text. */
  datatype Line = Sbatch(flag: Flag, value: DirectiveArg) | Plain(text: string)

  function Render(l: Line): string {
    match l
    case Sbatch(flag, value) => "#SBATCH " + DirectiveText(flag) + DirectiveValueText(value)
    case Plain(text) => text
  }

  function Rendered(ls: seq<Line>): (r: seq<string>)
    ensures |r| == |ls|
  {
    seq(|ls|, i requires 0 <= i < |ls| => Render(ls[i]))
  }

  function Texts(ts: seq<string>): (ls: seq<Line>)
    ensures |ls| == |ts| && forall i :: 0 <= i < |ts| ==> ls[i] == Plain(ts[i])
  {
    seq(|ts|, i requires 0 <= i < |ts| => Plain(ts[i]))
  }

  /** The comment rule of the script: 79 `#`. */
  const Rule: string := Repeat('#', 79)

  function Repeat(c: char, n: nat): (s: string)
    ensures |s| == n && forall i :: 0 <= i < n ==> s[i] == c
  {
    if n == 0 then [] else Repeat(c, n - 1) + [c]
  }

  /** One optional directive, present when its setting is set (neither
      `None` nor empty). */
  function Directive(flag: Flag, o: Option<string>): seq<Line> {
    if Truthy(o) then [Sbatch(flag, TextArg(o.value))] else []
  }

  /** The optional directives, in this order. */
  function Optional(s: Settings): seq<Line> {
    Directive(Account, s.projectName) + Directive(Partition, s.partition)
    + Directive(Begin, s.begin) + Directive(Gres, s.gres)
  }

  const Header: seq<Line> := Texts(["#!/usr/bin/env bash", "", Rule, "# SLURM Configurations", "", "# Optional parameters"])

  /** The mandatory directives: the job's name and array, then its
      resources and log files. */
  function Mandatory(s: Settings, upper: int): seq<Line> {
    Texts(["", "# Mandatory parameters"]) + Job(s, upper) + Resources(s)
  }

  /** The job's name and its array of tasks `0 .. upper`. */
  function Job(s: Settings, upper: int): seq<Line> {
    [Sbatch(JobName, TextArg(s.expName)), Sbatch(Array, Number("0-", upper))]
  }

  function Resources(s: Settings): seq<Line> {
    [Sbatch(Time, TextArg(s.duration)),
     Sbatch(Tasks, TextArg("1")),
     Sbatch(CpusPerTask, Number("", s.nCores)),
     Sbatch(MemPerCpu, Number("", s.memory)),
     Sbatch(OutputLog, TextArg(s.expDirSlurm + "/%A_%a.out")),
     Sbatch(ErrorLog, TextArg(s.expDirSlurm + "/%A_%a.err"))]
  }

  /** The bash that computes `${JOBLIB_SEEDS}` for the last, partial block. */
  const JoblibSeedLines: seq<string> := [
    "aux=$(( $SLURM_ARRAY_TASK_ID + 1 ))",
    "aux=$(( $aux * $3 ))",
    "if (( $aux <= $2 ))",
    "then",
    "  JOBLIB_SEEDS=$3",
    "else",
    "  JOBLIB_SEEDS=$(( $2 % $3 ))",
    "fi"]

  datatype SlurmError = NoConda   // a conda environment but no installation

  /** The lines that start the program: activate the environment if one is
      named, then the `python` call, continued on the next line. */
  function ExecutionLines(s: Settings, hook: Option<string>): Result<seq<string>, SlurmError> {
    if Truthy(s.condaEnv) then
      if hook.None? then Failure(NoConda)
      else Success([
        "eval \"$(" + hook.value + " shell.bash hook)\"",
        "conda activate " + s.condaEnv.value,
        "",
        "python " + s.pythonFile + ".py \\"])
    else Success(["python3  " + s.pythonFile + ".py \\"])
  }

  /** The arguments of the program call: the experiment's own (`${@:4}`),
      the seed, the results directory and the joblib counts. */
  function Arguments(s: Settings): seq<string>
    requires s.joblibNJobs >= 1
  {
    ["\t\t${@:4} \\",
     "\t\t--seed $SLURM_ARRAY_TASK_ID \\",
     (if s.useUnderscoreArgparse then "\t\t--results_dir $1" else "\t\t--results-dir $1") + " \\",
     "\t\t--joblib-n-jobs $3  --joblib-n-seeds " + SeedsArgText(JoblibSeedsArg(s.nExp, s.joblibNJobs)) + " ",
     ""]
  }

  /** Everything after the directives: the job's banner, the seed-count
      bash, the program call and its arguments. */
  function Program(s: Settings, exec: seq<string>): seq<Line>
    requires s.joblibNJobs >= 1
  {
    Texts(["", Rule, "# Your PROGRAM call starts here",
           "echo \"Starting Job $SLURM_JOB_ID, Index $SLURM_ARRAY_TASK_ID\"", "", "# Joblib seed"]
          + JoblibSeedLines + ["", "# Program specific arguments"] + exec + Arguments(s))
  }

  /** The script, line by line. */
  function Script(s: Settings, exec: seq<string>, upper: int): seq<Line>
    requires s.joblibNJobs >= 1
  {
    Header + Optional(s) + Mandatory(s, upper) + Program(s, exec)
  }

  /** The values of the directives with a given flag, in order. */
  function Values(ls: seq<Line>, flag: Flag): seq<DirectiveArg> {
    if ls == [] then []
    else (if ls[0].Sbatch? && ls[0].flag == flag then [ls[0].value] else []) + Values(ls[1..], flag)
  }

  lemma {:induction false} ValuesAppend(a: seq<Line>, b: seq<Line>, flag: Flag)
    ensures Values(a + b, flag) == Values(a, flag) + Values(b, flag)
  {
    if a == [] {
      assert a + b == b;
    } else {
      assert (a + b)[0] == a[0];
      assert (a + b)[1..] == a[1..] + b;
      ValuesAppend(a[1..], b, flag);
    }
  }

  lemma ValuesAppend3(a: seq<Line>, b: seq<Line>, c: seq<Line>, flag: Flag)
    ensures Values(a + b + c, flag) == Values(a, flag) + Values(b, flag) + Values(c, flag)
  {
    ValuesAppend(a + b, c, flag);
    ValuesAppend(a, b, flag);
  }

  lemma {:induction false} TextsHaveNoValues(ts: seq<string>, flag: Flag)
    ensures Values(Texts(ts), flag) == []
  {
    if ts != [] {
      assert Texts(ts)[1..] == Texts(ts[1..]);
      TextsHaveNoValues(ts[1..], flag);
    }
  }

  /** The value a set option contributes. */
  function OptionValue(o: Option<string>): seq<DirectiveArg> {
    if Truthy(o) then [TextArg(o.value)] else []
  }

  /** Only the optional and the mandatory directives carry values. */
  lemma ScriptValues(s: Settings, exec: seq<string>, upper: int, flag: Flag)
    requires s.joblibNJobs >= 1
    ensures Values(Script(s, exec, upper), flag) == Values(Optional(s), flag) + Values(Mandatory(s, upper), flag)
  {
    TextsHaveNoValues(["#!/usr/bin/env bash", "", Rule, "# SLURM Configurations", "", "# Optional parameters"], flag);
    TextsHaveNoValues(["", Rule, "# Your PROGRAM call starts here",
           "echo \"Starting Job $SLURM_JOB_ID, Index $SLURM_ARRAY_TASK_ID\"", "", "# Joblib seed"]
          + JoblibSeedLines + ["", "# Program specific arguments"] + exec + Arguments(s), flag);
    ValuesAppend(Header + Optional(s) + Mandatory(s, upper), Program(s, exec), flag);
    ValuesAppend(Header + Optional(s), Mandatory(s, upper), flag);
    ValuesAppend(Header, Optional(s), flag);
  }

  lemma {:induction false} NoValues(ls: seq<Line>, flag: Flag)
    requires forall l :: l in ls ==> !(l.Sbatch? && l.flag == flag)
    ensures Values(ls, flag) == []
  {
    if ls != [] {
      assert ls[0] in ls;
      assert forall l :: l in ls[1..] ==> l in ls;
      NoValues(ls[1..], flag);
    }
  }

  lemma DirectiveValues(f: Flag, o: Option<string>, flag: Flag)
    ensures Values(Directive(f, o), flag) == if f == flag then OptionValue(o) else []
  {
    if Truthy(o) {
      var single := [Sbatch(f, TextArg(o.value))];
      assert single[1..] == [];
    }
  }

  /** The directives the flags of the optional settings: no mandatory
      directive uses one of them. */
  predicate OptionalFlag(flag: Flag, s: Settings, o: Option<string>) {
    (flag == Account && o == s.projectName) || (flag == Partition && o == s.partition)
    || (flag == Begin && o == s.begin) || (flag == Gres && o == s.gres)
  }

  /** An optional directive is in the script exactly when its setting is
      set, once, with the setting's value. */
  lemma OptionalDirective(s: Settings, exec: seq<string>, upper: int, flag: Flag, o: Option<string>)
    requires s.joblibNJobs >= 1 && OptionalFlag(flag, s, o)
    ensures Values(Script(s, exec, upper), flag) == OptionValue(o)
  {
    ScriptValues(s, exec, upper, flag);
    MandatoryHasNo(s, upper, flag);
    OptionalValues(s, flag, o);
  }

  lemma MandatoryHasNo(s: Settings, upper: int, flag: Flag)
    requires flag in {Account, Partition, Begin, Gres}
    ensures Values(Mandatory(s, upper), flag) == []
  {
    MandatoryParts(s, upper, flag);
    JobValues(s, upper, flag);
    ResourcesHaveNo(s, flag);
  }

  /** Only the job and resource directives of the mandatory block carry
      values. */
  lemma MandatoryParts(s: Settings, upper: int, flag: Flag)
    ensures Values(Mandatory(s, upper), flag) == Values(Job(s, upper), flag) + Values(Resources(s), flag)
  {
    TextsHaveNoValues(["", "# Mandatory parameters"], flag);
    ValuesAppend3(Texts(["", "# Mandatory parameters"]), Job(s, upper), Resources(s), flag);
  }

  lemma JobValues(s: Settings, upper: int, flag: Flag)
    ensures Values(Job(s, upper), flag) ==
      (if flag == JobName then [TextArg(s.expName)] else []) + (if flag == Array then [Number("0-", upper)] else [])
  {
    var job := Job(s, upper);
    var last := job[1..];
    assert last == [job[1]];
    assert last[1..] == [];
    assert Values(last, flag) == if flag == Array then [Number("0-", upper)] else [];
    assert Values(job, flag) == (if flag == JobName then [TextArg(s.expName)] else []) + Values(last, flag);
  }

  lemma ResourcesHaveNo(s: Settings, flag: Flag)
    requires flag !in {Time, Tasks, CpusPerTask, MemPerCpu, OutputLog, ErrorLog}
    ensures Values(Resources(s), flag) == []
  {
    NoValues(Resources(s), flag);
  }

  lemma OptionalValues(s: Settings, flag: Flag, o: Option<string>)
    requires OptionalFlag(flag, s, o)
    ensures Values(Optional(s), flag) == OptionValue(o)
  {
    OptionalParts(s, flag);
  }

  /** What each optional directive contributes for a flag. */
  lemma OptionalParts(s: Settings, flag: Flag)
    ensures Values(Optional(s), flag) ==
      Values(Directive(Account, s.projectName), flag) + Values(Directive(Partition, s.partition), flag)
      + Values(Directive(Begin, s.begin), flag) + Values(Directive(Gres, s.gres), flag)
    ensures Values(Directive(Account, s.projectName), flag) == if flag == Account then OptionValue(s.projectName) else []
    ensures Values(Directive(Partition, s.partition), flag) == if flag == Partition then OptionValue(s.partition) else []
    ensures Values(Directive(Begin, s.begin), flag) == if flag == Begin then OptionValue(s.begin) else []
    ensures Values(Directive(Gres, s.gres), flag) == if flag == Gres then OptionValue(s.gres) else []
  {
    var a, p := Directive(Account, s.projectName), Directive(Partition, s.partition);
    var b, g := Directive(Begin, s.begin), Directive(Gres, s.gres);
    ValuesAppend(a + p + b, g, flag);
    ValuesAppend(a + p, b, flag);
    ValuesAppend(a, p, flag);
    DirectiveValues(Account, s.projectName, flag);
    DirectiveValues(Partition, s.partition, flag);
    DirectiveValues(Begin, s.begin, flag);
    DirectiveValues(Gres, s.gres, flag);
  }

  /** The account, partition, start time and resource directives are each
      in the script exactly when set. */
  lemma OptionalDirectives(s: Settings, exec: seq<string>, upper: int)
    requires s.joblibNJobs >= 1
    ensures Values(Script(s, exec, upper), Account) == OptionValue(s.projectName)
    ensures Values(Script(s, exec, upper), Partition) == OptionValue(s.partition)
    ensures Values(Script(s, exec, upper), Begin) == OptionValue(s.begin)
    ensures Values(Script(s, exec, upper), Gres) == OptionValue(s.gres)
  {
    OptionalDirective(s, exec, upper, Account, s.projectName);
    OptionalDirective(s, exec, upper, Partition, s.partition);
    OptionalDirective(s, exec, upper, Begin, s.begin);
    OptionalDirective(s, exec, upper, Gres, s.gres);
  }

  /** The array directive is in the script once, with the given range. */
  lemma ArrayDirective(s: Settings, exec: seq<string>, upper: int)
    requires s.joblibNJobs >= 1
    ensures Values(Script(s, exec, upper), Array) == [Number("0-", upper)]
  {
    ScriptValues(s, exec, upper, Array);
    OptionalParts(s, Array);
    MandatoryArray(s, upper);
  }

  lemma MandatoryArray(s: Settings, upper: int)
    ensures Values(Mandatory(s, upper), Array) == [Number("0-", upper)]
  {
    MandatoryParts(s, upper, Array);
    JobValues(s, upper, Array);
    ResourcesHaveNo(s, Array);
  }

  /** Lines joined into one text, each followed by a newline. */
  function JoinLines(lines: seq<string>): string {
    if lines == [] then "" else lines[0] + "\n" + JoinLines(lines[1..])
  }

  /** A text made of newline-free lines splits back into those lines, and
      an empty remainder after the last newline. */
  lemma {:induction false} JoinLinesSplit(lines: seq<string>)
    requires forall i :: 0 <= i < |lines| ==> '\n' !in lines[i]
    ensures SplitOn(JoinLines(lines), '\n') == lines + [""]
  {
    if lines != [] {
      JoinLinesSplit(lines[1..]);
      SplitOnJoin(lines[0], JoinLines(lines[1..]), '\n');
      SplitOnNoSeparator(lines[0], '\n');
      assert JoinLines(lines) == lines[0] + ['\n'] + JoinLines(lines[1..]);
      assert lines == [lines[0]] + lines[1..];
    }
  }

  /** `generate_slurm` with the corrected array bound and conda hook. */
  function GenerateSlurm(s: Settings, h: Host): (r: Result<string, SlurmError>)
    requires Valid(s)
    ensures r.Failure? <==> Truthy(s.condaEnv) && !h.minicondaExists && !h.anaconda3Exists
  {
    var exec := ExecutionLines(s, CondaHook(s.user, h));
    if exec.Failure? then Failure(exec.error)
    else Success(JoinLines(Rendered(Script(s, exec.value, ArrayUpper(s.nExp, s.joblibNJobs)))))
  }

  /** `generate_slurm` as written. */
  function GenerateSlurmAsWritten(s: Settings, h: Host): (r: Result<string, SlurmError>)
    requires Valid(s)
    ensures r.Failure? <==> Truthy(s.condaEnv) && !h.minicondaExists && !h.anaconda3Exists
  {
    var exec := ExecutionLines(s, CondaHookAsWritten(s.user, h));
    if exec.Failure? then Failure(exec.error)
    else Success(JoinLines(Rendered(Script(s, exec.value, ArrayUpperAsWritten(s.nExp, s.joblibNJobs)))))
  }
}
