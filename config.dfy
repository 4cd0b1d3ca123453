/** The settings a launcher is built with and how the constructor
    normalises them (`Launcher.__init__`): the parallel job count, the seed
    bound, the wall time and the two experiment directories. */
module Config {
  import opened Wrappers
  import opened Formatting

  /** The constructor's arguments, with the defaults of its signature. The
      experiment count is taken as non-negative. */
  datatype LauncherArgs = LauncherArgs(
    expName: string,
    pythonFile: string,
    nExp: nat,
    nCores: int := 1,
    memory: int := 2000,
    days: int := 0,
    hours: int := 24,
    minutes: int := 0,
    seconds: int := 0,
    projectName: Option<string> := None,
    baseDir: Option<string> := None,
    joblibNJobs: Option<int> := None,
    condaEnv: Option<string> := None,
    gres: Option<string> := None,
    partition: Option<string> := None,
    begin: Option<string> := None,
    useTimestamp: bool := false,
    useUnderscoreArgparse: bool := false,
    randomizeSeeds: bool := false,
    maxSeeds: int := 10000)

  /** What the launcher reads from the machine it runs on: the `USER`
      environment variable, whether `/work/scratch/$USER` is a directory,
      the current time already formatted as `_%Y-%m-%d_%H-%M-%S`, and which
      conda installation exists in the home directory. */
  datatype Host = Host(
    user: Option<string>,
    scratchIsDir: bool,
    timestamp: string,
    minicondaExists: bool,
    anaconda3Exists: bool)

  /** A constructed launcher's settings. */
  datatype Settings = Settings(
    expName: string,
    pythonFile: string,
    nExp: nat,
    nCores: int,
    memory: int,
    duration: string,
    projectName: Option<string>,
    joblibNJobs: int,
    condaEnv: Option<string>,
    gres: Option<string>,
    partition: Option<string>,
    begin: Option<string>,
    user: string,
    expDirLocal: string,
    expDirSlurm: string,
    useUnderscoreArgparse: bool,
    maxSeeds: int,
    randomizeSeeds: bool)

  datatype ConfigError =
    | JobsNotPositive   // the assertion on `joblib_n_jobs`
    | UserUnset         // `os.path.join` given `None` for `$USER`

  /** What every constructed launcher satisfies: at least one parallel job,
      and more seed values than experiments. */
  predicate Valid(s: Settings) {
    s.joblibNJobs >= 1 && s.maxSeeds > s.nExp
  }

  /** The settings a launcher object holds. */
  type LauncherSettings = s: Settings | Valid(s)
    witness Settings("", "", 0, 1, 2000, "", None, 1, None, None, None, None, "", "", "", false, 1, false)

  /** Python truthiness of an optional string: `None` and `""` are false. */
  predicate Truthy(o: Option<string>) {
    o.Some? && o.value != ""
  }

  /** `Launcher.__init__`. It fails on a non-positive `joblib_n_jobs`
      before it ever looks at `$USER`, and on a missing `$USER` after. */
  function Configure(a: LauncherArgs, h: Host): (r: Result<Settings, ConfigError>)
    ensures r.Failure? <==> (a.joblibNJobs.Some? && a.joblibNJobs.value <= 0) || h.user.None?
    ensures r.Failure? ==> (r.error == JobsNotPositive <==> a.joblibNJobs.Some? && a.joblibNJobs.value <= 0)
    ensures r.Success? ==> Valid(r.value)
    ensures r.Success? ==> r.value.joblibNJobs == (if a.joblibNJobs.Some? then a.joblibNJobs.value else 1)
    ensures r.Success? ==> r.value.maxSeeds >= a.maxSeeds && (a.maxSeeds > a.nExp ==> r.value.maxSeeds == a.maxSeeds)
    ensures r.Success? ==> r.value.maxSeeds == (if a.nExp >= a.maxSeeds then a.nExp + 1 else a.maxSeeds)
  {
    if a.joblibNJobs.Some? && a.joblibNJobs.value <= 0 then Failure(JobsNotPositive)
    else if h.user.None? then Failure(UserUnset)
    else
      var name := a.expName + (if a.useTimestamp then h.timestamp else "");
      var local := Join(a.baseDir.GetOr("./logs"), name);
      var scratch := Join("/work/scratch", h.user.value);
      Success(Settings(
        name, a.pythonFile, a.nExp, a.nCores, a.memory,
        ToDuration(a.days, a.hours, a.minutes, a.seconds),
        a.projectName,
        a.joblibNJobs.GetOr(1),
        a.condaEnv, a.gres, a.partition, a.begin,
        h.user.value,
        local,
        if h.scratchIsDir then Join(scratch, name) else local,
        a.useUnderscoreArgparse,
        if a.nExp >= a.maxSeeds then a.nExp + 1 else a.maxSeeds,
        a.randomizeSeeds))
  }
}
