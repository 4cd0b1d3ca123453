# experiment_launcher, modelled in Dafny

experiment_launcher plans and starts batches of machine-learning runs. A
`Launcher` is built with an experiment name, the Python file that runs one
experiment, a seed count `n_exp` and resource settings. Records of keyword
arguments are then added with `add_experiment`, and shared keyword
arguments with `add_default_params`. `run(local, test)` then does one of two
things:

- It runs every experiment with every seed locally, through joblib. Each
  call gets one merged parameter dict with its own `seed` and `results_dir`.
- It writes a SLURM batch script and submits one `sbatch` array job per
  experiment. Each array task runs the program once with `--seed <task>`.
  The worker side, `run_experiment`, turns that task index into a block of
  `joblib_n_jobs` consecutive seeds and runs one call per seed, each in its
  own results subdirectory.

The model covers the planning logic of `experiment_launcher/launcher.py`:

- the constructor's normalisation;
- the builder state;
- the three text formatters (wall time, command-line flags, results path);
- the script template;
- the `sbatch` commands;
- the expansion of experiments × seeds into parameter dicts;
- the worker's seed block.

The execution itself becomes the value the launcher hands over: the list of
parameter dicts for joblib, or the script text and the list of commands for
SLURM.

Modules, one file each:

- `wrappers.dfy` — `Option` and `Result`.
- `text.dfy` — Python's `str()` of integers, with a parser back; prefixes,
  splitting on a separator, and splitting a command line into words at
  spaces.
- `records.dfy` — keyword-argument dicts as sequences of entries in
  insertion order. It has `dict.update`, item assignment and `del`, and the
  `Dict` class, whose methods change one dict in place.
- `ranges.dfy` — `np.arange` / `range` as an integer sequence.
- `formatting.dfy` — `_to_duration`, `_convert_to_command_line` and
  `_generate_results_dir`, each with a parser or a reading back.
- `config.dfy` — the constructor's arguments, the host facts it reads, and
  `Configure`, which normalises them or fails.
- `slurm.dfy` — `generate_slurm` as a sequence of script lines, and the
  seed arithmetic of the array tasks.
- `worker.dfy` — `run_experiment` and its generator, as methods on a
  `Dict`, each proved against a function of the old dict.
- `launcher.dfy` — seed choice, `itertools.product`, `_generate_exp_params`
  (a method on the shared dict, proved against `ExpParams`), `_run_slurm`
  and the `Launcher` class.

Modelling decisions:

- `os.path.join(a, b)` is `a + "/" + b`. Path segments are taken to be
  relative.
- Values are integers, booleans or strings. `str()` of a boolean is
  `True`/`False`.
- `np.random.choice` is a `draw` argument. A local run that samples seeds
  requires a draw satisfying `SeedDraw`: `n_exp` distinct values in
  `[1, max_seeds)`. `SeedDrawPossible` shows such a draw always exists for
  a constructed launcher.
- The host is an input (`Config.Host`): `$USER`, whether the scratch
  directory exists, the formatted timestamp, and which conda installation
  exists.
- The experiment function's defaults (`get_default_params`) are a record
  argument.
- `run` empties the experiment list after either branch. The one exception
  is that the SLURM branch raises when a conda environment is named and no
  installation is found: the exception leaves `run` before line 102, so the
  model returns `Failure(NoConda)` and keeps the list.
- The SLURM array header: line 170 has a branch for `joblib_n_jobs is None`.
  The constructor has already turned `None` into 1 (lines 60-61), so that
  branch never runs and the model leaves it out.
- The launcher's SLURM run (`RunSlurm`, `Run`) writes the script as the
  source writes it, `Slurm.GenerateSlurmAsWritten`: array header
  `0-(n_exp // joblib_n_jobs)` and the `anaconda/bin/conda` hook.
  `Slurm.GenerateSlurm` is the corrected script of the two Findings (array
  bound `(n_exp - 1) // joblib_n_jobs`, hook `anaconda3/bin/conda`). The
  coverage proof `ArrayCoversExperiments` is about that corrected bound.
- In test mode, a local run builds each experiment's results directory
  without a seed level (line 239). A real local run adds the seed level
  (line 269). The model keeps the difference.
- The choice of `--joblib-n-seeds` (lines 151-158) is `Slurm.JoblibSeedsArg`.
  Its last branch, `NotImplementedError`, is an `assert false` that the
  verifier discharges: no positive job count reaches it.

## Model

| member | source | states |
|---|---|---|
| Config.Configure | experiment_launcher/launcher.py:20-88 | fails exactly when `joblib_n_jobs` is given and not positive (the assertion, checked first) or `$USER` is unset; otherwise the settings are `Valid`, the job count defaults to 1, and `max_seeds` becomes `n_exp + 1` when it does not exceed `n_exp` and stays as given otherwise |
| Launcher.NewLauncher | experiment_launcher/launcher.py:20-88 | a new launcher exists exactly when `Configure` succeeds, holds its settings, and starts with no experiments and no default parameters |
| Launcher.Launcher.constructor | experiment_launcher/launcher.py:67-68 | the experiment list and the default parameters start empty |
| Launcher.Launcher.AddExperiment | experiment_launcher/launcher.py:90-91 | the record is appended at the end of the list; the default parameters are unchanged |
| Launcher.Launcher.AddDefaultParams | experiment_launcher/launcher.py:93-94 | the default parameters become `dict.update` of the old ones with the new; the list is unchanged |
| Records.UpdateAllLookup | experiment_launcher/launcher.py:94 | after `update`, a key the new record sets has the new record's value, and any other key keeps its old value (the later call wins) |
| Records.UpdateAllKeys | experiment_launcher/launcher.py:94 | after `update`, the keys are those of both records, and every old key keeps its position |
| Records.Update | experiment_launcher/launcher.py:268 | `d[k] = v`: the keys afterwards are the old keys plus `k`; a new key is appended at the end, and an existing key leaves the length unchanged |
| Records.UpdateKeepsOrder | experiment_launcher/launcher.py:268 | assigning a key that is already present leaves every key in its position |
| Records.UpdateLookup | experiment_launcher/launcher.py:268 | after assigning a key, looking it up gives the new value and every other key is unaffected |
| Records.RemoveLookup | experiment_launcher/launcher.py:315 | after `del`, the key is absent and every other key is unaffected |
| Records.Dict.SetItem | experiment_launcher/launcher.py:268 | item assignment on the shared dict is `Update` of its old contents |
| Records.Dict.UpdateFrom | experiment_launcher/launcher.py:267 | `dict.update`, entry by entry in a loop, ends at `UpdateAll` of the old contents |
| Records.Dict.DelItem | experiment_launcher/launcher.py:315-316 | `del` removes the key, and reports whether the key was there (a missing key is the `KeyError`) |
| Launcher.Launcher.Run | experiment_launcher/launcher.py:96-102 | returns `RunSpec` of the state before the call (joblib calls, the test-mode preview, or the SLURM submission of the script as written); the experiment list is emptied on success and kept when the script cannot be generated; the default parameters are unchanged |
| Launcher.Launcher.RunJoblib | experiment_launcher/launcher.py:224-246 | test mode yields the preview; otherwise the calls are `ExpParams` of the function's defaults, the default parameters, the experiments and the seeds, `len(experiments) * n_exp` of them |
| Launcher.LocalCallCount | experiment_launcher/launcher.py:242-246 | a local run that is not a test makes `len(experiments) * n_exp` calls, with sequential or sampled seeds |
| Launcher.PreviewAt | experiment_launcher/launcher.py:238-241 | the test-mode preview has one line per experiment and seed index `0 .. n_exp-1`, experiment-major; each shows the experiment, the defaults, the index and the results directory without a seed level |
| Launcher.Launcher.GenerateExpParams | experiment_launcher/launcher.py:259-271 | the yielded snapshots are exactly `ExpParams` of the dict passed in |
| Launcher.YieldCalls | experiment_launcher/launcher.py:266-271 | the loop over the product yields, for each pair, the shared dict updated once more, so it returns `Snapshots` of the starting dict |
| Launcher.ApplyStep | experiment_launcher/launcher.py:267-269 | one iteration writes the experiment, then `seed`, then `results_dir` into the shared dict |
| Launcher.SnapshotAt | experiment_launcher/launcher.py:266-271 | call `t` sees the dict after the first `t` iterations, updated by the `t`-th pair |
| Launcher.ExpParamsCount | experiment_launcher/launcher.py:266 | a local run makes `len(experiments) * n_exp` calls |
| Launcher.ProductAt | experiment_launcher/launcher.py:266 | the product is experiment-major: position `i * len(seeds) + j` holds experiment `i` with seed `j` |
| Launcher.ProductMembers | experiment_launcher/launcher.py:266 | every pair of the product is one of the experiments with one of the seeds |
| Launcher.TaskParams | experiment_launcher/launcher.py:267-269 | each call has its pair's seed, the results directory of that experiment and seed, and every other entry of the experiment |
| Launcher.TaskDefaults | experiment_launcher/launcher.py:259-271 | a key no experiment sets has the default parameter's value in every call, or else the function's default (function defaults < default parameters < experiment entries) |
| Launcher.TaskCarried | experiment_launcher/launcher.py:259-271 | in the call for experiment `i` and seed `j`, a key experiment `i` does not set (other than `seed` and `results_dir`) holds the value of the last earlier experiment that sets it, else the default parameter, else the function's default; later experiments never contribute |
| Launcher.LastSetWhich | experiment_launcher/launcher.py:267 | when record `i` sets a key and no later record does, writing the records in order leaves record `i`'s value |
| Launcher.LastSetNone | experiment_launcher/launcher.py:267 | when no record sets a key, writing the records leaves its previous value |
| Launcher.FoldLookup | experiment_launcher/launcher.py:266-269 | apart from `seed` and `results_dir`, the shared dict after some iterations holds what the experiments last wrote into it |
| Launcher.KeyCarriesOver | experiment_launcher/launcher.py:259-271 | an instance of `TaskCarried`: `lr`, set by the first of two experiments and not by the second, reaches the second experiment's call |
| Launcher.TaskDir | experiment_launcher/launcher.py:269 | call `i * n_exp + j` writes to the directory of experiment `i` with seed `j`, seed level included |
| Launcher.TaskDirsDistinct | experiment_launcher/launcher.py:269 | two calls of one experiment with different seeds never share a results directory |
| Launcher.SeedsOfRun | experiment_launcher/launcher.py:262-265 | the seeds are `n_exp` distinct values: exactly `0 .. n_exp-1`, or with randomisation values in `[1, max_seeds)` |
| Launcher.SeedDrawPossible | experiment_launcher/launcher.py:84-87 | once `max_seeds > n_exp`, a draw of `n_exp` distinct seeds from `[1, max_seeds)` exists |
| Launcher.Launcher.RunSlurm | experiment_launcher/launcher.py:205-222 | the result is `SubmitSpec`: the script as written (`GenerateSlurmAsWritten`) at the script path and one command per experiment in list order, or the script's failure |
| Launcher.ScriptPathParts | experiment_launcher/launcher.py:197-198 | `ScriptPath`, the path `save_slurm` writes to, split at `/`, is the SLURM experiment directory's parts followed by the one name `slurm_<exp_name>.sh`, for an experiment name without `/` |
| Launcher.SbatchCommands | experiment_launcher/launcher.py:208-217 | the loop builds `Commands`, one `sbatch` command per experiment in order |
| Launcher.CommandAt | experiment_launcher/launcher.py:208-217 | command `i` is the `sbatch` command of experiment `i` |
| Launcher.SbatchWords | experiment_launcher/launcher.py:209-217 | the shell reads the command as `sbatch`, the script path, the results directory without a seed level, `str(n_exp)` and `str(joblib_n_jobs)`, then the experiment's flag words, then the default parameters' flag words (none when they are empty) |
| Launcher.DefaultsWords | experiment_launcher/launcher.py:210-213 | the default flags are appended after one space only when there are default parameters, and read as their words |
| Formatting.ToDuration | experiment_launcher/launcher.py:291-297 | `_to_duration`: the text starts with the unpadded day count and a dash, and the padded clock follows; `DurationRoundTrip` reads it back and `DurationShape` fixes its layout |
| Formatting.PadWidth | experiment_launcher/launcher.py:293-295 | a clock field in `0 .. 99` is two digits, and its first digit is `0` exactly when it is below ten |
| Formatting.DurationRoundTrip | experiment_launcher/launcher.py:291-297 | parsing `D-HH:MM:SS` gives back the days, hours, minutes and seconds it was made from |
| Formatting.DurationShape | experiment_launcher/launcher.py:293-297 | with clock fields below 100 the text is the unpadded day count, `-`, and eight characters with `:` at positions 3 and 6 after the dash |
| Formatting.DurationExamplesWide | experiment_launcher/launcher.py:291-297 | (1, 23, 59, 0) gives `1-23:59:00` and (0, 24, 0, 0) gives `0-24:00:00` |
| Formatting.DurationExamplesPadded | experiment_launcher/launcher.py:291-297 | (0, 5, 3, 0) gives `0-05:03:00` and (1, 0, 0, 0) gives `1-00:00:00` |
| Formatting.CommandLineRoundTrip | experiment_launcher/launcher.py:273-289 | for keys without spaces and one-word string values, an argument parser reads back from the flags exactly the record, in insertion order: True as a switch, False absent, every other value as an option carrying its `str()` |
| Formatting.CommandLineWords | experiment_launcher/launcher.py:276-287 | the shell splits the flags, and whatever follows them, into the record's flag words |
| Formatting.CommandLineEmpty | experiment_launcher/launcher.py:276-289 | the flags are empty exactly when every entry is False, so an empty record gives `""` |
| Formatting.CommandLineAppend | experiment_launcher/launcher.py:276-287 | the flags of two records in sequence are the two flag texts concatenated |
| Formatting.FlagNameDashes | experiment_launcher/launcher.py:277-280 | without `use_underscore_argparse` no flag name contains `_`; a key without underscores is unchanged |
| Formatting.ResultsDirSegments | experiment_launcher/launcher.py:248-257 | split on `/`, the results path is the base's parts, one `key_value` part per entry in insertion order, then `str(seed)` exactly when a seed is given |
| Formatting.ResultsDirBelow | experiment_launcher/launcher.py:248-257 | the results path starts with the base path, and equals it for an empty record without a seed |
| Formatting.SeedDirIsChild | experiment_launcher/launcher.py:254-255 | the seed's directory sits directly inside the record's directory |
| Formatting.SeedDirsDistinct | experiment_launcher/launcher.py:254-255 | different seeds of one record never share a directory |
| Slurm.ArrayCoversExperiments | experiment_launcher/launcher.py:120-170 | with the corrected array bound, the array tasks together run every seed `0 .. n_exp-1` exactly once, in increasing order |
| Slurm.ArrayAsWrittenRunsExtraTask | experiment_launcher/launcher.py:170 | as written, when `n_jobs` divides a positive `n_exp`, the tasks run seeds `0 .. n_exp + n_jobs - 1`: one block too many |
| Slurm.ArrayAsWrittenExample | experiment_launcher/launcher.py:170 | with two experiments and one job the header reads `0-2` instead of `0-1`, and seed 2 is run |
| Slurm.SeedsPerTask | experiment_launcher/launcher.py:148-158 | `JoblibSeedsArg` picks `$2` exactly when `n_exp < n_jobs` and `$3` exactly when `n_jobs` divides `n_exp` (the `NotImplementedError` branch is unreachable); the seed count every array task then runs (`SeedCount`, with the bash of lines 120-129 for `${JOBLIB_SEEDS}`) is at most `n_jobs`, at most `n_exp`, and at least one when there are experiments |
| Slurm.ArrayUpper | experiment_launcher/launcher.py:170 | the corrected bound agrees with `n_exp // n_jobs` whenever `n_jobs` does not divide a positive `n_exp` |
| Slurm.CondaHook | experiment_launcher/launcher.py:131-137 | the hook exists exactly when a conda installation was found, and is that installation's `bin/conda` |
| Slurm.CondaHookAsWrittenMisses | experiment_launcher/launcher.py:134-135 | as written, with only `anaconda3` installed the hook lies outside the directory the probe found |
| Slurm.OptionalDirectives | experiment_launcher/launcher.py:110-118 | the `-A`, `-p`, `--begin` and `--gres` directives each appear in the script template (`Script`, lines 160-190) exactly when their setting is neither None nor empty, once, with the setting's value |
| Slurm.ArrayDirective | experiment_launcher/launcher.py:169-170 | the script template (`Script`) has exactly one array directive, `0-<bound>` |
| Slurm.GenerateSlurm | experiment_launcher/launcher.py:104-191 | script generation fails exactly when a conda environment is named and neither `miniconda3` nor `anaconda3` exists |
| Slurm.GenerateSlurmAsWritten | experiment_launcher/launcher.py:104-191 | the script as written, the template `Script` with the bound `n_exp // n_jobs` and the as-written hook, fails exactly when `GenerateSlurm` does |
| Slurm.JoinLinesSplit | experiment_launcher/launcher.py:160-190 | the script text, split at newlines, gives back its lines |
| Worker.RunExperiment | experiment_launcher/launcher.py:310-327 | returns `RunExperimentResult` (the key reads and arithmetic of `Prelude`, then the generator): the parameter sets handed to the experiment, or the error raised (missing key, non-integer arithmetic, `Parallel`'s rejection of `joblib_n_jobs == 0` at line 326 before the generator runs, non-text `results_dir`), and leaves `args` as the source leaves it |
| Worker.GenerateJoblibSeeds | experiment_launcher/launcher.py:318-324 | the generator reads the seed count and `results_dir` only when first asked for an item, then yields one snapshot per seed |
| Worker.SeedLoop | experiment_launcher/launcher.py:321-324 | each iteration overwrites `seed` and `results_dir`, so the dict after seed `k` is the stripped arguments with seed `k` and its directory |
| Worker.RunExperimentFirstError | experiment_launcher/launcher.py:311-326 | the first error raised: a missing `joblib_n_jobs`, then a missing `joblib_n_seeds`, then a missing `seed`, then non-integer seed arithmetic, which fails before any key is deleted; with those in order, a job count of 0 fails in `Parallel` after the two deletes and before any seed is set |
| Worker.RunExperimentSucceeds | experiment_launcher/launcher.py:310-326 | a call succeeds exactly when the three keys are present with integer values, the job count is not 0, and `results_dir` is present, and is text unless there is no seed to run |
| Worker.RunExperimentTasks | experiment_launcher/launcher.py:310-326 | with seed `s`, `n != 0` jobs and `m` seeds the call yields `m` sets (none if `m <= 0`); set `j` has seed `s*n + j`, results directory `rd/str(s*n + j)`, no joblib keys, and every other argument as given |
| Worker.RunExperimentDirsDistinct | experiment_launcher/launcher.py:318-326 | with a job count other than 0, two parameter sets of one call never share a results directory |
| Text.NatRoundTrip | experiment_launcher/launcher.py:285 | `str()` of a non-negative integer parses back to that integer |
| Text.IntToStringInjective | experiment_launcher/launcher.py:255 | different integers have different `str()` |

## Left out

- The execution: joblib `Parallel`/`delayed` and `os.system`. The model
  returns what would be handed to them: parameter dicts or command strings.
  Their order of execution, and their concurrency, are not modelled. joblib
  is not part of this model. The one check of its that the model states is
  `Parallel` rejecting `n_jobs == 0` before it reads the generator. It
  takes negative job counts as CPU counts, so those run as usual.
- File and directory writes: `os.makedirs`, and the script file in
  `save_slurm`. Only the script path and the script text are modelled.
- The host probes (`$USER`, the scratch directory, the conda directories)
  and the clock. They are fields of `Config.Host`, and the timestamp is taken
  already formatted.
- `np.random.choice` is not modelled as a distribution. Any draw allowed by
  `SeedDraw` may be given.
- `import_module` and `get_default_params`: the function's defaults are a
  record argument.
- The exact test-mode print string built from Python's `str(dict)` repr.
  `PreviewLine` models what each line shows; printing and the repr rewriting
  are not modelled.
- `print`, `save_args` (GitPython, JSON, file writes) and
  `add_launcher_base_args` (argparse glue) are not part of this model.
- Integers are unbounded. numpy's 64-bit `arange` and the seed product do
  not overflow in the model.
- Config.LauncherArgs: `n_exp` is taken as a non-negative integer. A
  negative count makes an empty `range` in the source and is not modelled.
- Worker.RunExperiment: values are integers, booleans or strings. A boolean
  or a string in the seed arithmetic is treated as a type error, whereas
  Python would treat `True` as 1 and repeat a string. Floats and other
  values are not modelled.
- Text.Words, Formatting.CommandLineWords, Launcher.SbatchWords and
  Launcher.DefaultsWords split a command line only at spaces. The shell
  that `os.system` and the script's unquoted `${@:4}` use also splits at
  tabs and newlines, and it applies quoting, `$` expansions, globbing and
  operators such as `;`, `|` and `&`. None of these is modelled, and
  `WordSafe` does not exclude those characters.
- Formatting.CommandLineRoundTrip: the round trip is stated for keys
  without spaces and one-word string values. The source quotes nothing, so
  other values are split by the shell. The receiving parser `ParseArgs` is
  a minimal one, not argparse: it takes any word that does not start with
  `--` as an option's value. argparse would read a value such as `-x` as an
  option of its own.
- Formatting.ResultsDirSegments: stated for keys and values without `/`.
  `os.path.join`'s handling of absolute segments is not modelled.
- Worker.SeedLoop: requires `results_dir` to be in the dict, which
  `GenerateJoblibSeeds` has just read. Direct calls without it are not
  modelled.
- Worker.GenerateJoblibSeeds: joblib consumes the generator lazily, and
  calls already made before an error are not modelled. The result is the
  list of sets, or the error alone.

## Findings

| source | as written | input that shows it | evidently intended | confidence | as-written member | corrected member |
|---|---|---|---|---|---|---|
| experiment_launcher/launcher.py:170 | the array header is `0-{n_exp // joblib_n_jobs}`, which has `n_exp // n_jobs + 1` tasks | `n_exp = 2`, `joblib_n_jobs = 1`: header `0-2`, and task 2 runs seed 2, which is no experiment | `ceil(n_exp / n_jobs)` tasks, i.e. upper bound `(n_exp - 1) // n_jobs` | not executed | Slurm.ArrayAsWrittenRunsExtraTask | Slurm.ArrayCoversExperiments |
| experiment_launcher/launcher.py:134-135 | the probe checks `/home/U/anaconda3`, but the hook evaluates `/home/U/anaconda/bin/conda` | no `miniconda3`, `anaconda3` present: the script calls a conda binary in a directory that was not found | `/home/U/anaconda3/bin/conda` | not executed | Slurm.CondaHookAsWrittenMisses | Slurm.CondaHook |
