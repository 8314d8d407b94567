# docker-workflow: `withDockerContainer` and `dockerFingerprintFrom` in Dafny

This project models two pipeline steps of the Docker Pipeline plugin for Jenkins.

- **`withDockerContainer`** (`WithContainerStep`) starts a container that idles on `cat`. It then runs
  the step body with every process launch rewritten into a `docker exec` into that container. It
  stops the container when the body is over. The model covers:
  - the engine-version gate and the two capability flags (`exec --env` from 1.13.0,
    `exec --workdir` from 17.12);
  - the environment reduction for `docker run`;
  - volume resolution, including the case of an agent that itself runs in a container;
  - the `docker exec` prefix that the launcher decorator builds, and the redaction-mask shift;
  - the exec-time environment reduction;
  - the process-kill selection over a `ps` listing;
  - the `stop` and body-callback teardown.
- **`dockerFingerprintFrom`** (`FromFingerprintStep`) scans a Dockerfile for its last `FROM` line.
  It aborts when there is none, expands build arguments, and records the parent and descendant
  image ids. `scratch` is treated as the empty base.

Modules follow the program's structure:

| file | module | models |
|---|---|---|
| `wrappers.dfy` | `Wrappers` | `Option` and `Result` |
| `java_strings.dfy` | `JavaStrings` | the `String` operations the code relies on: `startsWith`, `contains`, `trim`, `indexOf`, `split("\n")`, `compareTo` |
| `sorted_strings.dfy` | `SortedStrings` | `TreeSet<String>` as a strictly sorted sequence |
| `docker_version.dfy` | `DockerVersion` | `VersionNumber` comparison, the version gate, the capabilities |
| `env_reduction.dfy` | `EnvReduction` | the run-time and exec-time environment reductions |
| `volumes.dfy` | `Volumes` | bind mounts versus `--volumes-from` |
| `exec_decorator.dfy` | `ExecDecorator` | the decorator, `launch`, and a reader of the `docker exec` line it produces |
| `process_kill.dfy` | `ProcessKill` | the decorator's `kill` |
| `container_session.dfy` | `ContainerSession` | `Execution.start`, `stop`, `Callback.finished` |
| `from_fingerprint.dfy` | `FromFingerprint` | `FromFingerprintStep.Execution.run` |

The Docker engine and the Jenkins context are not called. Their answers are parameters, and each
engine call in the list below is an answer that may be an error (the failures that are not
modelled are listed under "Left out"):
- the version, or none when it cannot be parsed;
- the id of the container the agent itself runs in, if any, and that container's volumes;
- the user;
- the result of `docker run`;
- the process listing;
- the fetching of the container record;
- the `ps` exit status and output;
- the `kill` exit status;
- `docker inspect` as a function from image to id or error.

The docker executable that `DockerTool.getExecutable` resolves is the parameter `exe`.

Some notes on how the code is read:
- `VersionNumber` is modelled as a sequence of naturals compared with zero padding, so `1.13` and
  `1.13.0` are the same version.
- A `TreeSet<String>` is a strictly sorted sequence under Java's lexicographic order, in which a
  proper prefix comes first.
- `split("\n")` drops trailing empty pieces and returns the whole string when it has no newline.

The exec-time reduction (`WithContainerStep.java:270-279`) removes only the host's own lines and
lines starting with `PATH=`. A line for the empty key survives it, unlike at start, where the empty
key is removed (`WithContainerStep.java:142`). The model follows the code.

`start` has no cleanup of its own. When `docker run` returns a container id
(`WithContainerStep.java:193`) and then the process listing (194) or the container-record fetch
(203) fails, the id is recorded, but no body and no callback are registered (205-208). Body
completion therefore never stops that container, and only an explicit `stop` of the execution can
still reach it. The model keeps this behaviour (`FailedStartStopsNothingOnCompletion`), just as it
keeps the double stop when a stop request precedes body completion
(`StopThenCompletionStopsTwice`).

## Model

| member | source | states |
|---|---|---|
| DockerVersion.Compare | src/main/java/org/jenkinsci/plugins/docker/workflow/WithContainerStep.java:242-243 | the version comparison is a sign, -1, 0 or 1; its meaning is fixed by the two lemmas below |
| DockerVersion.CompareNegativeIffLowerAtFirstDifference | src/main/java/org/jenkinsci/plugins/docker/workflow/WithContainerStep.java:152-154 | a version is older exactly when, at the first component where the two differ after zero padding, its component is smaller |
| DockerVersion.CompareZeroIffSameParts | src/main/java/org/jenkinsci/plugins/docker/workflow/WithContainerStep.java:242-243 | two versions compare equal exactly when every zero-padded component agrees, so `1.13` equals `1.13.0` |
| DockerVersion.CompareAntisymmetric | src/main/java/org/jenkinsci/plugins/docker/workflow/WithContainerStep.java:242-243 | swapping the operands of the version comparison negates it |
| DockerVersion.CompareTransitive | src/main/java/org/jenkinsci/plugins/docker/workflow/WithContainerStep.java:242-243 | the version order is transitive |
| DockerVersion.OlderThanUpward | src/main/java/org/jenkinsci/plugins/docker/workflow/WithContainerStep.java:152-154 | a version older than one threshold is older than every higher threshold, so below 1.7 implies below 1.8 |
| DockerVersion.CheckVersion | src/main/java/org/jenkinsci/plugins/docker/workflow/WithContainerStep.java:150-159 | the step aborts exactly for a parsed version older than 1.7; it proceeds without a warning exactly for a parsed version of at least 1.8 |
| DockerVersion.GateMonotone | src/main/java/org/jenkinsci/plugins/docker/workflow/WithContainerStep.java:150-159 | a newer engine passes the gate whenever an older one does, and passes silently whenever an older one does |
| DockerVersion.CapabilitiesNested | src/main/java/org/jenkinsci/plugins/docker/workflow/WithContainerStep.java:242-243 | `hasWorkdir` implies `hasEnv`; `hasEnv` implies the gate passed without a warning |
| EnvReduction.ReduceForRun | src/main/java/org/jenkinsci/plugins/docker/workflow/WithContainerStep.java:136-142 | the run environment never holds `PATH` or the empty key; it keeps only entries that differ from the host, with the requested value; overlaying it on the host gives back every requested entry except `PATH` and the empty key |
| EnvReduction.ReduceForRunOfHost | src/main/java/org/jenkinsci/plugins/docker/workflow/WithContainerStep.java:136-138 | requesting exactly the host's environment forwards nothing |
| EnvReduction.ReduceForExec | src/main/java/org/jenkinsci/plugins/docker/workflow/WithContainerStep.java:270-279 | the exec environment is sorted without repeats; it holds exactly the requested lines that the host lacks and that do not start with `PATH=` |
| EnvReduction.ReduceForExecCanonical | src/main/java/org/jenkinsci/plugins/docker/workflow/WithContainerStep.java:270 | any sorted, repeat-free sequence with those members is the exec environment, so request order and duplicates do not matter |
| EnvReduction.ReduceForExecOfHost | src/main/java/org/jenkinsci/plugins/docker/workflow/WithContainerStep.java:271 | a request made only of host lines forwards nothing |
| SortedStrings.Insert | src/main/java/org/jenkinsci/plugins/docker/workflow/WithContainerStep.java:270 | adding to a sorted set keeps it sorted and adds exactly the new element |
| SortedStrings.TreeSetOf | src/main/java/org/jenkinsci/plugins/docker/workflow/WithContainerStep.java:270 | `new TreeSet(list)` is sorted and has exactly the list's members |
| SortedStrings.Filter | src/main/java/org/jenkinsci/plugins/docker/workflow/WithContainerStep.java:271-279 | removal keeps exactly the members that pass and preserves sortedness |
| SortedStrings.SortedUnique | src/main/java/org/jenkinsci/plugins/docker/workflow/WithContainerStep.java:270 | two sorted repeat-free sequences with the same members are equal |
| Volumes.FindCovering | src/main/java/org/jenkinsci/plugins/docker/workflow/WithContainerStep.java:172-181 | the volume loop reports a hit exactly when some volume path is a prefix of the directory |
| Volumes.Resolve | src/main/java/org/jenkinsci/plugins/docker/workflow/WithContainerStep.java:165-191 | the workspace and temp directory are each bind-mounted onto themselves exactly when no outer volume covers them; at most two binds, workspace first, none twice; the outer container is inherited exactly when it covers one of them |
| ExecDecorator.NewDecorator | src/main/java/org/jenkinsci/plugins/docker/workflow/WithContainerStep.java:237-244 | the decorator holds exactly the host's `K=V` lines; `hasEnv` and `hasWorkdir` are the 1.13.0 and 17.12 thresholds, and `hasWorkdir` implies `hasEnv` |
| ExecDecorator.EnvFlags | src/main/java/org/jenkinsci/plugins/docker/workflow/WithContainerStep.java:282-285 | each exec entry becomes `--env` followed by the entry, in order |
| ExecDecorator.ExecPrefix | src/main/java/org/jenkinsci/plugins/docker/workflow/WithContainerStep.java:255-291 | the prefix starts with the executable and `exec`, then the workdir pair when one is passed; with `exec --env` it ends with one `--env e` pair per entry followed by the container; without it, it ends with the container, `env` and the entries; its length counts two words per entry in the first shape and one in the second |
| ExecDecorator.ShiftMask | src/main/java/org/jenkinsci/plugins/docker/workflow/WithContainerStep.java:295-298 | the new leading positions are unmasked and the old mask moves to the tail |
| ExecDecorator.Prepend | src/main/java/org/jenkinsci/plugins/docker/workflow/WithContainerStep.java:294-299 | the prefix goes in front of the untouched command, and the mask is shifted by the prefix length |
| ExecDecorator.Launch | src/main/java/org/jenkinsci/plugins/docker/workflow/WithContainerStep.java:248-300 | only the command line and mask change; the original command is the tail after a prefix whose length follows the capabilities; the prefix starts with the executable, `exec` and the workdir pair when one is passed, and is exactly the exec prefix for the reduced environment, so it holds one `--env e` pair per entry then the container when the engine supports `exec --env`, and otherwise the container, `env` and the entries; a given mask grows by the prefix length, is unmasked over the prefix and holds the old mask over the original command; a warning is given exactly when a different directory is asked of an engine without `--workdir` |
| ExecDecorator.PrependKeepsMaskAligned | src/main/java/org/jenkinsci/plugins/docker/workflow/WithContainerStep.java:295-298 | a redacted word of the prefixed command is an original word that the original mask redacted |
| ExecDecorator.MaskStaysAligned | src/main/java/org/jenkinsci/plugins/docker/workflow/WithContainerStep.java:294-299 | after launch, the mask never redacts a word the decorator added; a redacted word is an original word that was redacted before, and every word redacted before is still redacted |
| ExecDecorator.PrefixDecodes | src/main/java/org/jenkinsci/plugins/docker/workflow/WithContainerStep.java:255-291 | reading the prefixed command back gives the executable, the effective workdir, the entries, the container and the command, in either shape |
| ExecDecorator.LaunchDecodes | src/main/java/org/jenkinsci/plugins/docker/workflow/WithContainerStep.java:248-294 | round trip: the launched command reads back as a `docker exec` of the original command in the container, with the effective workdir and the reduced environment |
| ExecDecorator.PrefixShapesAgree | src/main/java/org/jenkinsci/plugins/docker/workflow/WithContainerStep.java:281-291 | the `--env` shape and the `env` wrapper shape ask the engine for the same execution |
| ProcessKill.PidOf | src/main/java/org/jenkinsci/plugins/docker/workflow/WithContainerStep.java:316-321 | a line has no pid exactly when its trimmed form has no space; otherwise the pid is the non-empty, space-free word before the first space |
| ProcessKill.SelectPidsSound | src/main/java/org/jenkinsci/plugins/docker/workflow/WithContainerStep.java:309-322 | every killed pid is the pid column of a listing line that holds every `K=V` |
| ProcessKill.SelectPidsComplete | src/main/java/org/jenkinsci/plugins/docker/workflow/WithContainerStep.java:309-322 | every listing line that holds every `K=V` and has a pid column has its pid killed |
| ProcessKill.SelectPidsExact | src/main/java/org/jenkinsci/plugins/docker/workflow/WithContainerStep.java:309-322 | every killed pid comes from a line holding every `K=V` and having a pid column; every such line's pid is killed |
| ProcessKill.SelectPidsAppend | src/main/java/org/jenkinsci/plugins/docker/workflow/WithContainerStep.java:309-322 | the kill set follows listing order: that of a concatenated listing is the concatenation |
| ProcessKill.EmptyLinesSelectNothing | src/main/java/org/jenkinsci/plugins/docker/workflow/WithContainerStep.java:316-319 | empty listing lines contribute no pid |
| ProcessKill.JavaSplitSelectsSame | src/main/java/org/jenkinsci/plugins/docker/workflow/WithContainerStep.java:309 | Java's `split("\n")` selects the same pids as cutting at every newline |
| ProcessKill.MatchesAll | src/main/java/org/jenkinsci/plugins/docker/workflow/WithContainerStep.java:310-315 | the entry loop accepts a line exactly when it contains every `K=V` |
| ProcessKill.CollectPids | src/main/java/org/jenkinsci/plugins/docker/workflow/WithContainerStep.java:309-322 | the listing loop computes exactly the kill set |
| ProcessKill.Kill | src/main/java/org/jenkinsci/plugins/docker/workflow/WithContainerStep.java:302-331 | `ps` runs first; its failure gives "failed to run ps"; one `kill` of the selected pids follows exactly when there are some, and its failure gives "failed to run kill" |
| ContainerSession.OuterOf | src/main/java/org/jenkinsci/plugins/docker/workflow/WithContainerStep.java:167-170 | an agent outside any container has no outer container; inside one, the outer container is its id with its volumes; a failure of either lookup is the error |
| ContainerSession.PrepareRun | src/main/java/org/jenkinsci/plugins/docker/workflow/WithContainerStep.java:165-193 | the `docker run` request carries the step's image and arguments, the workspace as working directory, the reduced environment, the user `whoAmI` answered, `cat`, and the binds and volumes-from that volume resolution gives |
| ContainerSession.Start | src/main/java/org/jenkinsci/plugins/docker/workflow/WithContainerStep.java:127-210 | too old an engine, or a failing lookup of the outer container, its volumes or the user, ends the step before any container exists; otherwise exactly one `docker run` of `cat` with the reduced environment and resolved volumes; the id is recorded exactly when `docker run` returns one; a failing `docker run`, process listing or container-record fetch ends the step with its error; only when all succeed does the body get a decorator and callback for that container; the warnings are the gate's alone until the processes are listed, and from then on the gate's plus the entrypoint one when `cat` is missing |
| ContainerSession.OnStop | src/main/java/org/jenkinsci/plugins/docker/workflow/WithContainerStep.java:217-223 | `stop` stops at most one container, the recorded one, and none when none was recorded |
| ContainerSession.Teardown | src/main/java/org/jenkinsci/plugins/docker/workflow/WithContainerStep.java:217-223 | each stop request or body completion issues at most one `docker stop` |
| ContainerSession.TeardownStopsOnlyRecorded | src/main/java/org/jenkinsci/plugins/docker/workflow/WithContainerStep.java:217-223 | stop requests and body completion only ever stop the recorded container, and stop nothing when none was recorded |
| ContainerSession.BodyCompletionStopsOnce | src/main/java/org/jenkinsci/plugins/docker/workflow/WithContainerStep.java:355-357 | however the body ends, its completion stops the container once |
| ContainerSession.StopThenCompletionStopsTwice | src/main/java/org/jenkinsci/plugins/docker/workflow/WithContainerStep.java:217-223 | a stop request followed by body completion issues two stops of the same container |
| ContainerSession.FailedStartStopsNothingOnCompletion | src/main/java/org/jenkinsci/plugins/docker/workflow/WithContainerStep.java:193-208 | when a container was started but the process listing or record fetch then failed, no body completion ever stops it |
| JavaStrings.Trim | src/main/java/org/jenkinsci/plugins/docker/workflow/WithContainerStep.java:316 | a trimmed line is the block of the line that follows its leading blanks; everything after that block is blank, and the block neither starts nor ends with a character at or below space |
| JavaStrings.TrimIdempotent | src/main/java/org/jenkinsci/plugins/docker/workflow/WithContainerStep.java:316 | trimming twice is trimming once |
| JavaStrings.IndexOf | src/main/java/org/jenkinsci/plugins/docker/workflow/WithContainerStep.java:317 | -1 exactly when the character is absent; otherwise its first position |
| JavaStrings.JavaSplit | src/main/java/org/jenkinsci/plugins/docker/workflow/WithContainerStep.java:309 | a text without a newline comes back whole; otherwise the pieces cut at every newline, short of the empty trailing ones, and the last piece kept is non-empty |
| JavaStrings.SplitAllJoin | src/main/java/org/jenkinsci/plugins/docker/workflow/WithContainerStep.java:309 | joining the pieces cut at every separator gives back the text |
| JavaStrings.LessTransitive | src/main/java/org/jenkinsci/plugins/docker/workflow/WithContainerStep.java:270 | the string order that the sorted set uses is transitive |
| JavaStrings.LessTotal | src/main/java/org/jenkinsci/plugins/docker/workflow/WithContainerStep.java:270 | any two distinct strings are ordered one way or the other |
| FromFingerprint.CommentIsNotFrom | src/main/java/org/jenkinsci/plugins/docker/workflow/FromFingerprintStep.java:121-125 | a comment line is never taken as a `FROM` line |
| FromFingerprint.LastFromWins | src/main/java/org/jenkinsci/plugins/docker/workflow/FromFingerprintStep.java:119-128 | the last `FROM` line names the base image, whatever came before it |
| FromFingerprint.BaseImageStep | src/main/java/org/jenkinsci/plugins/docker/workflow/FromFingerprintStep.java:119-128 | one more line either names a new base image or leaves it as it was |
| FromFingerprint.BaseImageNoneIff | src/main/java/org/jenkinsci/plugins/docker/workflow/FromFingerprintStep.java:119-136 | a Dockerfile has no base image exactly when no trimmed line starts with `FROM ` |
| FromFingerprint.ScanLine | src/main/java/org/jenkinsci/plugins/docker/workflow/FromFingerprintStep.java:120-127 | a trimmed `FROM ` line replaces the image with the rest of the line; any other line, comments included, keeps it |
| FromFingerprint.ScanFrom | src/main/java/org/jenkinsci/plugins/docker/workflow/FromFingerprintStep.java:112-134 | the scan yields the base image of the last `FROM` line, and nothing exactly when no trimmed line starts with `FROM ` |
| FromFingerprint.ExpandBuildArgs | src/main/java/org/jenkinsci/plugins/docker/workflow/FromFingerprintStep.java:138-141 | without build arguments the image is left as written |
| FromFingerprint.RecordFrom | src/main/java/org/jenkinsci/plugins/docker/workflow/FromFingerprintStep.java:142-149 | the built image is inspected first; `scratch` gets no parent id, no parent inspection and no image action; any other base is inspected, recorded as parent and added as the image action |
| FromFingerprint.Fingerprint | src/main/java/org/jenkinsci/plugins/docker/workflow/FromFingerprintStep.java:135-149 | without a `FROM` line the step aborts with "could not find FROM instruction in" and the file, before asking the engine anything; otherwise the expanded base image is recorded |

## Left out

- The Docker client, Jenkins context and logging are not modelled. Engine answers are inputs, the
  ones listed above possibly errors, and logger lines are dropped, except the warnings the step reports to
  the build log.
- `workspace.mkdirs()`, the temp-directory naming (`tempDir`) and what start records about the
  build are not modelled. The recording covers the run facet built from the container record
  (`DockerFingerprints.addRunFacet`) and `ImageAction.add`. These are side effects on Jenkins state
  that the rest of the step does not read. Only the failure of fetching the container record is
  modelled.
- `VersionNumber` parsing (qualifiers such as `-ce`) is not modelled. A version is given already
  parsed, or as absent.
- EnvReduction.ReduceForRun: compares keys case-sensitively, where the source never does. Jenkins'
  `EnvVars` is case-insensitive and case-preserving on every platform. So `remove("PATH")` also
  drops `Path` or `path`, and the host entries are removed whatever the case of their keys. That
  class is not part of this model.
- ExecDecorator.NewDecorator: `Util.mapToEnv` is modelled as the set of the host's `K=V` lines.
  The order of the array is dropped, because the exec-time reduction only tests membership in it.
  `getExecutable`, which rebuilds the host environment from these lines to find the docker
  executable, is the parameter `exe`.
- Reading the Dockerfile (ISO-8859-1 decoding, `readLine` line breaks) is not modelled. The step
  receives the file as its lines.
- Decoding the `ps` output with the platform charset is not modelled. The output is a string.
- Client timeouts (`joinWithTimeout`) are not modelled. They appear only as a non-zero exit status.
- `RunFingerprintStep`, `ServerEndpointStep`, the step descriptors, data-bound setters and Java
  serialization are not part of this model.
- JavaStrings.Less: orders `char` values as Dafny does, not by UTF-16 code units. This matters only
  for characters outside the Basic Multilingual Plane.
- FromFingerprint.ExpandBuildArgs: `Util.replaceMacro` is a parameter, so with build arguments
  nothing is stated beyond passing them on.
- ContainerSession.Start: states the binds by membership only. Their order is stated by
  `Volumes.Resolve`, which Start calls.
- ContainerSession.OnStop: a failing `docker stop` is not modelled. The member gives the stop calls
  issued, not their outcome.
- ContainerSession.Teardown: likewise records the stop calls issued, not whether they succeed.
- ContainerSession.Start: a failing `workspace.mkdirs()` (before the version check) or
  `tempDir.mkdirs()` (after it) is not modelled. Either would end the step with its error.
- ExecDecorator.Launch: a failing lookup of the docker executable (`getExecutable`, which can throw)
  is not modelled. The executable is the parameter `exe`, so launching always yields a command line.
- ProcessKill.Kill: likewise, a failing lookup of the docker executable before `ps` is not modelled.
- ExecDecorator.LaunchDecodes: the round trip holds under its preconditions:
  - the container id is neither `--env` nor `--workdir`;
  - the command does not start with `env`;
  - without `exec --env`, every entry contains `=` and the command's first word does not.

  Outside those conditions the engine's reading of the command line is ambiguous, and the model
  does not claim it.
