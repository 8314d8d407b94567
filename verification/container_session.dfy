/** The `withDockerContainer` step: start a container that idles on `cat`,
    run the body with every launch routed into it by the exec decorator, and
    stop the container when the body is over. */
module ContainerSession {
  import opened Wrappers
  import opened DockerVersion
  import opened EnvReduction
  import opened Volumes
  import opened ExecDecorator

  /** The step's arguments: the image, extra `docker run` arguments and the
      docker tool installation name. */
  datatype StepConfig = StepConfig(image: string, args: Option<string>, toolName: Option<string>)

  /** What the step reads from its context: the build's environment, the
      agent's own environment, the workspace and its temp directory. */
  datatype StepInputs = StepInputs(env: EnvMap, host: EnvMap, ws: string, tmp: string)

  /** The engine's answers during start, each of which may fail with an
      error message: its version (absent when it could not be parsed), the
      id of the container the agent itself runs in (if any) and that
      container's volume paths, the user to run as, the outcome of
      `docker run` (a container id), the listing of the new container's
      processes, and the fetching of the container record for the build's
      fingerprint (`recordError` is its failure, if any). */
  datatype EngineAnswers = EngineAnswers(
    version: Option<Version>,
    containerized: Result<Option<string>, string>,
    volumes: Result<seq<string>, string>,
    user: Result<string, string>,
    runResult: Result<string, string>,
    processes: Result<seq<string>, string>,
    recordError: Option<string>)

  /** The outer container as the step finds it: no container when the agent
      is not containerized, and the volumes are asked for only when it is. */
  function OuterOf(engine: EngineAnswers): (r: Result<Option<OuterContainer>, string>)
    ensures engine.containerized.Err? ==> r == Err(engine.containerized.error)
    ensures engine.containerized == Ok(None) ==> r == Ok(None)
    ensures engine.containerized.Ok? && engine.containerized.value.Some? ==>
      r == (if engine.volumes.Err? then Err(engine.volumes.error)
            else Ok(Some(OuterContainer(engine.containerized.value.value, engine.volumes.value))))
  {
    match engine.containerized
    case Err(e) => Err(e)
    case Ok(None) => Ok(None)
    case Ok(Some(id)) =>
      match engine.volumes
      case Err(e) => Err(e)
      case Ok(vols) => Ok(Some(OuterContainer(id, vols)))
  }

  /** The arguments of the single `docker run`. */
  datatype RunRequest = RunRequest(
    image: string,
    args: Option<string>,
    workdir: string,
    binds: seq<Mount>,
    volumesFrom: seq<string>,
    env: EnvMap,
    user: string,
    command: string)

  /** The body callback, frozen with the container it must stop. */
  datatype Callback = Callback(container: string, toolName: Option<string>)

  /** The persisted state of the step execution; `container` is recorded as
      soon as `docker run` returns. */
  datatype Execution = Execution(container: Option<string>, toolName: Option<string>)

  /** What the body is started with. */
  datatype Body = Body(decorator: Decorator, callback: Callback)

  datatype StartOutcome = StartOutcome(
    execution: Execution,
    warnings: seq<string>,
    run: Option<RunRequest>,
    result: Result<Body, string>)

  /** The command the container idles on until it is stopped. */
  const IdleCommand := "cat"

  const EntrypointWarning := "The container started but didn't run the expected command. Please double check your ENTRYPOINT does execute the command passed as docker run argument, as required by official docker images (see https://github.com/docker-library/official-images#consistency for entrypoint consistency requirements).\nAlternatively you can force image entrypoint to be disabled by adding option `--entrypoint=''`."

  /** A started body stops the very container the execution recorded, and
      its launches go to that container. */
  predicate WellFormed(out: StartOutcome)
  {
    out.result.Ok? ==>
      && out.execution.container == Some(out.result.value.callback.container)
      && out.result.value.decorator.container == out.result.value.callback.container
  }

  function VersionWarnings(g: Gate): seq<string>
  {
    if g.Proceed? && g.warning.Some? then [g.warning.value] else []
  }

  /** The `docker run` the step issues once the engine has answered: the
      step's image and arguments, the workspace as working directory, the
      reduced environment, the resolved volumes, the user, and `cat`. */
  predicate RunMatches(run: RunRequest, config: StepConfig, inputs: StepInputs, engine: EngineAnswers)
    requires OuterOf(engine).Ok? && engine.user.Ok?
  {
    var outer := OuterOf(engine).value;
    && run.image == config.image && run.args == config.args && run.workdir == inputs.ws
    && run.user == engine.user.value && run.command == IdleCommand
    && run.env == ReduceForRun(inputs.env, inputs.host)
    && (Mount(inputs.ws, inputs.ws) in run.binds <==> NeedsBind(inputs.ws, outer))
    && (Mount(inputs.tmp, inputs.tmp) in run.binds <==> NeedsBind(inputs.tmp, outer))
    && (forall m :: m in run.binds ==> m.hostPath == m.containerPath)
    && (outer.None? ==> run.volumesFrom == [])
    && (outer.Some? ==>
          run.volumesFrom == (if Covered(inputs.ws, outer.value.volumes) || Covered(inputs.tmp, outer.value.volumes)
                              then [outer.value.id] else []))
  }

  /** The `docker run` request for the resolved outer container and the
      user `whoAmI` answered. */
  method PrepareRun(config: StepConfig, inputs: StepInputs, outer: Option<OuterContainer>, user: string)
    returns (run: RunRequest)
    ensures run.image == config.image && run.args == config.args && run.workdir == inputs.ws
    ensures run.user == user
    ensures run.command == IdleCommand && run.env == ReduceForRun(inputs.env, inputs.host)
    ensures Mount(inputs.ws, inputs.ws) in run.binds <==> NeedsBind(inputs.ws, outer)
    ensures Mount(inputs.tmp, inputs.tmp) in run.binds <==> NeedsBind(inputs.tmp, outer)
    ensures forall m :: m in run.binds ==> m.hostPath == m.containerPath
    ensures outer.None? ==> run.volumesFrom == []
    ensures outer.Some? ==>
      run.volumesFrom == (if Covered(inputs.ws, outer.value.volumes) || Covered(inputs.tmp, outer.value.volumes)
                          then [outer.value.id] else [])
  {
    var volumes := Resolve(inputs.ws, inputs.tmp, outer);
    run := RunRequest(config.image, config.args, inputs.ws, volumes.binds, volumes.volumesFrom,
                      ReduceForRun(inputs.env, inputs.host), user, IdleCommand);
  }

  /** `Execution.start()` */
  method Start(config: StepConfig, inputs: StepInputs, engine: EngineAnswers) returns (out: StartOutcome)
    ensures WellFormed(out)
    ensures out.execution.toolName == config.toolName
    // an engine older than 1.7 aborts before any container exists
    ensures CheckVersion(engine.version).Abort? ==>
      out == StartOutcome(Execution(None, config.toolName), [], None, Err(CheckVersion(engine.version).message))
    // so does a failure to find the outer container, its volumes or the user
    ensures CheckVersion(engine.version).Proceed? && OuterOf(engine).Err? ==>
      out == StartOutcome(Execution(None, config.toolName), VersionWarnings(CheckVersion(engine.version)),
                          None, Err(OuterOf(engine).error))
    ensures CheckVersion(engine.version).Proceed? && OuterOf(engine).Ok? && engine.user.Err? ==>
      out == StartOutcome(Execution(None, config.toolName), VersionWarnings(CheckVersion(engine.version)),
                          None, Err(engine.user.error))
    // otherwise exactly one `docker run` of `cat`, with the reduced environment and resolved volumes
    ensures out.run.Some? <==>
      CheckVersion(engine.version).Proceed? && OuterOf(engine).Ok? && engine.user.Ok?
    ensures out.run.Some? ==> RunMatches(out.run.value, config, inputs, engine)
    // the container id is recorded exactly when `docker run` returned one
    ensures out.execution.container.Some? <==> out.run.Some? && engine.runResult.Ok?
    ensures out.execution.container.Some? ==> out.execution.container.value == engine.runResult.value
    // failures of `docker run`, of the process listing and of the record fetch end the step
    ensures out.run.Some? && engine.runResult.Err? ==> out.result == Err(engine.runResult.error)
    ensures out.run.Some? && engine.runResult.Ok? && engine.processes.Err? ==>
      out.result == Err(engine.processes.error)
    ensures out.run.Some? && engine.runResult.Ok? && engine.processes.Ok? && engine.recordError.Some? ==>
      out.result == Err(engine.recordError.value)
    // before the processes are listed, only the gate's warnings have been emitted
    ensures out.run.Some? && (engine.runResult.Err? || engine.processes.Err?) ==>
      out.warnings == VersionWarnings(CheckVersion(engine.version))
    // the entrypoint check happens as soon as the processes are listed
    ensures out.run.Some? && engine.runResult.Ok? && engine.processes.Ok? ==>
      out.warnings == VersionWarnings(CheckVersion(engine.version))
                      + (if IdleCommand in engine.processes.value then [] else [EntrypointWarning])
    // on success the body gets a decorator and a callback for the new container
    ensures out.result.Ok? <==>
      out.run.Some? && engine.runResult.Ok? && engine.processes.Ok? && engine.recordError.None?
    ensures out.result.Ok? ==>
      && out.result.value.decorator == NewDecorator(engine.runResult.value, inputs.host, inputs.ws, config.toolName, engine.version)
      && out.result.value.callback == Callback(engine.runResult.value, config.toolName)
  {
    var execution := Execution(None, config.toolName);
    var gate := CheckVersion(engine.version);
    if gate.Abort? {
      return StartOutcome(execution, [], None, Err(gate.message));
    }
    var warnings := VersionWarnings(gate);
    var outer := OuterOf(engine);
    if outer.Err? {
      return StartOutcome(execution, warnings, None, Err(outer.error));
    }
    if engine.user.Err? {
      return StartOutcome(execution, warnings, None, Err(engine.user.error));
    }
    var run := PrepareRun(config, inputs, outer.value, engine.user.value);
    if engine.runResult.Err? {
      return StartOutcome(execution, warnings, Some(run), Err(engine.runResult.error));
    }
    var container := engine.runResult.value;
    execution := execution.(container := Some(container));
    if engine.processes.Err? {
      return StartOutcome(execution, warnings, Some(run), Err(engine.processes.error));
    }
    if IdleCommand !in engine.processes.value {
      warnings := warnings + [EntrypointWarning];
    }
    if engine.recordError.Some? {
      return StartOutcome(execution, warnings, Some(run), Err(engine.recordError.value));
    }
    var decorator := NewDecorator(container, inputs.host, inputs.ws, config.toolName, engine.version);
    out := StartOutcome(execution, warnings, Some(run), Ok(Body(decorator, Callback(container, config.toolName))));
  }

  /** `Execution.stop(cause)`: the ids handed to `docker stop`. */
  function OnStop(e: Execution): (stops: seq<string>)
    ensures |stops| <= 1
    ensures forall c :: c in stops <==> e.container == Some(c)
  {
    match e.container
    case None => []
    case Some(c) => [c]
  }

  /** How the body ended; the tail-call callback treats every outcome alike. */
  datatype BodyOutcome = Completed | Failed(cause: string) | Cancelled(cause: string)

  /** `Callback.finished`: the ids handed to `docker stop`. */
  function OnBodyFinished(cb: Callback, outcome: BodyOutcome): seq<string>
  {
    [cb.container]
  }

  /** What happens to the execution after `start` returned. */
  datatype Event = StopRequested(cause: string) | BodyFinished(outcome: BodyOutcome)

  /** The `docker stop` calls issued over a run of events. A body exists only
      after a successful start, so without one a finished body stops nothing. */
  function Teardown(start: StartOutcome, events: seq<Event>): (stops: seq<string>)
    ensures |stops| <= |events|
  {
    if |events| == 0 then []
    else
      var now := match events[0]
        case StopRequested(_) => OnStop(start.execution)
        case BodyFinished(o) => if start.result.Ok? then OnBodyFinished(start.result.value.callback, o) else [];
      now + Teardown(start, events[1..])
  }

  /** Teardown only ever stops the container the execution recorded, and
      stops nothing when `docker run` never returned a container. */
  lemma {:induction false} TeardownStopsOnlyRecorded(start: StartOutcome, events: seq<Event>)
    requires WellFormed(start)
    ensures forall c :: c in Teardown(start, events) ==> start.execution.container == Some(c)
    ensures start.execution.container.None? ==> Teardown(start, events) == []
  {
    if |events| > 0 {
      TeardownStopsOnlyRecorded(start, events[1..]);
    }
  }

  /** However the body ends, its completion stops the container exactly once. */
  lemma BodyCompletionStopsOnce(start: StartOutcome, outcome: BodyOutcome)
    requires WellFormed(start) && start.result.Ok?
    ensures Teardown(start, [BodyFinished(outcome)]) == [start.execution.container.value]
  {
  }

  /** A stop request followed by the body's completion reaches `docker stop`
      twice for the same container: `stop` and the callback do not know of
      each other. */
  lemma StopThenCompletionStopsTwice(start: StartOutcome, cause: string, outcome: BodyOutcome)
    requires WellFormed(start) && start.result.Ok?
    ensures var c := start.execution.container.value;
      Teardown(start, [StopRequested(cause), BodyFinished(outcome)]) == [c, c]
  {
    var events := [StopRequested(cause), BodyFinished(outcome)];
    assert events[1..] == [BodyFinished(outcome)];
    assert events[1..][1..] == [];
    assert Teardown(start, events[1..]) == [start.execution.container.value];
  }

  /** When `docker run` started a container but listing its processes or
      fetching its record failed, no body and no callback exist, so the
      body's completion never stops that container: only a stop request
      can still reach it. */
  lemma {:induction false} FailedStartStopsNothingOnCompletion(start: StartOutcome, events: seq<Event>)
    requires start.execution.container.Some? && start.result.Err?
    requires forall i :: 0 <= i < |events| ==> events[i].BodyFinished?
    ensures Teardown(start, events) == []
  {
    if |events| > 0 {
      FailedStartStopsNothingOnCompletion(start, events[1..]);
    }
  }
}
