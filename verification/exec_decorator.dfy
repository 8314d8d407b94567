/** The launcher decorator installed around the step's body: every process
    the body launches is rewritten into a `docker exec` into the step's
    container, carrying the working directory and the part of the
    environment the container does not already have. */
module ExecDecorator {
  import opened Wrappers
  import opened DockerVersion
  import opened EnvReduction

  /** The serialized decorator state, frozen when the container starts.
      `ws` is absent only for decorators saved by older plugin versions. */
  datatype Decorator = Decorator(
    container: string,
    envHost: set<string>,
    ws: Option<string>,
    toolName: Option<string>,
    hasEnv: bool,
    hasWorkdir: bool)

  /** The decorator constructor: capabilities come from the engine version. */
  function NewDecorator(container: string, host: EnvMap, ws: string, toolName: Option<string>,
                        version: Option<Version>): (d: Decorator)
    ensures d.container == container && d.ws == Some(ws) && d.toolName == toolName
    ensures forall k :: k in host ==> EnvLine(k, host[k]) in d.envHost
    ensures forall e :: e in d.envHost ==> exists k :: k in host && e == EnvLine(k, host[k])
    ensures d.hasEnv <==> HasExecEnv(version)
    ensures d.hasWorkdir <==> HasExecWorkdir(version)
    ensures d.hasWorkdir ==> d.hasEnv
  {
    CapabilitiesNested(version);
    Decorator(container, EnvLines(host), Some(ws), toolName, HasExecEnv(version), HasExecWorkdir(version))
  }

  /** The parts of a `Launcher.ProcStarter` the decorator reads or rewrites. */
  datatype ProcStarter = ProcStarter(
    cmds: seq<string>,
    envs: seq<string>,
    pwd: Option<string>,
    masks: Option<seq<bool>>)

  /** The directory a launch asks for, when it differs from the container's
      own working directory. */
  function RequestedWorkdir(d: Decorator, pwd: Option<string>): Option<string>
  {
    if d.ws.Some? && pwd.Some? && pwd.value != d.ws.value then pwd else None
  }

  /** The directory actually passed to `docker exec --workdir`. */
  function EffectiveWorkdir(d: Decorator, pwd: Option<string>): Option<string>
  {
    if d.hasWorkdir then RequestedWorkdir(d, pwd) else None
  }

  function WorkdirArgs(d: Decorator, pwd: Option<string>): (r: seq<string>)
  {
    match EffectiveWorkdir(d, pwd)
    case Some(p) => ["--workdir", p]
    case None => []
  }

  /** `--env e` for each entry, in order. */
  function EnvFlags(es: seq<string>): (r: seq<string>)
    ensures |r| == 2 * |es|
    ensures forall i :: 0 <= i < |es| ==> r[2 * i] == "--env" && r[2 * i + 1] == es[i]
  {
    if |es| == 0 then []
    else
      var tail := EnvFlags(es[1..]);
      var r := ["--env", es[0]] + tail;
      assert forall i | 0 <= i < |es| :: r[2 * i] == "--env" && r[2 * i + 1] == es[i] by {
        forall i | 1 <= i < |es|
          ensures r[2 * i] == "--env" && r[2 * i + 1] == es[i]
        {
          assert r[2 * i] == tail[2 * (i - 1)];
          assert r[2 * i + 1] == tail[2 * (i - 1) + 1];
          assert es[1..][i - 1] == es[i];
        }
      }
      r
  }

  /** The number of words put in front of the original command: `docker`,
      `exec`, the workdir pair when one is passed, then two words per entry
      and the container with `exec --env`, or the container, `env` and one
      word per entry without it. */
  function PrefixLength(d: Decorator, pwd: Option<string>, entries: nat): nat
  {
    2 + (if EffectiveWorkdir(d, pwd).Some? then 2 else 0)
      + (if d.hasEnv then 2 * entries + 1 else entries + 2)
  }

  /** What goes in front of the original command. With `exec --env` the
      entries become flags before the container id; without it the command
      runs under `env` with the entries as assignments. */
  function ExecPrefix(d: Decorator, exe: string, pwd: Option<string>, env: seq<string>): (r: seq<string>)
    ensures |r| == PrefixLength(d, pwd, |env|)
    ensures r[0] == exe && r[1] == "exec"
    ensures EffectiveWorkdir(d, pwd).Some? ==> r[2] == "--workdir" && r[3] == EffectiveWorkdir(d, pwd).value
    // with `exec --env`: one `--env e` pair per entry, then the container
    ensures d.hasEnv ==> r[|r| - 1] == d.container && r[|r| - 1 - 2 * |env|..|r| - 1] == EnvFlags(env)
    // without it: the container, `env`, and the entries as assignments
    ensures !d.hasEnv ==> r[|r| - |env| - 2..] == [d.container, "env"] + env
  {
    [exe, "exec"] + WorkdirArgs(d, pwd)
      + (if d.hasEnv then EnvFlags(env) + [d.container] else [d.container, "env"] + env)
  }

  /** `shifted` is `mask` moved `p` positions to the right, with the `p`
      new leading positions left unmasked. */
  predicate MaskShifted(mask: seq<bool>, shifted: seq<bool>, p: nat)
  {
    && |shifted| == |mask| + p
    && (forall i :: 0 <= i < p ==> !shifted[i])
    && (forall i :: 0 <= i < |mask| ==> shifted[p + i] == mask[i])
  }

  /** The redaction mask after `p` arguments were put in front: the new
      positions are never masked and the old mask moves to the tail. */
  function ShiftMask(mask: seq<bool>, p: nat): (r: seq<bool>)
    ensures MaskShifted(mask, r, p)
  {
    seq(p, _ => false) + mask
  }

  /** The "decorate by prefix" step: `prefix` goes in front of the command
      and the mask is shifted to match; nothing else in the request changes. */
  function Prepend(st: ProcStarter, prefix: seq<string>): (r: ProcStarter)
    ensures r.envs == st.envs && r.pwd == st.pwd
    ensures |r.cmds| == |prefix| + |st.cmds|
    ensures forall i :: 0 <= i < |prefix| ==> r.cmds[i] == prefix[i]
    ensures r.cmds[|prefix|..] == st.cmds
    ensures st.masks.None? <==> r.masks.None?
    ensures st.masks.Some? ==> MaskShifted(st.masks.value, r.masks.value, |prefix|)
  {
    var masks := match st.masks
      case None => None
      case Some(m) => Some(ShiftMask(m, |prefix|));
    ProcStarter(prefix + st.cmds, st.envs, st.pwd, masks)
  }

  datatype Launched = Launched(starter: ProcStarter, warning: Option<string>)

  function WorkdirWarning(ws: string, path: string): string
  {
    "Docker version is older than 17.12, working directory will be " + ws + " not " + path
  }

  /** `launch(starter)`: `exe` is the docker executable the tool installation
      resolves to. */
  function Launch(d: Decorator, exe: string, st: ProcStarter): (r: Launched)
    // only the command line and the mask change
    ensures r.starter.envs == st.envs && r.starter.pwd == st.pwd
    // the prefix holds the workdir pair, one or two words per entry, the container and the wrapper
    ensures var p := PrefixLength(d, st.pwd, |ReduceForExec(st.envs, d.envHost)|);
      && |r.starter.cmds| == p + |st.cmds|
      && r.starter.cmds[p..] == st.cmds
    ensures r.starter.cmds[0] == exe && r.starter.cmds[1] == "exec"
    ensures EffectiveWorkdir(d, st.pwd).Some? ==>
      r.starter.cmds[2] == "--workdir" && r.starter.cmds[3] == EffectiveWorkdir(d, st.pwd).value
    // the words in front are the exec prefix for the reduced environment, with its `--env`
    // pairs then the container, or the container, `env` and the entries
    ensures r.starter.cmds[..PrefixLength(d, st.pwd, |ReduceForExec(st.envs, d.envHost)|)]
         == ExecPrefix(d, exe, st.pwd, ReduceForExec(st.envs, d.envHost))
    // the mask follows the arguments it was written for
    ensures st.masks.None? <==> r.starter.masks.None?
    ensures st.masks.Some? ==>
      MaskShifted(st.masks.value, r.starter.masks.value, PrefixLength(d, st.pwd, |ReduceForExec(st.envs, d.envHost)|))
    // a different directory without `exec --workdir` is reported, not passed
    ensures r.warning.Some? <==> RequestedWorkdir(d, st.pwd).Some? && !d.hasWorkdir
  {
    var prefix := ExecPrefix(d, exe, st.pwd, ReduceForExec(st.envs, d.envHost));
    var warning :=
      if RequestedWorkdir(d, st.pwd).Some? && !d.hasWorkdir
      then Some(WorkdirWarning(d.ws.value, st.pwd.value))
      else None;
    var r := Prepend(st, prefix);
    Launched(r, warning)
  }

  /** A position a shifted mask redacts lies past the `p` new words and
      names the original word the original mask redacted. */
  lemma ShiftedMaskAligned(mask: seq<bool>, shifted: seq<bool>, cmds: seq<string>, longer: seq<string>, p: nat, i: int)
    requires |mask| == |cmds| && MaskShifted(mask, shifted, p)
    requires |longer| == p + |cmds| && longer[p..] == cmds
    requires 0 <= i < |shifted| && shifted[i]
    ensures p <= i && mask[i - p] && longer[i] == cmds[i - p]
  {
    assert shifted[p + (i - p)] == mask[i - p];
    assert longer[p..][i - p] == cmds[i - p];
  }

  /** A redacted argument of the prefixed command is always one of the
      original arguments, at the position the original mask redacted. */
  lemma PrependKeepsMaskAligned(st: ProcStarter, prefix: seq<string>, i: int)
    requires st.masks.Some? && |st.masks.value| == |st.cmds|
    requires 0 <= i < |Prepend(st, prefix).cmds| && Prepend(st, prefix).masks.value[i]
    ensures |prefix| <= i && st.masks.value[i - |prefix|]
    ensures Prepend(st, prefix).cmds[i] == st.cmds[i - |prefix|]
  {
    var r := Prepend(st, prefix);
    var p := |prefix|;
    assert r.masks.value[p + (i - p)] == st.masks.value[i - p];
    assert r.cmds[p..][i - p] == st.cmds[i - p];
  }

  /** The same, for the request the decorator launches: the redaction mask
      never lands on a word the decorator added. */
  lemma MaskStaysAligned(d: Decorator, exe: string, st: ProcStarter, i: int)
    requires st.masks.Some? && |st.masks.value| == |st.cmds|
    requires var r := Launch(d, exe, st).starter;
      0 <= i < |r.cmds| && r.masks.Some? && i < |r.masks.value| && r.masks.value[i]
    ensures var r := Launch(d, exe, st).starter;
      var p := |r.cmds| - |st.cmds|;
      p <= i && st.masks.value[i - p] && r.cmds[i] == st.cmds[i - p]
    ensures var r := Launch(d, exe, st).starter;
      var p := |r.cmds| - |st.cmds|;
      forall j :: 0 <= j < |st.masks.value| && st.masks.value[j] ==> r.masks.value[p + j]
  {
    var r := Launch(d, exe, st).starter;
    var p := PrefixLength(d, st.pwd, |ReduceForExec(st.envs, d.envHost)|);
    ShiftedMaskAligned(st.masks.value, r.masks.value, st.cmds, r.cmds, p, i);
  }

  // ---------------------------------------------------------------------------
  // How the rewritten command line is read back: `docker exec` takes its
  // options, then the container, then the command; `env` takes leading
  // `K=V` words as assignments. Decoding the prefix recovers what the
  // decorator meant to send.

  datatype ExecCall = ExecCall(
    exe: string,
    workdir: Option<string>,
    env: seq<string>,
    container: string,
    command: seq<string>)

  /** Leading `--env e` pairs, and what follows them. */
  function TakeEnvFlags(args: seq<string>): (seq<string>, seq<string>)
  {
    if |args| >= 2 && args[0] == "--env" then
      var more := TakeEnvFlags(args[2..]);
      ([args[1]] + more.0, more.1)
    else ([], args)
  }

  /** Leading `K=V` words, and what follows them. */
  function TakeAssignments(args: seq<string>): (seq<string>, seq<string>)
  {
    if |args| >= 1 && '=' in args[0] then
      var more := TakeAssignments(args[1..]);
      ([args[0]] + more.0, more.1)
    else ([], args)
  }

  function ParseExec(args: seq<string>): Option<ExecCall>
  {
    if |args| < 2 || args[1] != "exec" then None else ParseOptions(args[0], args[2..])
  }

  /** The `exec` options up to the container: `--workdir p` first, if any. */
  function ParseOptions(exe: string, rest: seq<string>): Option<ExecCall>
  {
    if |rest| >= 2 && rest[0] == "--workdir" then ParseTarget(exe, Some(rest[1]), rest[2..])
    else ParseTarget(exe, None, rest)
  }

  /** `--env` flags, the container, and the command, possibly under `env`. */
  function ParseTarget(exe: string, workdir: Option<string>, rest: seq<string>): Option<ExecCall>
  {
    var flags := TakeEnvFlags(rest);
    if |flags.1| == 0 then None
    else
      var container := flags.1[0];
      var tail := flags.1[1..];
      if |tail| > 0 && tail[0] == "env" then
        var assigns := TakeAssignments(tail[1..]);
        Some(ExecCall(exe, workdir, flags.0 + assigns.0, container, assigns.1))
      else Some(ExecCall(exe, workdir, flags.0, container, tail))
  }

  lemma {:induction false} TakeEnvFlagsOfFlags(es: seq<string>, rest: seq<string>)
    requires |rest| > 0 && rest[0] != "--env"
    ensures TakeEnvFlags(EnvFlags(es) + rest) == (es, rest)
  {
    if |es| > 0 {
      TakeEnvFlagsOfFlags(es[1..], rest);
      assert (EnvFlags(es) + rest)[2..] == EnvFlags(es[1..]) + rest;
      assert [es[0]] + es[1..] == es;
    } else {
      assert EnvFlags(es) + rest == rest;
    }
  }

  lemma {:induction false} TakeAssignmentsOfAssignments(es: seq<string>, rest: seq<string>)
    requires forall e :: e in es ==> '=' in e
    requires |rest| > 0 ==> '=' !in rest[0]
    ensures TakeAssignments(es + rest) == (es, rest)
  {
    if |es| > 0 {
      TakeAssignmentsOfAssignments(es[1..], rest);
      assert (es + rest)[1..] == es[1..] + rest;
      assert [es[0]] + es[1..] == es;
    } else {
      assert es + rest == rest;
    }
  }

  /** The workdir option is read back from the front of the prefix. */
  lemma ParseWorkdir(d: Decorator, exe: string, pwd: Option<string>, body: seq<string>)
    requires |body| > 0 && body[0] != "--workdir"
    ensures ParseOptions(exe, WorkdirArgs(d, pwd) + body) == ParseTarget(exe, EffectiveWorkdir(d, pwd), body)
  {
    if EffectiveWorkdir(d, pwd).Some? {
      assert (WorkdirArgs(d, pwd) + body)[2..] == body;
    } else {
      assert WorkdirArgs(d, pwd) + body == body;
    }
  }

  /** The `exec --env` shape reads back as its entries, container and command. */
  lemma ParseFlagShape(exe: string, workdir: Option<string>, env: seq<string>, container: string, cmds: seq<string>)
    requires container != "--env"
    requires |cmds| > 0 ==> cmds[0] != "env"
    ensures ParseTarget(exe, workdir, EnvFlags(env) + [container] + cmds)
         == Some(ExecCall(exe, workdir, env, container, cmds))
  {
    assert EnvFlags(env) + [container] + cmds == EnvFlags(env) + ([container] + cmds);
    TakeEnvFlagsOfFlags(env, [container] + cmds);
    assert ([container] + cmds)[1..] == cmds;
  }

  /** The `env` wrapper shape reads back as its assignments, container and command. */
  lemma ParseWrapperShape(exe: string, workdir: Option<string>, env: seq<string>, container: string, cmds: seq<string>)
    requires container != "--env"
    requires forall e :: e in env ==> '=' in e
    requires |cmds| > 0 ==> '=' !in cmds[0]
    ensures ParseTarget(exe, workdir, [container, "env"] + env + cmds)
         == Some(ExecCall(exe, workdir, env, container, cmds))
  {
    var body := [container, "env"] + env + cmds;
    assert body == EnvFlags([]) + body;
    TakeEnvFlagsOfFlags([], body);
    TakeAssignmentsOfAssignments(env, cmds);
    assert body[1..] == ["env"] + (env + cmds);
    assert body[1..][1..] == env + cmds;
    assert [] + env == env;
  }

  /** The prefixed command is `exe exec`, the workdir option, and the rest. */
  lemma PrefixSplits(d: Decorator, exe: string, pwd: Option<string>, env: seq<string>, cmds: seq<string>)
    ensures ExecPrefix(d, exe, pwd, env) + cmds
         == [exe, "exec"] + (WorkdirArgs(d, pwd)
              + (if d.hasEnv then EnvFlags(env) + [d.container] + cmds else [d.container, "env"] + env + cmds))
  {
    var tail := if d.hasEnv then EnvFlags(env) + [d.container] else [d.container, "env"] + env;
    Regroup([exe, "exec"], WorkdirArgs(d, pwd), tail, cmds);
  }

  lemma Regroup(a: seq<string>, b: seq<string>, c: seq<string>, e: seq<string>)
    ensures a + b + c + e == a + (b + (c + e))
  {
  }

  lemma ExecWordsParse(exe: string, rest: seq<string>)
    ensures ParseExec([exe, "exec"] + rest) == ParseOptions(exe, rest)
  {
    assert ([exe, "exec"] + rest)[2..] == rest;
  }

  lemma PrefixDecodes(d: Decorator, exe: string, pwd: Option<string>, env: seq<string>, cmds: seq<string>)
    requires d.container != "--env" && d.container != "--workdir"
    requires |cmds| > 0 ==> cmds[0] != "env"
    requires !d.hasEnv ==> forall e :: e in env ==> '=' in e
    requires !d.hasEnv && |cmds| > 0 ==> '=' !in cmds[0]
    ensures ParseExec(ExecPrefix(d, exe, pwd, env) + cmds)
         == Some(ExecCall(exe, EffectiveWorkdir(d, pwd), env, d.container, cmds))
  {
    var body := if d.hasEnv then EnvFlags(env) + [d.container] + cmds
                else [d.container, "env"] + env + cmds;
    PrefixSplits(d, exe, pwd, env, cmds);
    ExecWordsParse(exe, WorkdirArgs(d, pwd) + body);
    if d.hasEnv {
      if |env| > 0 {
        assert body[0] == "--env";
      }
      ParseFlagShape(exe, EffectiveWorkdir(d, pwd), env, d.container, cmds);
    } else {
      ParseWrapperShape(exe, EffectiveWorkdir(d, pwd), env, d.container, cmds);
    }
    ParseWorkdir(d, exe, pwd, body);
  }

  /** What a rewritten launch means to the engine: the docker executable,
      the effective working directory, the reduced environment, the
      container and the original command, whichever of the two prefix
      shapes the engine's version called for. */
  lemma LaunchDecodes(d: Decorator, exe: string, st: ProcStarter)
    requires d.container != "--env" && d.container != "--workdir"
    requires |st.cmds| > 0 ==> st.cmds[0] != "env"
    requires !d.hasEnv ==> forall e :: e in st.envs ==> '=' in e
    requires !d.hasEnv && |st.cmds| > 0 ==> '=' !in st.cmds[0]
    ensures ParseExec(Launch(d, exe, st).starter.cmds)
         == Some(ExecCall(exe, EffectiveWorkdir(d, st.pwd), ReduceForExec(st.envs, d.envHost),
                          d.container, st.cmds))
  {
    var env := ReduceForExec(st.envs, d.envHost);
    assert forall e :: e in env ==> e in st.envs;
    assert Launch(d, exe, st).starter.cmds == ExecPrefix(d, exe, st.pwd, env) + st.cmds;
    PrefixDecodes(d, exe, st.pwd, env, st.cmds);
  }

  /** Both prefix shapes ask the engine for the same thing. */
  lemma PrefixShapesAgree(d: Decorator, exe: string, st: ProcStarter)
    requires d.container != "--env" && d.container != "--workdir"
    requires |st.cmds| > 0 ==> st.cmds[0] != "env" && '=' !in st.cmds[0]
    requires forall e :: e in st.envs ==> '=' in e
    ensures ParseExec(Launch(d.(hasEnv := true), exe, st).starter.cmds)
         == ParseExec(Launch(d.(hasEnv := false), exe, st).starter.cmds)
  {
    LaunchDecodes(d.(hasEnv := true), exe, st);
    LaunchDecodes(d.(hasEnv := false), exe, st);
  }
}
