/** The two environment reductions of the container step: the one handed to
    `docker run` at start, over maps, and the one handed to every
    `docker exec`, over `K=V` strings. Both keep only what differs from the
    agent's own environment and never forward `PATH`, which has to resolve
    inside the container. */
module EnvReduction {
  import opened JavaStrings
  import opened SortedStrings

  type EnvMap = map<string, string>

  /** One `K=V` line as produced by `Util.mapToEnv`. */
  function EnvLine(k: string, v: string): string
  {
    k + "=" + v
  }

  /** `Util.mapToEnv(m)`, as the set of its lines. */
  function EnvLines(m: EnvMap): set<string>
  {
    set k | k in m :: EnvLine(k, m[k])
  }

  /** The environment passed to `docker run`: the requested environment minus
      every entry the host already has with the same value, minus `PATH` and
      the empty key. */
  function ReduceForRun(env: EnvMap, host: EnvMap): (r: EnvMap)
    ensures "PATH" !in r && "" !in r
    ensures forall k :: k in r ==> k in env && r[k] == env[k] && !(k in host && host[k] == env[k])
    ensures forall k :: k in env && k != "PATH" && k != "" ==> k in host + r && (host + r)[k] == env[k]
  {
    map k | k in env && !(k in host && host[k] == env[k]) && k != "PATH" && k != "" :: env[k]
  }

  /** Asking for exactly the host's environment forwards nothing. */
  lemma ReduceForRunOfHost(host: EnvMap)
    ensures ReduceForRun(host, host) == map[]
  {
  }

  predicate IsPathLine(e: string)
  {
    StartsWith(e, "PATH=")
  }

  /** The environment passed to each `docker exec`: the request's `K=V`
      strings collected into a sorted set, minus the host's lines, minus every
      line that starts with `PATH=`. */
  function ReduceForExec(envs: seq<string>, hostLines: set<string>): (r: seq<string>)
    ensures StrictlySorted(r)
    ensures forall e :: e in r <==> e in envs && e !in hostLines && !IsPathLine(e)
  {
    var notHost := Filter(TreeSetOf(envs), e => e !in hostLines);
    Filter(notHost, e => !IsPathLine(e))
  }

  /** The exec environment is determined by its elements alone: it is the one
      sorted enumeration of them, so neither the order nor the repetitions of
      the request matter. */
  lemma ReduceForExecCanonical(envs: seq<string>, hostLines: set<string>, other: seq<string>)
    requires StrictlySorted(other)
    requires forall e :: e in other <==> e in envs && e !in hostLines && !IsPathLine(e)
    ensures other == ReduceForExec(envs, hostLines)
  {
    SortedUnique(other, ReduceForExec(envs, hostLines));
  }

  /** Requests whose every line the host already has forward nothing; in
      particular the host's own environment forwards nothing. */
  lemma ReduceForExecOfHost(envs: seq<string>, host: EnvMap)
    requires forall e :: e in envs ==> e in EnvLines(host)
    ensures ReduceForExec(envs, EnvLines(host)) == []
  {
  }
}
