/** Docker engine version gating. A version is the already-parsed list of
    numeric components of `hudson.util.VersionNumber`; missing trailing
    components count as zero, so `1.13` and `1.13.0` are the same version. */
module DockerVersion {
  import opened Wrappers

  type Version = seq<nat>

  /** Oldest engine with `docker exec`; older engines abort the step. */
  const MinExec: Version := [1, 7]
  /** Oldest engine that can run `docker.inside` from inside a container. */
  const MinNested: Version := [1, 8]
  /** Oldest engine whose `docker exec` accepts `--env`. */
  const MinExecEnv: Version := [1, 13, 0]
  /** Oldest engine whose `docker exec` accepts `--workdir`. */
  const MinExecWorkdir: Version := [17, 12]

  /** Component `i` of `v`, zero past its end. */
  function Part(v: Version, i: nat): nat
  {
    if i < |v| then v[i] else 0
  }

  function Rest(v: Version): Version
  {
    if |v| > 0 then v[1..] else []
  }

  /** The sign of `a.compareTo(b)`: component-wise from the left. */
  function Compare(a: Version, b: Version): (c: int)
    ensures -1 <= c <= 1
    decreases |a| + |b|
  {
    if |a| == 0 && |b| == 0 then 0
    else if Part(a, 0) < Part(b, 0) then -1
    else if Part(a, 0) > Part(b, 0) then 1
    else Compare(Rest(a), Rest(b))
  }

  /** `a.isOlderThan(b)` */
  predicate OlderThan(a: Version, b: Version)
  {
    Compare(a, b) < 0
  }

  /** `a.compareTo(b) >= 0` */
  predicate AtLeast(a: Version, b: Version)
  {
    Compare(a, b) >= 0
  }

  /** Independent reading of `Compare`: two versions compare equal exactly
      when they agree on every zero-padded component. */
  lemma {:induction false} CompareZeroIffSameParts(a: Version, b: Version)
    ensures Compare(a, b) == 0 <==> forall i: nat :: Part(a, i) == Part(b, i)
    decreases |a| + |b|
  {
    if |a| == 0 && |b| == 0 {
    } else {
      CompareZeroIffSameParts(Rest(a), Rest(b));
      if Compare(a, b) == 0 {
        forall i: nat
          ensures Part(a, i) == Part(b, i)
        {
          if i > 0 {
            assert Part(a, i) == Part(Rest(a), i - 1);
            assert Part(b, i) == Part(Rest(b), i - 1);
          }
        }
      } else if Part(a, 0) == Part(b, 0) {
        var j: nat :| Part(Rest(a), j) != Part(Rest(b), j);
        assert Part(a, j + 1) == Part(Rest(a), j);
        assert Part(b, j + 1) == Part(Rest(b), j);
      }
    }
  }

  /** Independent reading of a negative `Compare`: at the first component
      where the two versions differ, the left one is smaller. */
  ghost predicate LowerAtFirstDifference(a: Version, b: Version)
  {
    exists i: nat :: Part(a, i) < Part(b, i) && forall j: nat :: j < i ==> Part(a, j) == Part(b, j)
  }

  lemma PartOfRest(v: Version, k: nat)
    ensures Part(v, k + 1) == Part(Rest(v), k)
  {
  }

  /** With equal leading components, the first difference lies in the rests. */
  lemma LowerAtFirstDifferenceFromRest(a: Version, b: Version)
    requires Part(a, 0) == Part(b, 0)
    requires LowerAtFirstDifference(Rest(a), Rest(b))
    ensures LowerAtFirstDifference(a, b)
  {
    var k: nat :| Part(Rest(a), k) < Part(Rest(b), k)
      && forall j: nat :: j < k ==> Part(Rest(a), j) == Part(Rest(b), j);
    forall j: nat | j < k + 1
      ensures Part(a, j) == Part(b, j)
    {
      if j > 0 {
        PartOfRest(a, j - 1);
        PartOfRest(b, j - 1);
      }
    }
    PartOfRest(a, k);
    PartOfRest(b, k);
    assert Part(a, k + 1) < Part(b, k + 1);
  }

  lemma LowerAtFirstDifferenceToRest(a: Version, b: Version)
    requires Part(a, 0) == Part(b, 0)
    requires LowerAtFirstDifference(a, b)
    ensures LowerAtFirstDifference(Rest(a), Rest(b))
  {
    var i: nat :| Part(a, i) < Part(b, i) && forall j: nat :: j < i ==> Part(a, j) == Part(b, j);
    var k: nat := i - 1;
    PartOfRest(a, k);
    PartOfRest(b, k);
    forall j: nat | j < k
      ensures Part(Rest(a), j) == Part(Rest(b), j)
    {
      PartOfRest(a, j);
      PartOfRest(b, j);
      assert Part(a, j + 1) == Part(b, j + 1);
    }
    assert Part(Rest(a), k) < Part(Rest(b), k);
  }

  lemma {:induction false} CompareNegativeIffLowerAtFirstDifference(a: Version, b: Version)
    ensures Compare(a, b) < 0 <==> LowerAtFirstDifference(a, b)
    decreases |a| + |b|
  {
    if |a| == 0 && |b| == 0 {
    } else if Part(a, 0) < Part(b, 0) {
      assert forall j: nat :: j < 0 ==> Part(a, j) == Part(b, j);
    } else if Part(a, 0) > Part(b, 0) {
    } else {
      CompareNegativeIffLowerAtFirstDifference(Rest(a), Rest(b));
      if LowerAtFirstDifference(Rest(a), Rest(b)) {
        LowerAtFirstDifferenceFromRest(a, b);
      }
      if LowerAtFirstDifference(a, b) {
        LowerAtFirstDifferenceToRest(a, b);
      }
    }
  }

  lemma {:induction false} CompareAntisymmetric(a: Version, b: Version)
    ensures Compare(a, b) == -Compare(b, a)
    decreases |a| + |b|
  {
    if |a| > 0 || |b| > 0 {
      CompareAntisymmetric(Rest(a), Rest(b));
    }
  }

  lemma {:induction false} CompareTransitive(a: Version, b: Version, c: Version)
    requires Compare(a, b) <= 0 && Compare(b, c) <= 0
    ensures Compare(a, c) <= 0
    decreases |a| + |b| + |c|
  {
    if |a| > 0 || |b| > 0 || |c| > 0 {
      if Part(a, 0) == Part(b, 0) == Part(c, 0) {
        assert Compare(a, b) == Compare(Rest(a), Rest(b));
        assert Compare(b, c) == Compare(Rest(b), Rest(c));
        CompareTransitive(Rest(a), Rest(b), Rest(c));
      }
    }
  }

  /** Anything older than `a` is older than every `b` at least `a`. */
  lemma OlderThanUpward(v: Version, a: Version, b: Version)
    requires OlderThan(v, a) && AtLeast(b, a)
    ensures OlderThan(v, b)
  {
    CompareAntisymmetric(b, a);
    if !OlderThan(v, b) {
      CompareAntisymmetric(v, b);
      CompareTransitive(a, b, v);
      CompareAntisymmetric(a, v);
    }
  }

  /** What the version check at the start of the step decides. */
  datatype Gate =
    | Abort(message: string)
    | Proceed(warning: Option<string>)

  const AbortTooOld := "The docker version is less than v1.7. Pipeline functions requiring 'docker exec' (e.g. 'docker.inside') or SELinux labeling will not work."
  const WarnNoNested := "The docker version is less than v1.8. Running a 'docker.inside' from inside a container will not work."
  const WarnUnparsed := "Failed to parse docker version. Please note there is a minimum docker version requirement of v1.7."

  /** The version gate: an unparseable version warns, one older than 1.7
      aborts, one older than 1.8 warns, anything newer passes silently. */
  function CheckVersion(v: Option<Version>): (g: Gate)
    ensures g.Abort? <==> v.Some? && OlderThan(v.value, MinExec)
    ensures g == Proceed(None) <==> v.Some? && AtLeast(v.value, MinNested)
  {
    match v
    case None => Proceed(Some(WarnUnparsed))
    case Some(ver) =>
      if OlderThan(ver, MinExec) then
        OlderThanUpward(ver, MinExec, MinNested);
        Abort(AbortTooOld)
      else if OlderThan(ver, MinNested) then
        Proceed(Some(WarnNoNested))
      else Proceed(None)
  }

  /** A newer engine never fares worse at the gate than an older one. */
  lemma GateMonotone(older: Version, newer: Version)
    requires AtLeast(newer, older)
    ensures CheckVersion(Some(older)).Proceed? ==> CheckVersion(Some(newer)).Proceed?
    ensures CheckVersion(Some(older)) == Proceed(None) ==> CheckVersion(Some(newer)) == Proceed(None)
  {
    CompareAntisymmetric(newer, older);
    if !OlderThan(older, MinExec) {
      CompareAntisymmetric(older, MinExec);
      CompareTransitive(MinExec, older, newer);
      CompareAntisymmetric(newer, MinExec);
    }
    if !OlderThan(older, MinNested) {
      CompareAntisymmetric(older, MinNested);
      CompareTransitive(MinNested, older, newer);
      CompareAntisymmetric(newer, MinNested);
    }
  }

  /** `hasEnv`: the engine is known and at least 1.13.0. */
  predicate HasExecEnv(v: Option<Version>)
  {
    v.Some? && AtLeast(v.value, MinExecEnv)
  }

  /** `hasWorkdir`: the engine is known and at least 17.12. */
  predicate HasExecWorkdir(v: Option<Version>)
  {
    v.Some? && AtLeast(v.value, MinExecWorkdir)
  }

  /** The capabilities are nested: an engine with `exec --workdir` also has
      `exec --env`, and an engine with `exec --env` passes the gate without
      a warning. */
  lemma CapabilitiesNested(v: Option<Version>)
    ensures HasExecWorkdir(v) ==> HasExecEnv(v)
    ensures HasExecEnv(v) ==> CheckVersion(v) == Proceed(None)
  {
    if HasExecWorkdir(v) {
      CompareAntisymmetric(v.value, MinExecWorkdir);
      CompareTransitive(MinExecEnv, MinExecWorkdir, v.value);
      CompareAntisymmetric(v.value, MinExecEnv);
    }
    if HasExecEnv(v) {
      CompareAntisymmetric(v.value, MinExecEnv);
      CompareTransitive(MinNested, MinExecEnv, v.value);
      CompareAntisymmetric(v.value, MinNested);
    }
  }
}
