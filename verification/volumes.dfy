/** Volume resolution for the step's container: the workspace and its temp
    directory must be visible inside the new container at the same paths. On
    a plain agent they are bind-mounted one to one; on an agent that itself
    runs in a container, a directory already inside one of that outer
    container's volumes is reached through `--volumes-from` instead. */
module Volumes {
  import opened Wrappers
  import opened JavaStrings

  /** One `-v host:container` pair. */
  datatype Mount = Mount(hostPath: string, containerPath: string)

  /** The container the agent runs in, with the paths of its mounted volumes. */
  datatype OuterContainer = OuterContainer(id: string, volumes: seq<string>)

  datatype Resolution = Resolution(binds: seq<Mount>, volumesFrom: seq<string>)

  /** Some mounted volume path is a string prefix of `dir`. */
  predicate Covered(dir: string, volumes: seq<string>)
  {
    exists v :: v in volumes && StartsWith(dir, v)
  }

  /** Whether `dir` needs its own bind mount. */
  predicate NeedsBind(dir: string, outer: Option<OuterContainer>)
  {
    outer.None? || !Covered(dir, outer.value.volumes)
  }

  /** `LinkedHashMap.put(dir, dir)`: a new key goes last, a known key keeps
      its place. */
  function PutBind(binds: seq<Mount>, dir: string): (r: seq<Mount>)
  {
    if Mount(dir, dir) in binds then binds else binds + [Mount(dir, dir)]
  }

  /** `LinkedHashSet.add(id)` */
  function AddOnce(ids: seq<string>, id: string): (r: seq<string>)
  {
    if id in ids then ids else ids + [id]
  }

  /** The inner loop over the outer container's volumes: stops at the first
      volume that is a prefix of `dir`. */
  method FindCovering(dir: string, volumes: seq<string>) returns (found: bool)
    ensures found <==> Covered(dir, volumes)
  {
    found := false;
    var j := 0;
    while j < |volumes|
      invariant 0 <= j <= |volumes|
      invariant !found
      invariant forall k :: 0 <= k < j ==> !StartsWith(dir, volumes[k])
    {
      if StartsWith(dir, volumes[j]) {
        found := true;
        break;
      }
      j := j + 1;
    }
  }

  /** Resolves the mounts for the workspace `ws` and temp directory `tmp`. */
  method Resolve(ws: string, tmp: string, outer: Option<OuterContainer>) returns (r: Resolution)
    // every bind mount maps a directory onto the same path
    ensures forall m :: m in r.binds ==> m.hostPath == m.containerPath
    // a directory is bind-mounted exactly when no outer volume covers it
    ensures Mount(ws, ws) in r.binds <==> NeedsBind(ws, outer)
    ensures Mount(tmp, tmp) in r.binds <==> NeedsBind(tmp, outer)
    ensures forall m :: m in r.binds ==> m.hostPath == ws || m.hostPath == tmp
    // the workspace comes first, and no directory is mounted twice
    ensures |r.binds| <= 2
    ensures |r.binds| == 2 ==> r.binds[0] != r.binds[1] && r.binds[0].hostPath == ws
    // the outer container is inherited exactly when it covers a directory
    ensures outer.None? ==> r.volumesFrom == []
    ensures outer.Some? ==>
      r.volumesFrom == (if Covered(ws, outer.value.volumes) || Covered(tmp, outer.value.volumes)
                        then [outer.value.id] else [])
  {
    var binds: seq<Mount> := [];
    var from: seq<string> := [];
    if outer.Some? {
      var wsCovered := FindCovering(ws, outer.value.volumes);
      if wsCovered {
        from := AddOnce(from, outer.value.id);
      } else {
        binds := PutBind(binds, ws);
      }
      var tmpCovered := FindCovering(tmp, outer.value.volumes);
      if tmpCovered {
        from := AddOnce(from, outer.value.id);
      } else {
        binds := PutBind(binds, tmp);
      }
    } else {
      binds := PutBind(PutBind(binds, ws), tmp);
    }
    r := Resolution(binds, from);
  }
}
