/** The `dockerFingerprintFrom` step: find the base image a Dockerfile builds
    on, expand build arguments in it, and record which image the freshly
    built one descends from. The Dockerfile scan is a plain line scan: the
    last line that reads `FROM <image>` once trimmed names the base. */
module FromFingerprint {
  import opened Wrappers
  import opened JavaStrings

  /** A trimmed line that starts with `#`. */
  predicate IsComment(t: string)
  {
    StartsWith(t, "#")
  }

  /** A trimmed line that starts with `FROM ` (upper case, one space). */
  predicate IsFromLine(t: string)
  {
    StartsWith(t, "FROM ")
  }

  /** The image named on a `FROM ` line: everything after the first five
      characters, inner blanks included. */
  function FromImage(t: string): string
    requires IsFromLine(t)
  {
    t[5..]
  }

  /** Position of the last element satisfying `p`. */
  function LastWhere(xs: seq<string>, p: string -> bool): (r: Option<nat>)
    ensures r.Some? ==> r.value < |xs| && p(xs[r.value])
    ensures r.Some? ==> forall j :: r.value < j < |xs| ==> !p(xs[j])
    ensures r.None? ==> forall j :: 0 <= j < |xs| ==> !p(xs[j])
  {
    if |xs| == 0 then None
    else if p(xs[|xs| - 1]) then Some(|xs| - 1)
    else LastWhere(xs[..|xs| - 1], p)
  }

  /** A later element satisfying `p` takes over from every earlier one. */
  lemma {:induction false} LastWhereWins(before: seq<string>, x: string, after: seq<string>, p: string -> bool)
    requires p(x)
    requires forall j :: 0 <= j < |after| ==> !p(after[j])
    ensures LastWhere(before + [x] + after, p) == Some(|before|)
    decreases |after|
  {
    var all := before + [x] + after;
    if |after| == 0 {
      assert all == before + [x];
      assert all[|all| - 1] == x;
    } else {
      var shorter := after[..|after| - 1];
      LastWhereWins(before, x, shorter, p);
      assert all[..|all| - 1] == before + [x] + shorter;
      assert all[|all| - 1] == after[|after| - 1];
    }
  }

  /** A raw Dockerfile line that is a `FROM ` line once trimmed. */
  predicate IsFromRaw(line: string)
  {
    IsFromLine(Trim(line))
  }

  /** Position of the last `FROM ` line. */
  function LastFromIndex(lines: seq<string>): (r: Option<nat>)
    ensures r.Some? ==> r.value < |lines| && IsFromLine(Trim(lines[r.value]))
    ensures r.Some? ==> forall j :: r.value < j < |lines| ==> !IsFromLine(Trim(lines[j]))
    ensures r.None? ==> forall j :: 0 <= j < |lines| ==> !IsFromLine(Trim(lines[j]))
  {
    LastWhere(lines, IsFromRaw)
  }

  /** The base image of a Dockerfile: that of its last `FROM ` line, if any. */
  function BaseImage(lines: seq<string>): Option<string>
  {
    match LastFromIndex(lines)
    case None => None
    case Some(i) => Some(FromImage(Trim(lines[i])))
  }

  /** One more element is the last match if it matches, and changes nothing
      otherwise. */
  lemma LastWhereSnoc(xs: seq<string>, x: string, p: string -> bool)
    ensures LastWhere(xs + [x], p) == if p(x) then Some(|xs|) else LastWhere(xs, p)
  {
    var all := xs + [x];
    assert all[|all| - 1] == x;
    assert all[..|all| - 1] == xs;
  }

  /** One more line either names a new base image or leaves it as it was. */
  lemma BaseImageSnoc(lines: seq<string>, line: string)
    ensures BaseImage(lines + [line]) ==
      if IsFromLine(Trim(line)) then Some(FromImage(Trim(line))) else BaseImage(lines)
  {
    var all := lines + [line];
    LastWhereSnoc(lines, line, IsFromRaw);
    assert all[|lines|] == line;
    var i := LastFromIndex(lines);
    if i.Some? {
      assert all[i.value] == lines[i.value];
    }
  }

  /** The scan's step: the base image after `i + 1` lines. */
  lemma BaseImageStep(lines: seq<string>, i: nat)
    requires i < |lines|
    ensures BaseImage(lines[..i + 1]) ==
      if IsFromLine(Trim(lines[i])) then Some(FromImage(Trim(lines[i]))) else BaseImage(lines[..i])
  {
    assert lines[..i + 1] == lines[..i] + [lines[i]];
    BaseImageSnoc(lines[..i], lines[i]);
  }

  /** Comment lines never name the base image. */
  lemma CommentIsNotFrom(t: string)
    requires IsComment(t)
    ensures !IsFromLine(t)
  {
    assert t[..1][0] == t[0];
    if |t| >= 5 {
      assert t[..5][0] == t[0];
    }
  }

  /** The last `FROM ` line wins, whatever came before it. */
  lemma LastFromWins(before: seq<string>, line: string, after: seq<string>)
    requires IsFromLine(Trim(line))
    requires forall j :: 0 <= j < |after| ==> !IsFromLine(Trim(after[j]))
    ensures BaseImage(before + [line] + after) == Some(FromImage(Trim(line)))
  {
    LastWhereWins(before, line, after, IsFromRaw);
    assert (before + [line] + after)[|before|] == line;
  }

  /** A Dockerfile has no base image exactly when none of its lines is a
      `FROM ` line once trimmed. */
  lemma BaseImageNoneIff(lines: seq<string>)
    ensures BaseImage(lines).None? <==> forall j :: 0 <= j < |lines| ==> !IsFromLine(Trim(lines[j]))
  {
    var i := LastFromIndex(lines);
    if i.Some? {
      assert IsFromLine(Trim(lines[i.value]));
    }
  }

  /** The body of the reading loop for one line: trim it, skip it if it is
      a comment, and let a `FROM ` line overwrite the image found so far. */
  method ScanLine(fromImage: Option<string>, raw: string) returns (next: Option<string>)
    ensures IsFromLine(Trim(raw)) ==> next == Some(FromImage(Trim(raw)))
    ensures !IsFromLine(Trim(raw)) ==> next == fromImage
  {
    next := fromImage;
    var line := Trim(raw);
    if IsComment(line) {
      CommentIsNotFrom(line);
      return;
    }
    if IsFromLine(line) {
      next := Some(FromImage(line));
    }
  }

  /** The reading loop of `run()`. */
  method ScanFrom(lines: seq<string>) returns (fromImage: Option<string>)
    ensures fromImage == BaseImage(lines)
    ensures fromImage.None? <==> forall j :: 0 <= j < |lines| ==> !IsFromLine(Trim(lines[j]))
  {
    fromImage := None;
    var i := 0;
    while i < |lines|
      invariant 0 <= i <= |lines|
      invariant fromImage == BaseImage(lines[..i])
    {
      BaseImageStep(lines, i);
      fromImage := ScanLine(fromImage, lines[i]);
      i := i + 1;
    }
    assert lines[..i] == lines;
    BaseImageNoneIff(lines);
  }

  /** `Util.replaceMacro(image, buildArgs)` when build arguments were given;
      the substitution itself is the parameter `replaceMacro`. */
  function ExpandBuildArgs(image: string, buildArgs: Option<map<string, string>>,
                           replaceMacro: (string, map<string, string>) -> string): (r: string)
    ensures buildArgs.None? ==> r == image
  {
    match buildArgs
    case None => image
    case Some(args) => replaceMacro(image, args)
  }

  /** The image `scratch` is the empty base: it has no id to record. */
  const Scratch := "scratch"

  /** The `FROM` facet recorded for the build, and the image action. */
  datatype FromRecord = FromRecord(parentId: Option<string>, descendantId: string, imageAction: Option<string>)

  /** What the step records once the base image `base` is known: the
      descendant `image` is inspected first and its failure ends the step;
      `scratch` gets no parent id, no parent inspection and no image action;
      any other base is inspected and recorded. `inspected` lists the images
      asked about, in order. */
  predicate Recorded(image: string, base: string, inspect: string -> Result<string, string>,
                     r: Result<FromRecord, string>, inspected: seq<string>)
  {
    && |inspected| >= 1 && inspected[0] == image
    && (inspect(image).Err? ==> r == Err(inspect(image).error) && inspected == [image])
    && (inspect(image).Ok? && base == Scratch ==>
          inspected == [image] && r == Ok(FromRecord(None, inspect(image).value, None)))
    && (inspect(image).Ok? && base != Scratch ==>
          && inspected == [image, base]
          && (inspect(base).Err? ==> r == Err(inspect(base).error))
          && (inspect(base).Ok? ==>
                r == Ok(FromRecord(Some(inspect(base).value), inspect(image).value, Some(base)))))
  }

  /** The inspection and recording half of `run()`. */
  method RecordFrom(image: string, base: string, inspect: string -> Result<string, string>)
    returns (r: Result<FromRecord, string>, inspected: seq<string>)
    ensures Recorded(image, base, inspect, r, inspected)
  {
    inspected := [image];
    var descendant := inspect(image);
    if descendant.Err? {
      return Err(descendant.error), inspected;
    }
    if base == Scratch {
      r := Ok(FromRecord(None, descendant.value, None));
    } else {
      inspected := inspected + [base];
      var parent := inspect(base);
      if parent.Err? {
        return Err(parent.error), inspected;
      }
      r := Ok(FromRecord(Some(parent.value), descendant.value, Some(base)));
    }
  }

  /** `run()`: `inspect` answers `docker inspect -f .Id` for an image, or the
      error it fails with. */
  method Fingerprint(dockerfile: string, lines: seq<string>, image: string,
                     buildArgs: Option<map<string, string>>,
                     replaceMacro: (string, map<string, string>) -> string,
                     inspect: string -> Result<string, string>)
    returns (r: Result<FromRecord, string>, inspected: seq<string>)
    // no `FROM ` line: abort before asking the engine anything
    ensures BaseImage(lines).None? ==>
      r == Err("could not find FROM instruction in " + dockerfile) && inspected == []
    // otherwise the base image, after build-argument expansion, is recorded
    ensures BaseImage(lines).Some? ==>
      Recorded(image, ExpandBuildArgs(BaseImage(lines).value, buildArgs, replaceMacro), inspect, r, inspected)
  {
    var found := ScanFrom(lines);
    if found.None? {
      return Err("could not find FROM instruction in " + dockerfile), [];
    }
    var base := ExpandBuildArgs(found.value, buildArgs, replaceMacro);
    r, inspected := RecordFrom(image, base, inspect);
  }
}
