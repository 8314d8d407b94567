/** `kill(modelEnvVars)` of the decorated launcher: processes started by the
    body are found inside the container by listing every process with its
    environment (`ps -A -o pid,command e`) and keeping the lines that carry
    every requested `K=V`; the pids of those lines are killed with one
    `kill` inside the container. The match is textual, so a process whose
    arguments merely spell out `K=V` is selected too. */
module ProcessKill {
  import opened Wrappers
  import opened JavaStrings
  import opened EnvReduction

  /** The listing line carries every `K=V` of `matchEnv` as a substring. */
  predicate Selected(line: string, matchEnv: map<string, string>)
  {
    forall k :: k in matchEnv ==> Contains(line, EnvLine(k, matchEnv[k]))
  }

  /** The pid column of a listing line: the trimmed line up to its first
      space; a trimmed line without a space has none. */
  function PidOf(line: string): (r: Option<string>)
    ensures r.None? <==> ' ' !in Trim(line)
    ensures r.Some? ==> r.value != "" && ' ' !in r.value && StartsWith(Trim(line), r.value + " ")
  {
    var t := Trim(line);
    var spc := IndexOf(t, ' ');
    if spc == -1 then None
    else
      assert t[..spc + 1] == t[..spc] + " ";
      Some(t[..spc])
  }

  /** A line that contributes to the kill set. */
  predicate Eligible(line: string, matchEnv: map<string, string>)
  {
    Selected(line, matchEnv) && PidOf(line).Some?
  }

  /** `f` applied to each line, the results concatenated in line order. */
  function FlatMap(lines: seq<string>, f: string -> seq<string>): (r: seq<string>)
    ensures (forall l :: |f(l)| <= 1) ==> |r| <= |lines|
  {
    if |lines| == 0 then [] else f(lines[0]) + FlatMap(lines[1..], f)
  }

  lemma {:induction false} FlatMapAppend(a: seq<string>, b: seq<string>, f: string -> seq<string>)
    ensures FlatMap(a + b, f) == FlatMap(a, f) + FlatMap(b, f)
  {
    if |a| > 0 {
      FlatMapAppend(a[1..], b, f);
      assert (a + b)[0] == a[0];
      assert (a + b)[1..] == a[1..] + b;
    } else {
      assert a + b == b;
    }
  }

  /** The kill set, in listing order. */
  function SelectPids(lines: seq<string>, matchEnv: map<string, string>): (pids: seq<string>)
    ensures |pids| <= |lines|
  {
    FlatMap(lines, l => Contribution(l, matchEnv))
  }

  /** What one listing line adds to the kill set. */
  function Contribution(line: string, matchEnv: map<string, string>): (r: seq<string>)
    ensures |r| <= 1
  {
    if Eligible(line, matchEnv) then [PidOf(line).value] else []
  }

  /** Every pid of the kill set comes from a matching line with a pid column. */
  lemma {:induction false} SelectPidsSound(lines: seq<string>, matchEnv: map<string, string>)
    ensures forall p :: p in SelectPids(lines, matchEnv) ==>
      exists i :: 0 <= i < |lines| && Eligible(lines[i], matchEnv) && PidOf(lines[i]) == Some(p)
  {
    if |lines| > 0 {
      var rest := lines[1..];
      SelectPidsSound(rest, matchEnv);
      assert SelectPids(lines, matchEnv) == Contribution(lines[0], matchEnv) + SelectPids(rest, matchEnv);
      forall p | p in SelectPids(lines, matchEnv)
        ensures exists i :: 0 <= i < |lines| && Eligible(lines[i], matchEnv) && PidOf(lines[i]) == Some(p)
      {
        if p in SelectPids(rest, matchEnv) {
          var j :| 0 <= j < |rest| && Eligible(rest[j], matchEnv) && PidOf(rest[j]) == Some(p);
          assert lines[j + 1] == rest[j];
        } else {
          assert p in Contribution(lines[0], matchEnv);
        }
      }
    }
  }

  /** Every matching line with a pid column contributes its pid. */
  lemma {:induction false} SelectPidsComplete(lines: seq<string>, matchEnv: map<string, string>)
    ensures forall i :: 0 <= i < |lines| && Eligible(lines[i], matchEnv) ==>
      PidOf(lines[i]).value in SelectPids(lines, matchEnv)
  {
    if |lines| > 0 {
      var rest := lines[1..];
      SelectPidsComplete(rest, matchEnv);
      assert SelectPids(lines, matchEnv) == Contribution(lines[0], matchEnv) + SelectPids(rest, matchEnv);
      forall i | 0 <= i < |lines| && Eligible(lines[i], matchEnv)
        ensures PidOf(lines[i]).value in SelectPids(lines, matchEnv)
      {
        if i > 0 {
          assert rest[i - 1] == lines[i];
        }
      }
    }
  }

  /** The kill set is exactly the pids of the matching lines with a pid column. */
  lemma SelectPidsExact(lines: seq<string>, matchEnv: map<string, string>)
    ensures forall p :: p in SelectPids(lines, matchEnv) ==>
      exists i :: 0 <= i < |lines| && Eligible(lines[i], matchEnv) && PidOf(lines[i]) == Some(p)
    ensures forall i :: 0 <= i < |lines| && Eligible(lines[i], matchEnv) ==>
      PidOf(lines[i]).value in SelectPids(lines, matchEnv)
  {
    SelectPidsSound(lines, matchEnv);
    SelectPidsComplete(lines, matchEnv);
  }

  /** Selection keeps listing order: the kill set of a concatenated listing
      is the concatenation of the kill sets. */
  lemma SelectPidsAppend(a: seq<string>, b: seq<string>, matchEnv: map<string, string>)
    ensures SelectPids(a + b, matchEnv) == SelectPids(a, matchEnv) + SelectPids(b, matchEnv)
  {
    FlatMapAppend(a, b, l => Contribution(l, matchEnv));
  }

  /** Scanning one more line adds that line's contribution at the end. */
  lemma SelectPidsSnoc(lines: seq<string>, i: nat, matchEnv: map<string, string>)
    requires i < |lines|
    ensures SelectPids(lines[..i + 1], matchEnv) == SelectPids(lines[..i], matchEnv) + Contribution(lines[i], matchEnv)
  {
    var line := lines[i];
    assert [line][1..] == [];
    assert SelectPids([line], matchEnv) == Contribution(line, matchEnv);
    assert lines[..i + 1] == lines[..i] + [line];
    SelectPidsAppend(lines[..i], [line], matchEnv);
  }

  /** Empty listing lines never contribute a pid. */
  lemma {:induction false} EmptyLinesSelectNothing(lines: seq<string>, matchEnv: map<string, string>)
    requires forall i :: 0 <= i < |lines| ==> lines[i] == ""
    ensures SelectPids(lines, matchEnv) == []
  {
    if |lines| > 0 {
      assert Trim(lines[0]) == "";
      EmptyLinesSelectNothing(lines[1..], matchEnv);
    }
  }

  /** Java's `split("\n")` drops trailing empty lines and keeps an output
      without a newline whole; neither changes the kill set compared with
      cutting at every newline. */
  lemma {:induction false} JavaSplitSelectsSame(output: string, matchEnv: map<string, string>)
    ensures SelectPids(JavaSplit(output, '\n'), matchEnv) == SelectPids(SplitAll(output, '\n'), matchEnv)
  {
    if '\n' in output {
      var parts := SplitAll(output, '\n');
      var kept := DropTrailingEmpty(parts);
      assert parts == kept + parts[|kept|..];
      SelectPidsAppend(kept, parts[|kept|..], matchEnv);
      EmptyLinesSelectNothing(parts[|kept|..], matchEnv);
    }
  }

  /** The inner loop over the match entries: gives up on the line at the
      first `K=V` it does not contain. */
  method MatchesAll(line: string, matchEnv: map<string, string>) returns (all: bool)
    ensures all <==> Selected(line, matchEnv)
  {
    all := true;
    var pending := matchEnv.Keys;
    while pending != {}
      invariant pending <= matchEnv.Keys
      invariant all
      invariant forall k :: k in matchEnv && k !in pending ==> Contains(line, EnvLine(k, matchEnv[k]))
      decreases pending
    {
      var k :| k in pending;
      if !Contains(line, EnvLine(k, matchEnv[k])) {
        all := false;
        return;
      }
      pending := pending - {k};
    }
  }

  /** The loop over the listing lines. */
  method CollectPids(lines: seq<string>, matchEnv: map<string, string>) returns (pids: seq<string>)
    ensures pids == SelectPids(lines, matchEnv)
  {
    pids := [];
    var i := 0;
    while i < |lines|
      invariant 0 <= i <= |lines|
      invariant pids == SelectPids(lines[..i], matchEnv)
    {
      var line := lines[i];
      var all := MatchesAll(line, matchEnv);
      var found: seq<string> := [];
      if all {
        var t := Trim(line);
        var spc := IndexOf(t, ' ');
        if spc != -1 {
          found := [t[..spc]];
        }
      }
      assert found == Contribution(line, matchEnv);
      SelectPidsSnoc(lines, i, matchEnv);
      pids := pids + found;
      i := i + 1;
    }
    assert lines[..i] == lines;
  }

  /** Exit status and standard output of a finished process. */
  datatype ProcResult = ProcResult(exitCode: int, stdout: string)

  /** The engine commands issued, in order, and the error raised, if any. */
  datatype KillOutcome = KillOutcome(calls: seq<seq<string>>, error: Option<string>)

  function PsCommand(exe: string, container: string): seq<string>
  {
    [exe, "exec", container, "ps", "-A", "-o", "pid,command", "e"]
  }

  function KillCommand(exe: string, container: string, pids: seq<string>): seq<string>
  {
    [exe, "exec", container, "kill"] + pids
  }

  /** `kill(matchEnv)`: `ps` answers with `listing`; `killExit` is the exit
      status the `kill` call would end with. */
  method Kill(exe: string, container: string, matchEnv: map<string, string>,
              listing: ProcResult, killExit: int) returns (out: KillOutcome)
    ensures |out.calls| >= 1 && out.calls[0] == PsCommand(exe, container)
    ensures listing.exitCode != 0 ==> out == KillOutcome([PsCommand(exe, container)], Some("failed to run ps"))
    ensures listing.exitCode == 0 ==>
      var pids := SelectPids(JavaSplit(listing.stdout, '\n'), matchEnv);
      && (pids == [] ==> out == KillOutcome([PsCommand(exe, container)], None))
      && (pids != [] ==> out.calls == [PsCommand(exe, container), KillCommand(exe, container, pids)])
      && (pids != [] ==> out.error == (if killExit != 0 then Some("failed to run kill") else None))
  {
    var calls := [PsCommand(exe, container)];
    if listing.exitCode != 0 {
      return KillOutcome(calls, Some("failed to run ps"));
    }
    var pids := CollectPids(JavaSplit(listing.stdout, '\n'), matchEnv);
    if pids != [] {
      calls := calls + [KillCommand(exe, container, pids)];
      if killExit != 0 {
        return KillOutcome(calls, Some("failed to run kill"));
      }
    }
    out := KillOutcome(calls, None);
  }
}
