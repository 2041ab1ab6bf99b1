/** `ensureRefExists`: makes a baseline reference usable before the analysis tool runs, by
    checking for it locally and, when that fails, fetching it. It never fails: a failed fetch
    only produces a warning, and the tool itself decides later whether the reference is usable. */
module RefResolver {
  import opened JsString
  import opened Exec

  /** A baseline with this suffix names a snapshot file, not a reference. */
  const SnapshotSuffix := ".json"

  /** The remote fetched from when the reference has no `/`. */
  const DefaultRemote := "origin"

  /** The remote and the branch a fetch asks for. */
  datatype FetchTarget = FetchTarget(remote: string, branch: string)

  /** Whether the best-effort fetch resolved or threw (and what was warned). The fetch ignores its
      exit code, so a `git fetch` that exits non-zero still resolves: only a fetch that could not
      be run at all throws and is warned about. */
  datatype FetchStatus = FetchResolved | FetchFailed(warning: string)

  /** How the baseline was classified, and what became of the fetch when one was needed. */
  datatype Resolution =
    | FileSnapshot
    | LocalRef
    | RemoteRef(target: FetchTarget, status: FetchStatus)

  /** The remote and branch of `ref`: split at `/`, the first segment is the remote and the other
      segments rejoined with `/` are the branch; without a `/` the default remote and `ref` itself. */
  function TargetOf(ref: string): FetchTarget
  {
    if '/' in ref then
      var parts := Split(ref, '/');
      FetchTarget(parts[0], Join(parts[1..], '/'))
    else
      FetchTarget(DefaultRemote, ref)
  }

  /** The remote-tracking ref a fetched branch is stored under. */
  function TrackingRef(t: FetchTarget): string
  {
    "refs/remotes/" + t.remote + "/" + t.branch
  }

  /** The forced refspec mapping the remote's branch onto its remote-tracking ref. */
  function Refspec(t: FetchTarget): string
  {
    "+refs/heads/" + t.branch + ":" + TrackingRef(t)
  }

  /** `git rev-parse --verify <ref>`, silent, failing on a non-zero exit code. */
  function VerifyCommand(ref: string, cwd: string): Command
  {
    Command("git", ["rev-parse", "--verify", ref], cwd, true, false)
  }

  /** The shallow, tag-less, pruning fetch of one branch, with its exit code ignored. */
  function FetchCommand(t: FetchTarget, cwd: string): Command
  {
    Command("git", ["fetch", "--no-tags", "--prune", "--depth=1", t.remote, Refspec(t)], cwd, false, true)
  }

  /** A command that runs git. */
  predicate IsGit(c: Command)
  {
    c.program == "git"
  }

  /** A command that runs `git fetch`. */
  predicate IsFetch(c: Command)
  {
    c.program == "git" && |c.args| > 0 && c.args[0] == "fetch"
  }

  /** The warning logged when the fetch throws. */
  function FetchWarning(ref: string, e: Thrown): string
  {
    "Failed to fetch ref \"" + ref + "\": " + Describe(e)
  }

  /** The commands a resolution has issued, in order. */
  function ResolutionCommands(ref: string, cwd: string, res: Resolution): seq<Command>
  {
    match res
    case FileSnapshot => []
    case LocalRef => [VerifyCommand(ref, cwd)]
    case RemoteRef(t, _) => [VerifyCommand(ref, cwd), FetchCommand(t, cwd)]
  }

  /** How `ref` resolves against the environment `exec`, after the commands `before`. */
  function Resolve(ref: string, cwd: string, exec: Oracle, before: seq<Command>): Resolution
  {
    if EndsWith(ref, SnapshotSuffix) then FileSnapshot
    else
      var verify := VerifyCommand(ref, cwd);
      match exec(before, verify)
      case Resolved(_, _) => LocalRef
      case Rejected(_) =>
        var t := TargetOf(ref);
        match exec(before + [verify], FetchCommand(t, cwd))
        case Resolved(_, _) => RemoteRef(t, FetchResolved)
        case Rejected(e) => RemoteRef(t, FetchFailed(FetchWarning(ref, e)))
  }

  /** `ensureRefExists(ref, cwd)`, issuing its commands after `before`; `after` is the command
      trace once it returns. It has no failure result: every exception is absorbed. */
  method EnsureRefExists(ref: string, cwd: string, exec: Oracle, before: seq<Command>)
    returns (res: Resolution, after: seq<Command>)
    ensures res == Resolve(ref, cwd, exec, before)
    ensures after == before + ResolutionCommands(ref, cwd, res)
  {
    after := before;
    if EndsWith(ref, SnapshotSuffix) {
      res := FileSnapshot;
      return;
    }
    var verify := VerifyCommand(ref, cwd);
    var verified := exec(after, verify);
    after := after + [verify];
    if verified.Resolved? {
      res := LocalRef;
      return;
    }
    var target := TargetOf(ref);
    var fetch := FetchCommand(target, cwd);
    var fetched := exec(after, fetch);
    after := after + [fetch];
    match fetched
    case Resolved(_, _) =>
      res := RemoteRef(target, FetchResolved);
    case Rejected(e) =>
      res := RemoteRef(target, FetchFailed(FetchWarning(ref, e)));
  }

  /** A reference containing `/` is split at its first `/`: the remote is what comes before,
      the branch everything after (further `/` included), and the two rejoin to the reference. */
  lemma {:induction false} TargetOfSplitsAtFirstSlash(ref: string)
    requires '/' in ref
    ensures var i := IndexOf(ref, '/');
      TargetOf(ref) == FetchTarget(ref[..i], ref[i + 1..])
    ensures '/' !in TargetOf(ref).remote
    ensures TargetOf(ref).remote + "/" + TargetOf(ref).branch == ref
  {
    var i := IndexOf(ref, '/');
    SplitAtFirst(ref, '/');
    Around(ref, i);
  }

  /** Conversely, a target whose remote has no `/` is recovered from the reference it rejoins to. */
  lemma TargetOfRecoversTarget(t: FetchTarget)
    requires '/' !in t.remote
    ensures TargetOf(t.remote + "/" + t.branch) == t
  {
    var ref := t.remote + "/" + t.branch;
    IndexOfAfterPrefix(t.remote, "/" + t.branch, '/');
    assert ref == t.remote + ("/" + t.branch);
    assert '/' in ref by { assert ref[|t.remote|] == '/'; }
    TargetOfSplitsAtFirstSlash(ref);
    assert ref[..|t.remote|] == t.remote;
    assert ref[|t.remote| + 1..] == t.branch;
  }

  /** A reference without `/` is fetched as a branch of the default remote. */
  lemma TargetOfWithoutSlash(ref: string)
    requires '/' !in ref
    ensures TargetOf(ref) == FetchTarget("origin", ref)
    ensures Refspec(TargetOf(ref)) == "+refs/heads/" + ref + ":refs/remotes/origin/" + ref
  {
    RefspecText(TargetOf(ref));
  }

  /** Worked case: `origin/feature-x` is branch `feature-x` of `origin`. */
  lemma FeatureBranchExample()
    ensures TargetOf("origin/feature-x") == FetchTarget("origin", "feature-x")
  {
    assert '/' !in "origin";
    assert "origin/feature-x" == "origin" + "/" + "feature-x";
    TargetOfRecoversTarget(FetchTarget("origin", "feature-x"));
  }

  /** Worked case: in `origin/release/1.2` the branch keeps its `/`. */
  lemma NestedBranchExample()
    ensures TargetOf("origin/release/1.2") == FetchTarget("origin", "release/1.2")
  {
    assert '/' !in "origin";
    assert "origin/release/1.2" == "origin" + "/" + "release/1.2";
    TargetOfRecoversTarget(FetchTarget("origin", "release/1.2"));
  }

  /** Worked case: a bare branch name is fetched from `origin`. */
  lemma BareBranchExample()
    ensures TargetOf("main") == FetchTarget("origin", "main")
  {
    assert '/' !in "main";
  }

  /** The refspec written out: `+refs/heads/<branch>:refs/remotes/<remote>/<branch>`. */
  lemma RefspecText(t: FetchTarget)
    ensures Refspec(t) == "+refs/heads/" + t.branch + ":refs/remotes/" + t.remote + "/" + t.branch
  {
  }

  /** The tracking ref names its target once the branch is known. */
  lemma TrackingRefInjective(t1: FetchTarget, t2: FetchTarget)
    requires t1.branch == t2.branch
    requires TrackingRef(t1) == TrackingRef(t2)
    ensures t1 == t2
  {
    var r1 := t1.remote + "/";
    var r2 := t2.remote + "/";
    assert TrackingRef(t1) == "refs/remotes/" + (r1 + t1.branch);
    assert TrackingRef(t2) == "refs/remotes/" + (r2 + t2.branch);
    PrefixCancel("refs/remotes/", r1 + t1.branch, r2 + t2.branch);
    SuffixCancel(r1, r2, t1.branch);
    SuffixCancel(t1.remote, t2.remote, "/");
  }

  /** The refspec names its target uniquely: for branch names without `:` (which git's reference
      names cannot hold) different targets give different refspecs. */
  lemma RefspecInjective(t1: FetchTarget, t2: FetchTarget)
    requires ':' !in t1.branch && ':' !in t2.branch
    requires Refspec(t1) == Refspec(t2)
    ensures t1 == t2
  {
    assert Refspec(t1) == "+refs/heads/" + (t1.branch + [':'] + TrackingRef(t1));
    assert Refspec(t2) == "+refs/heads/" + (t2.branch + [':'] + TrackingRef(t2));
    PrefixCancel("+refs/heads/", t1.branch + [':'] + TrackingRef(t1), t2.branch + [':'] + TrackingRef(t2));
    CutAtFirstUnique(t1.branch, TrackingRef(t1), t2.branch, TrackingRef(t2), ':');
    TrackingRefInjective(t1, t2);
  }

  /** A snapshot baseline is classified as such and reaches no git command at all; any other
      baseline issues git commands only. */
  lemma SnapshotTouchesNoGit(ref: string, cwd: string, exec: Oracle, before: seq<Command>)
    ensures var cmds := ResolutionCommands(ref, cwd, Resolve(ref, cwd, exec, before));
      (Resolve(ref, cwd, exec, before) == FileSnapshot <==> EndsWith(ref, ".json")) &&
      (cmds == [] <==> EndsWith(ref, ".json")) &&
      (forall i :: 0 <= i < |cmds| ==> IsGit(cmds[i]))
  {
  }

  /** A fetch is issued exactly when the baseline is not a snapshot and its local verification
      threw; when the verification succeeds, no fetch is issued. */
  lemma FetchOnlyAfterFailedVerify(ref: string, cwd: string, exec: Oracle, before: seq<Command>)
    ensures var cmds := ResolutionCommands(ref, cwd, Resolve(ref, cwd, exec, before));
      (exists i :: 0 <= i < |cmds| && IsFetch(cmds[i])) <==>
        (!EndsWith(ref, SnapshotSuffix) && exec(before, VerifyCommand(ref, cwd)).Rejected?)
  {
    var cmds := ResolutionCommands(ref, cwd, Resolve(ref, cwd, exec, before));
    if !EndsWith(ref, SnapshotSuffix) && exec(before, VerifyCommand(ref, cwd)).Rejected? {
      assert IsFetch(cmds[1]);
    }
  }

  /** When a fetch is needed it goes to `TargetOf(ref)` with its refspec, after the verification,
      and a fetch that throws is absorbed into a warning naming the reference and the error. */
  lemma FetchedTarget(ref: string, cwd: string, exec: Oracle, before: seq<Command>)
    requires !EndsWith(ref, SnapshotSuffix)
    requires exec(before, VerifyCommand(ref, cwd)).Rejected?
    ensures var res := Resolve(ref, cwd, exec, before);
      var fetch := FetchCommand(TargetOf(ref), cwd);
      res.RemoteRef? && res.target == TargetOf(ref) &&
      ResolutionCommands(ref, cwd, res) == [VerifyCommand(ref, cwd), fetch] &&
      fetch.program == "git" && fetch.cwd == cwd && fetch.ignoreReturnCode &&
      fetch.args == ["fetch", "--no-tags", "--prune", "--depth=1", TargetOf(ref).remote, Refspec(TargetOf(ref))] &&
      (res.status.FetchFailed? <==> exec(before + [VerifyCommand(ref, cwd)], fetch).Rejected?) &&
      (res.status.FetchFailed? ==>
        res.status.warning == "Failed to fetch ref \"" + ref + "\": " + Describe(exec(before + [VerifyCommand(ref, cwd)], fetch).thrown))
  {
  }

  /** Against an environment that honours `@actions/exec`'s exit-code rule, a baseline counts as
      present locally only when `git rev-parse --verify` exited with 0. */
  lemma LocalRefMeansVerified(ref: string, cwd: string, exec: Oracle, before: seq<Command>)
    requires HonoursReturnCode(exec)
    requires Resolve(ref, cwd, exec, before) == LocalRef
    ensures !VerifyCommand(ref, cwd).ignoreReturnCode
    ensures exec(before, VerifyCommand(ref, cwd)).Resolved?
    ensures exec(before, VerifyCommand(ref, cwd)).exitCode == 0
  {
  }
}
