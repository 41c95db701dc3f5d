/**
 * What `Repository` (src/git.rs) makes of a git process: the mapping of the
 * process outcome to `GitError`, and the parsers of the text `git branch` and
 * `git status --short` print. Running the process is left to the abstract
 * repository (module Repo), which renders that text from its state.
 */
module GitOutput {
  import opened Wrappers
  import opened Text

  /** `GitError`: why a git command gave no output. */
  datatype GitError = FailedToRunGit | CommandFailed(exitCode: int) | TerminatedBySignal

  /** `std::process::ExitStatus`: an exit code, or none when a signal ended the process. */
  datatype ExitStatus = Code(code: int) | Signal

  /** What starting `git` produced: nothing (it could not be started), or a status and stdout. */
  datatype ProcessOutcome = SpawnFailed | Exited(status: ExitStatus, stdout: string)

  /** The end of `Repository::git`: a process outcome as the result of the command. */
  function GitResult(outcome: ProcessOutcome): (r: Result<string, GitError>)
    ensures r.Ok? <==> outcome.Exited? && outcome.status == Code(0)
    ensures r.Ok? ==> r.value == outcome.stdout
    ensures r == Err(FailedToRunGit) <==> outcome.SpawnFailed?
    ensures r == Err(TerminatedBySignal) <==> outcome.Exited? && outcome.status.Signal?
    ensures (r.Err? && r.error.CommandFailed?) <==>
              (outcome.Exited? && outcome.status.Code? && outcome.status.code != 0)
    ensures r.Err? && r.error.CommandFailed? ==> r.error.exitCode == outcome.status.code
  {
    match outcome
    case SpawnFailed => Err(FailedToRunGit)
    case Exited(status, stdout) =>
      if status == Code(0) then Ok(stdout)
      else
        match status
        case Code(c) => Err(CommandFailed(c))
        case Signal => Err(TerminatedBySignal)
  }

  // ------------------------------------------------------------ git branch

  /** `git branch` prefixes a branch checked out in another worktree with this. */
  const WorktreeBranchPrefix := "+ "

  /** Every line has the two-character marker `line.get(2..)` expects (it panics otherwise). */
  predicate ListingOk(lines: seq<string>) {
    forall i :: 0 <= i < |lines| ==> |lines[i]| >= 2
  }

  /**
   * The branches `list_branches_internal` reads from the lines of `git branch`:
   * a line of a branch checked out in another worktree is skipped, every other
   * line loses its two-character marker, and the order is kept.
   */
  function ListedBranches(lines: seq<string>): seq<string>
    requires ListingOk(lines)
  {
    if lines == [] then []
    else
      (if StartsWith(lines[0], WorktreeBranchPrefix) then [] else [lines[0][2..]])
      + ListedBranches(lines[1..])
  }

  lemma {:induction false} ListedBranchesAppend(a: seq<string>, b: seq<string>)
    requires ListingOk(a) && ListingOk(b)
    ensures ListingOk(a + b)
    ensures ListedBranches(a + b) == ListedBranches(a) + ListedBranches(b)
  {
    if a != [] {
      assert (a + b)[1..] == a[1..] + b;
      ListedBranchesAppend(a[1..], b);
    } else {
      assert a + b == b;
    }
  }

  /** `list_branches_internal`, given the result of `git branch <args>`. */
  method ListBranchesInternal(stdout: Result<string, GitError>) returns (r: Result<seq<string>, GitError>)
    requires stdout.Ok? ==> ListingOk(Lines(stdout.value))
    ensures stdout.Err? ==> r == Err(stdout.error)
    ensures stdout.Ok? ==> r == Ok(ListedBranches(Lines(stdout.value)))
  {
    if stdout.Err? {
      return Err(stdout.error);
    }
    var lines := Lines(stdout.value);
    var branches: seq<string> := [];
    for i := 0 to |lines|
      invariant branches == ListedBranches(lines[..i])
    {
      assert lines[..i + 1] == lines[..i] + [lines[i]];
      ListedBranchesAppend(lines[..i], [lines[i]]);
      var line := lines[i];
      if StartsWith(line, WorktreeBranchPrefix) {
        continue;
      }
      branches := branches + [line[2..]];
    }
    assert lines[..|lines|] == lines;
    return Ok(branches);
  }

  /** A listed `git branch -v` line has a name and a sha1 token (`unwrap` panics otherwise). */
  predicate HasNameAndSha1(line: string) {
    |SplitWhitespace(line)| >= 2
  }

  /** The first two whitespace-separated tokens of a `git branch -v` line. */
  function NameAndSha1(line: string): (string, string)
    requires HasNameAndSha1(line)
  {
    var tokens := SplitWhitespace(line);
    (tokens[0], tokens[1])
  }

  /** `list_branches_with_sha1s`: one (name, sha1) pair per listed branch line, in order. */
  method ListBranchesWithSha1s(stdout: Result<string, GitError>) returns (r: Result<seq<(string, string)>, GitError>)
    requires stdout.Ok? ==> ListingOk(Lines(stdout.value))
    requires stdout.Ok? ==> forall line :: line in ListedBranches(Lines(stdout.value)) ==> HasNameAndSha1(line)
    ensures stdout.Err? ==> r == Err(stdout.error)
    ensures stdout.Ok? ==> r.Ok? && |r.value| == |ListedBranches(Lines(stdout.value))|
    ensures stdout.Ok? ==> forall i :: 0 <= i < |r.value| ==>
              r.value[i] == NameAndSha1(ListedBranches(Lines(stdout.value))[i])
  {
    var lines := ListBranchesInternal(stdout);
    if lines.Err? {
      return Err(lines.error);
    }
    var listed := lines.value;
    assert forall j :: 0 <= j < |listed| ==> HasNameAndSha1(listed[j]);
    var list := NamesAndSha1s(listed);
    return Ok(list);
  }

  /** The loop of `list_branches_with_sha1s`: the first two tokens of every line, in order. */
  method NamesAndSha1s(listed: seq<string>) returns (list: seq<(string, string)>)
    requires forall j :: 0 <= j < |listed| ==> HasNameAndSha1(listed[j])
    ensures |list| == |listed|
    ensures forall j :: 0 <= j < |listed| ==> list[j] == NameAndSha1(listed[j])
  {
    list := [];
    for i := 0 to |listed|
      invariant |list| == i
      invariant forall j :: 0 <= j < i ==> list[j] == NameAndSha1(listed[j])
    {
      var it := SplitWhitespace(listed[i]);
      list := list + [(it[0], it[1])];
    }
  }

  // ------------------------------------------------------- git branch -vv

  /** A `git branch -vv` line that `list_tracking_branches` keeps: it names an `origin` upstream that is not gone. */
  predicate IsTrackingLine(line: string) {
    Contains(line, "[origin/") && !Contains(line, ": gone]")
  }

  /** What `list_tracking_branches` keeps of the listed lines: the text before the first space of each tracking line. */
  function TrackingBranches(listed: seq<string>): seq<string> {
    if listed == [] then []
    else
      (if IsTrackingLine(listed[0]) then [BeforeSpace(listed[0])] else [])
      + TrackingBranches(listed[1..])
  }

  lemma {:induction false} TrackingBranchesAppend(a: seq<string>, b: seq<string>)
    ensures TrackingBranches(a + b) == TrackingBranches(a) + TrackingBranches(b)
  {
    if a != [] {
      assert (a + b)[1..] == a[1..] + b;
      TrackingBranchesAppend(a[1..], b);
    } else {
      assert a + b == b;
    }
  }

  /** A name is returned exactly when it is the start of a tracking line, and no more names than lines. */
  lemma {:induction false} TrackingBranchesMembers(listed: seq<string>)
    ensures |TrackingBranches(listed)| <= |listed|
    ensures forall b :: b in TrackingBranches(listed) <==>
              exists i :: 0 <= i < |listed| && IsTrackingLine(listed[i]) && b == BeforeSpace(listed[i])
  {
    if listed != [] {
      TrackingBranchesMembers(listed[1..]);
      forall b | b in TrackingBranches(listed[1..])
        ensures exists i :: 0 <= i < |listed| && IsTrackingLine(listed[i]) && b == BeforeSpace(listed[i])
      {
        var i :| 0 <= i < |listed[1..]| && IsTrackingLine(listed[1..][i]) && b == BeforeSpace(listed[1..][i]);
        assert listed[i + 1] == listed[1..][i];
      }
      forall i | 0 <= i < |listed| && IsTrackingLine(listed[i])
        ensures BeforeSpace(listed[i]) in TrackingBranches(listed)
      {
        if i > 0 {
          assert listed[1..][i - 1] == listed[i];
        }
      }
    }
  }

  /** `list_tracking_branches`, given the result of `git branch -vv`. */
  method ListTrackingBranches(stdout: Result<string, GitError>) returns (r: Result<seq<string>, GitError>)
    requires stdout.Ok? ==> ListingOk(Lines(stdout.value))
    ensures stdout.Err? ==> r == Err(stdout.error)
    ensures stdout.Ok? ==> r == Ok(TrackingBranches(ListedBranches(Lines(stdout.value))))
  {
    var lines := ListBranchesInternal(stdout);
    if lines.Err? {
      return Err(lines.error);
    }
    var listed := lines.value;
    var branches: seq<string> := [];
    for i := 0 to |listed|
      invariant branches == TrackingBranches(listed[..i])
    {
      assert listed[..i + 1] == listed[..i] + [listed[i]];
      TrackingBranchesAppend(listed[..i], [listed[i]]);
      var line := listed[i];
      if Contains(line, "[origin/") && !Contains(line, ": gone]") {
        branches := branches + [BeforeSpace(line)];
      }
    }
    assert listed[..|listed|] == listed;
    return Ok(branches);
  }

  // --------------------------------------------------- the current branch

  /** The first line starting with '*' has the two characters `line[2..]` needs (it panics otherwise). */
  predicate StarredOk(lines: seq<string>) {
    lines == [] || (if StartsWith(lines[0], "*") then |lines[0]| >= 2 else StarredOk(lines[1..]))
  }

  /** The branch `get_current_branch` reads: the first line starting with '*', without its marker. */
  function StarredBranch(lines: seq<string>): (r: Option<string>)
    requires StarredOk(lines)
    ensures r.None? <==> forall i :: 0 <= i < |lines| ==> !StartsWith(lines[i], "*")
    ensures r.Some? ==>
              exists k :: 0 <= k < |lines| && StartsWith(lines[k], "*") && |lines[k]| >= 2
                && r.value == lines[k][2..]
                && forall i :: 0 <= i < k ==> !StartsWith(lines[i], "*")
  {
    if lines == [] then None
    else if StartsWith(lines[0], "*") then Some(lines[0][2..])
    else
      var r := StarredBranch(lines[1..]);
      assert forall i :: 1 <= i < |lines| ==> lines[i] == lines[1..][i - 1];
      r
  }

  /** `get_current_branch`, given the result of `git branch`: none when git fails or no line is starred. */
  method GetCurrentBranch(stdout: Result<string, GitError>) returns (current: Option<string>)
    requires stdout.Ok? ==> StarredOk(Lines(stdout.value))
    ensures stdout.Err? ==> current.None?
    ensures stdout.Ok? ==> current == StarredBranch(Lines(stdout.value))
  {
    if stdout.Err? {
      return None;
    }
    var lines := Lines(stdout.value);
    for i := 0 to |lines|
      invariant StarredOk(lines[i..])
      invariant StarredBranch(lines) == StarredBranch(lines[i..])
    {
      assert lines[i..][1..] == lines[i + 1..];
      if StartsWith(lines[i], "*") {
        return Some(lines[i][2..]);
      }
    }
    return None;
  }

  // --------------------------------------------------- git status --short

  /** `has_changes`: the working tree has changes exactly when `git status --short` prints something. */
  function HasChanges(status: Result<string, GitError>): (r: Result<bool, GitError>)
    ensures status.Err? ==> r == Err(status.error)
    ensures status.Ok? ==> r.Ok? && (r.value <==> status.value != [])
  {
    match status
    case Err(e) => Err(e)
    case Ok(out) => Ok(out != [])
  }
}
