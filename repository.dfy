/**
 * An abstract git repository standing in for the `git` process behind
 * `Repository` (src/git.rs), and `BranchRestorer`.
 *
 * The repository holds the local branches, the checked-out branch, and what the
 * core only reads (the worktrees, tips, subjects, upstreams and reachability).
 * A read-only command prints the text git would print for that state, or fails
 * as the environment decides (`World.queryFault`); that text goes through the
 * parsers of module GitOutput, and the round-trip lemmas below say what the
 * parsers recover. A state-changing command (checkout, branch -D, merge, fetch)
 * fails when git refuses it or when the environment makes it fail; the failures
 * the environment has in store are the sequence `faults`, one entry per
 * command, so every statement about a run holds for every way commands can fail.
 * Each state-changing command is recorded in the ghost `log`.
 */
module Repo {
  import opened Wrappers
  import opened Text
  import opened GitOutput

  /** A non-zero exit code. */
  type FailureCode = c: int | c != 0 witness 1

  /** How the environment can make a git command fail. */
  datatype Fault = CannotSpawn | ExitsWith(code: FailureCode) | Killed

  function FaultOutcome(f: Fault): (o: ProcessOutcome)
    ensures GitResult(o).Err?
  {
    match f
    case CannotSpawn => SpawnFailed
    case ExitsWith(c) => Exited(Code(c), "")
    case Killed => Exited(Signal, "")
  }

  function FaultError(f: Fault): GitError {
    GitResult(FaultOutcome(f)).error
  }

  /** The read-only git commands of the core. */
  datatype Query =
    | ListQuery                      // git branch
    | VerboseQuery                   // git branch -v
    | TrackingQuery                  // git branch -vv
    | ContainsQuery(commit: string)  // git branch --contains <commit>
    | MergedQuery(branch: string)    // git branch --merged <branch>
    | StatusQuery                    // git status --short

  /** The upstream of a branch; `gone` when the remote branch was deleted. */
  datatype Upstream = Upstream(remote: string, branch: string, gone: bool)

  /** What the core reads of the repository and never changes. */
  datatype World = World(
    worktree: set<string>,                // branches checked out in another worktree
    tips: string -> string,               // the sha1 each branch points to
    subjects: string -> string,           // the subject of each branch's tip commit
    upstreams: string -> Option<Upstream>,
    reaches: (string, string) -> bool,    // reaches(c, b): the tip of b is reachable from the tip of c
    changes: seq<string>,                 // the lines `git status --short` prints
    queryFault: Query -> Option<Fault>)   // the failure, if any, of each read-only command

  /** A state-changing git command as it was issued, and whether it succeeded. */
  datatype Op = CheckoutOp(branch: string, ok: bool) | DeleteOp(branch: string, ok: bool) | MergeOp(ok: bool) | FetchOp(ok: bool)

  // ------------------------------------------------------- well-formedness

  /** A name git accepts for a ref: no whitespace, no '[' and no ':'. */
  predicate RefName(s: string) {
    s != [] && NoWhitespace(s) && Lacks(s, '[') && Lacks(s, ':')
  }

  predicate SubjectOk(s: string) {
    Lacks(s, '\n') && Lacks(s, '\r')
  }

  predicate UpstreamOk(u: Option<Upstream>) {
    u.Some? ==> RefName(u.value.remote) && Lacks(u.value.remote, '/') && RefName(u.value.branch)
  }

  /** A branch, its tip, subject and upstream are printable. */
  predicate BranchOk(w: World, b: string) {
    RefName(b) && RefName(w.tips(b)) && SubjectOk(w.subjects(b)) && UpstreamOk(w.upstreams(b))
  }

  /** Every branch is printable, and the checked-out branch is not in another worktree. */
  predicate WellFormed(w: World, current: Option<string>, branches: seq<string>) {
    (forall b :: b in branches ==> BranchOk(w, b))
    && (current.Some? ==> current.value !in w.worktree)
  }

  // ------------------------------------------------------------ branch sets

  /** The branches `git branch` lists without the worktree marker. */
  function Visible(w: World, bs: seq<string>): (r: seq<string>)
    ensures forall x :: x in r <==> x in bs && x !in w.worktree
  {
    if bs == [] then []
    else (if bs[0] in w.worktree then [] else [bs[0]]) + Visible(w, bs[1..])
  }

  /** The branches that contain `commit`, in order. */
  function Reaching(w: World, bs: seq<string>, commit: string): (r: seq<string>)
    ensures forall x :: x in r <==> x in bs && w.reaches(x, commit)
  {
    if bs == [] then []
    else (if w.reaches(bs[0], commit) then [bs[0]] else []) + Reaching(w, bs[1..], commit)
  }

  /** The branches merged into `branch`, in order. */
  function MergedInto(w: World, bs: seq<string>, branch: string): (r: seq<string>)
    ensures forall x :: x in r <==> x in bs && w.reaches(branch, x)
  {
    if bs == [] then []
    else (if w.reaches(branch, bs[0]) then [bs[0]] else []) + MergedInto(w, bs[1..], branch)
  }

  /** The branches that follow a live upstream on `origin`. */
  predicate OriginTracked(u: Option<Upstream>) {
    u.Some? && u.value.remote == "origin" && !u.value.gone
  }

  function Tracked(w: World, bs: seq<string>): (r: seq<string>)
    ensures forall x :: x in r <==> x in bs && OriginTracked(w.upstreams(x))
  {
    if bs == [] then []
    else (if OriginTracked(w.upstreams(bs[0])) then [bs[0]] else []) + Tracked(w, bs[1..])
  }

  /** `bs` without `b`. */
  function Remove(bs: seq<string>, b: string): (r: seq<string>)
    ensures forall x :: x in r <==> x in bs && x != b
    ensures |r| <= |bs|
  {
    if bs == [] then []
    else (if bs[0] == b then [] else [bs[0]]) + Remove(bs[1..], b)
  }

  function Sha1Pairs(w: World, bs: seq<string>): (r: seq<(string, string)>)
    ensures |r| == |bs| && forall i :: 0 <= i < |bs| ==> r[i] == (bs[i], w.tips(bs[i]))
  {
    seq(|bs|, i requires 0 <= i < |bs| => (bs[i], w.tips(bs[i])))
  }

  // -------------------------------------------------- what git prints

  /** The listings of `git branch` the core reads: plain, `-v` and `-vv`. */
  datatype Listing = Plain | Verbose | Tracking

  /** The two characters before a branch name in a listing. */
  function Marker(w: World, current: Option<string>, b: string): (m: string)
    ensures |m| == 2 && m[1] == ' ' && IsLine(m)
    ensures m[0] == '*' <==> current == Some(b)
    ensures m == WorktreeBranchPrefix <==> current != Some(b) && b in w.worktree
  {
    if current == Some(b) then "* " else if b in w.worktree then "+ " else "  "
  }

  function GoneMark(up: Upstream): string {
    if up.gone then ": gone" else ""
  }

  /**
   * How `git branch -vv` shows the upstream of a branch, then its subject.
   * Git also writes `: ahead N, behind M` inside the brackets when the branch
   * and its upstream have diverged; this rendering leaves that annotation out,
   * and only the `: gone` mark of a deleted upstream is modelled.
   */
  function Annotated(u: Option<Upstream>, subject: string): string {
    match u
    case None => subject
    case Some(up) => "[" + (up.remote + ("/" + (up.branch + (GoneMark(up) + ("] " + subject)))))
  }

  /** What a listing shows of a branch after its marker. */
  function Body(w: World, kind: Listing, b: string): string {
    match kind
    case Plain => b
    case Verbose => b + (" " + (w.tips(b) + (" " + w.subjects(b))))
    case Tracking => b + (" " + (w.tips(b) + (" " + Annotated(w.upstreams(b), w.subjects(b)))))
  }

  /** One line per branch: its marker, then what the listing shows of it. */
  function Rendered(w: World, current: Option<string>, bs: seq<string>, kind: Listing): (lines: seq<string>)
    ensures |lines| == |bs|
    ensures forall i :: 0 <= i < |bs| ==> lines[i] == Marker(w, current, bs[i]) + Body(w, kind, bs[i])
  {
    if bs == [] then []
    else [Marker(w, current, bs[0]) + Body(w, kind, bs[0])] + Rendered(w, current, bs[1..], kind)
  }

  function Bodies(w: World, kind: Listing, bs: seq<string>): (r: seq<string>)
    ensures |r| == |bs| && forall i :: 0 <= i < |bs| ==> r[i] == Body(w, kind, bs[i])
  {
    if bs == [] then [] else [Body(w, kind, bs[0])] + Bodies(w, kind, bs[1..])
  }

  /** The standard output of a read-only command that succeeds. */
  function Output(w: World, current: Option<string>, bs: seq<string>, q: Query): string {
    match q
    case ListQuery => Unlines(Rendered(w, current, bs, Plain))
    case VerboseQuery => Unlines(Rendered(w, current, bs, Verbose))
    case TrackingQuery => Unlines(Rendered(w, current, bs, Tracking))
    case ContainsQuery(commit) => Unlines(Rendered(w, current, Reaching(w, bs, commit), Plain))
    case MergedQuery(branch) => Unlines(Rendered(w, current, MergedInto(w, bs, branch), Plain))
    case StatusQuery => Unlines(w.changes)
  }

  /** `Repository::git` for a read-only command. */
  function QueryResult(w: World, current: Option<string>, bs: seq<string>, q: Query): Result<string, GitError> {
    match w.queryFault(q)
    case Some(f) => GitResult(FaultOutcome(f))
    case None => GitResult(Exited(Code(0), Output(w, current, bs, q)))
  }

  /** The answer of a read-only command whose output means `v`. */
  function Answer<T>(w: World, q: Query, v: T): Result<T, GitError> {
    match w.queryFault(q)
    case Some(f) => Err(FaultError(f))
    case None => Ok(v)
  }

  /** A state-changing command: the environment's failure, else git's refusal (exit code 1), else success. */
  function CommandOutcome(fault: Option<Fault>, accepted: bool): (o: ProcessOutcome)
    ensures GitResult(o).Ok? <==> fault.None? && accepted
    ensures fault.Some? ==> GitResult(o) == Err(FaultError(fault.value))
  {
    match fault
    case Some(f) => FaultOutcome(f)
    case None => if accepted then Exited(Code(0), "") else Exited(Code(1), "")
  }

  /** The error of a state-changing command that fails: the environment's, else git's refusal. */
  function CommandError(fault: Option<Fault>): GitError {
    GitResult(CommandOutcome(fault, false)).error
  }

  /**
   * The failures of the environment are a prophecy `fs`: the `n`th
   * state-changing command from now fails with `FaultAt(fs, n)`, and
   * `Remaining(fs, n)` is what is left after `n` of them.
   */
  function FaultAt(fs: seq<Option<Fault>>, n: nat): Option<Fault> {
    if n < |fs| then fs[n] else None
  }

  function Remaining(fs: seq<Option<Fault>>, n: nat): (r: seq<Option<Fault>>)
    ensures n == 0 ==> r == fs
    ensures |r| == if n < |fs| then |fs| - n else 0
  {
    if n < |fs| then fs[n..] else []
  }

  /** Taking `m` commands, then `n` more, is taking `m + n`. */
  lemma RemainingAfter(fs: seq<Option<Fault>>, m: nat, n: nat)
    ensures Remaining(Remaining(fs, m), n) == Remaining(fs, m + n)
    ensures FaultAt(Remaining(fs, m), n) == FaultAt(fs, m + n)
  {
    if m + n < |fs| {
      assert fs[m..][n..] == fs[m + n..];
    }
  }

  // --------------------------------------------------------- round trips

  lemma WellFormedSublist(w: World, current: Option<string>, bs: seq<string>, sub: seq<string>)
    requires WellFormed(w, current, bs)
    requires forall x :: x in sub ==> x in bs
    ensures WellFormed(w, current, sub)
  {
  }

  lemma LacksAppend(a: string, b: string, c: char)
    ensures Lacks(a + b, c) <==> Lacks(a, c) && Lacks(b, c)
  {
    if Lacks(a, c) && Lacks(b, c) {
      forall i | 0 <= i < |a + b| ensures (a + b)[i] != c {
        if i >= |a| {
          assert (a + b)[i] == b[i - |a|];
        }
      }
    }
    if Lacks(a + b, c) {
      forall i | 0 <= i < |a| ensures a[i] != c {
        assert (a + b)[i] == a[i];
      }
      forall i | 0 <= i < |b| ensures b[i] != c {
        assert (a + b)[|a| + i] == b[i];
      }
    }
  }

  lemma LineConcat(x: string, y: string)
    requires IsLine(x) && IsLine(y)
    ensures IsLine(x + y)
  {
    LacksAppend(x, y, '\n');
    if y == [] {
      assert x + y == x;
    } else {
      assert (x + y)[|x + y| - 1] == y[|y| - 1];
    }
  }

  lemma RefNameIsLine(s: string)
    requires RefName(s)
    ensures IsLine(s) && Lacks(s, '\r')
  {
    assert IsWhitespace('\n') && IsWhitespace('\r');
  }

  /** How `git branch -vv` shows a printable upstream and subject is a single line. */
  lemma AnnotatedIsLine(u: Option<Upstream>, subject: string)
    requires UpstreamOk(u) && IsLine(subject)
    ensures IsLine(Annotated(u, subject))
  {
    if u.Some? {
      var up := u.value;
      RefNameIsLine(up.remote);
      RefNameIsLine(up.branch);
      assert IsLine("[") && IsLine("/") && IsLine(GoneMark(up)) && IsLine("] ");
      LineConcat("] ", subject);
      LineConcat(GoneMark(up), "] " + subject);
      LineConcat(up.branch, GoneMark(up) + ("] " + subject));
      LineConcat("/", up.branch + (GoneMark(up) + ("] " + subject)));
      LineConcat(up.remote, "/" + (up.branch + (GoneMark(up) + ("] " + subject))));
      LineConcat("[", up.remote + ("/" + (up.branch + (GoneMark(up) + ("] " + subject)))));
    }
  }

  /** What a listing shows of a well-formed branch is a single line. */
  lemma BodyIsLine(w: World, kind: Listing, b: string)
    requires BranchOk(w, b)
    ensures IsLine(Body(w, kind, b))
  {
    RefNameIsLine(b);
    if kind != Plain {
      var tip, subject := w.tips(b), w.subjects(b);
      RefNameIsLine(tip);
      assert IsLine(" ") && IsLine(subject);
      var shown := if kind == Tracking then Annotated(w.upstreams(b), subject) else subject;
      AnnotatedIsLine(w.upstreams(b), subject);
      LineConcat(" ", shown);
      LineConcat(tip, " " + shown);
      LineConcat(" ", tip + (" " + shown));
      LineConcat(b, " " + (tip + (" " + shown)));
    }
  }

  /** Rendered lines are lines `str::lines` gives back unchanged. */
  lemma RenderedAreLines(w: World, current: Option<string>, bs: seq<string>, kind: Listing)
    requires forall b :: b in bs ==> BranchOk(w, b)
    ensures Lines(Unlines(Rendered(w, current, bs, kind))) == Rendered(w, current, bs, kind)
  {
    var lines := Rendered(w, current, bs, kind);
    forall i | 0 <= i < |lines| ensures IsLine(lines[i]) {
      assert bs[i] in bs;
      BodyIsLine(w, kind, bs[i]);
      LineConcat(Marker(w, current, bs[i]), Body(w, kind, bs[i]));
    }
    LinesUnlines(lines);
  }

  /** A listed line loses exactly its two-character marker. */
  lemma MarkedLine(m: string, t: string)
    requires |m| == 2
    ensures |m + t| >= 2 && (m + t)[2..] == t
    ensures StartsWith(m + t, WorktreeBranchPrefix) <==> m == WorktreeBranchPrefix
    ensures StartsWith(m + t, "*") <==> m[0] == '*'
  {
    assert (m + t)[..2] == m;
    assert (m + t)[..1] == m[..1];
  }

  /** `list_branches_internal` recovers what the listing shows of every branch outside other worktrees. */
  lemma {:induction false} ListedRendered(w: World, current: Option<string>, bs: seq<string>, kind: Listing)
    requires current.Some? ==> current.value !in w.worktree
    ensures ListingOk(Rendered(w, current, bs, kind))
    ensures ListedBranches(Rendered(w, current, bs, kind)) == Bodies(w, kind, Visible(w, bs))
  {
    if bs != [] {
      var b := bs[0];
      var line := Marker(w, current, b) + Body(w, kind, b);
      var tail := Rendered(w, current, bs[1..], kind);
      var lines := Rendered(w, current, bs, kind);
      assert lines == [line] + tail;
      assert lines[0] == line && lines[1..] == tail;
      ListedRendered(w, current, bs[1..], kind);
      MarkedLine(Marker(w, current, b), Body(w, kind, b));
      var rest := Visible(w, bs[1..]);
      if b in w.worktree {
        assert ListedBranches(lines) == ListedBranches(tail);
        assert Visible(w, bs) == rest;
      } else {
        assert ListedBranches(lines) == [Body(w, kind, b)] + ListedBranches(tail);
        assert Visible(w, bs) == [b] + rest;
        assert ([b] + rest)[1..] == rest;
        assert Bodies(w, kind, [b] + rest) == [Body(w, kind, b)] + Bodies(w, kind, rest);
      }
    }
  }

  /** `get_current_branch` finds the checked-out branch exactly when it is listed. */
  lemma {:induction false} StarredRendered(w: World, current: Option<string>, bs: seq<string>, kind: Listing)
    ensures StarredOk(Rendered(w, current, bs, kind))
    ensures StarredBranch(Rendered(w, current, bs, kind))
              == if current.Some? && current.value in bs then Some(Body(w, kind, current.value)) else None
  {
    if bs != [] {
      var lines := Rendered(w, current, bs, kind);
      var b := bs[0];
      assert lines[1..] == Rendered(w, current, bs[1..], kind);
      StarredRendered(w, current, bs[1..], kind);
      MarkedLine(Marker(w, current, b), Body(w, kind, b));
      assert current.Some? && current.value in bs && current != Some(b) ==> current.value in bs[1..];
    }
  }

  /** `git branch` read back: the listed branches are the visible ones, and the starred one is current. */
  lemma {:induction false} PlainListingRoundTrip(w: World, current: Option<string>, bs: seq<string>)
    requires WellFormed(w, current, bs)
    ensures ListingOk(Lines(Unlines(Rendered(w, current, bs, Plain))))
    ensures ListedBranches(Lines(Unlines(Rendered(w, current, bs, Plain)))) == Visible(w, bs)
    ensures StarredOk(Lines(Unlines(Rendered(w, current, bs, Plain))))
    ensures StarredBranch(Lines(Unlines(Rendered(w, current, bs, Plain))))
              == if current.Some? && current.value in bs then current else None
  {
    RenderedAreLines(w, current, bs, Plain);
    ListedRendered(w, current, bs, Plain);
    StarredRendered(w, current, bs, Plain);
    var vis := Visible(w, bs);
    assert Bodies(w, Plain, vis) == vis;
  }

  /**
   * A read-only command whose output is the plain listing of `shown`: when it
   * succeeds, `list_branches_internal` reads back the visible branches of
   * `shown` and `get_current_branch` the current one, if listed; when it
   * fails, the error is the environment's.
   */
  lemma PlainQuery(w: World, current: Option<string>, bs: seq<string>, q: Query, shown: seq<string>)
    requires WellFormed(w, current, shown)
    requires Output(w, current, bs, q) == Unlines(Rendered(w, current, shown, Plain))
    ensures var out := QueryResult(w, current, bs, q);
            (out.Err? <==> w.queryFault(q).Some?)
            && (out.Err? ==> Answer(w, q, Visible(w, shown)) == Err(out.error))
            && (out.Ok? ==> ListingOk(Lines(out.value)) && StarredOk(Lines(out.value))
                            && Answer(w, q, Visible(w, shown)) == Ok(ListedBranches(Lines(out.value)))
                            && StarredBranch(Lines(out.value))
                                 == if current.Some? && current.value in shown then current else None)
  {
    match w.queryFault(q)
    case Some(f) =>
      var out := QueryResult(w, current, bs, q);
      assert out == GitResult(FaultOutcome(f));
      assert out.Err? && out.error == FaultError(f);
      assert Answer(w, q, Visible(w, shown)) == Err(FaultError(f));
    case None =>
      var text := Unlines(Rendered(w, current, shown, Plain));
      PlainListingRoundTrip(w, current, shown);
      assert QueryResult(w, current, bs, q) == Ok(text);
      assert Answer(w, q, Visible(w, shown)) == Ok(Visible(w, shown));
  }

  /** When `git branch -vv` succeeds, every line of its output has its two-character marker. */
  lemma TrackingQueryParses(w: World, current: Option<string>, bs: seq<string>)
    requires WellFormed(w, current, bs)
    ensures var out := QueryResult(w, current, bs, TrackingQuery);
            out.Ok? ==> ListingOk(Lines(out.value))
  {
    TrackingListingOk(w, current, bs);
  }

  /** `list_tracking_branches` applied to what `git branch -vv` gives in a state. */
  function TrackingResult(w: World, current: Option<string>, bs: seq<string>): (r: Result<seq<string>, GitError>)
    requires WellFormed(w, current, bs)
    ensures r.Err? <==> w.queryFault(TrackingQuery).Some?
    ensures r.Err? ==> r.error == FaultError(w.queryFault(TrackingQuery).value)
  {
    TrackingQueryParses(w, current, bs);
    match QueryResult(w, current, bs, TrackingQuery)
    case Err(e) => Err(e)
    case Ok(out) => Ok(TrackingBranches(ListedBranches(Lines(out))))
  }

  /** Each `git branch -v` body starts with the branch name and its sha1. */
  lemma VerboseTokens(w: World, b: string)
    requires BranchOk(w, b)
    ensures HasNameAndSha1(Body(w, Verbose, b)) && NameAndSha1(Body(w, Verbose, b)) == (b, w.tips(b))
  {
    TwoTokens(b, w.tips(b), w.subjects(b));
  }

  /** `git branch -v` read back: one (name, sha1) pair per visible branch, in order. */
  lemma {:induction false} VerboseListingRoundTrip(w: World, current: Option<string>, bs: seq<string>)
    requires WellFormed(w, current, bs)
    ensures ListingOk(Lines(Unlines(Rendered(w, current, bs, Verbose))))
    ensures var listed := ListedBranches(Lines(Unlines(Rendered(w, current, bs, Verbose))));
            (forall line :: line in listed ==> HasNameAndSha1(line))
            && |listed| == |Visible(w, bs)|
            && forall i :: 0 <= i < |listed| ==> NameAndSha1(listed[i]) == Sha1Pairs(w, Visible(w, bs))[i]
  {
    RenderedAreLines(w, current, bs, Verbose);
    ListedRendered(w, current, bs, Verbose);
    var vis := Visible(w, bs);
    forall i | 0 <= i < |vis|
      ensures HasNameAndSha1(Body(w, Verbose, vis[i])) && NameAndSha1(Body(w, Verbose, vis[i])) == (vis[i], w.tips(vis[i]))
    {
      assert vis[i] in bs;
      VerboseTokens(w, vis[i]);
    }
  }

  // ------------------------------------------------- tracking round trip

  /** A commit subject that does not itself look like an upstream annotation. */
  predicate PlainSubject(s: string) {
    !Contains(s, "[origin/") && !Contains(s, ": gone]")
  }

  /** In a remote name followed by '/', that '/' is the first one. */
  lemma FirstSlash(remote: string, rest: string)
    requires Lacks(remote, '/')
    ensures IndexOf(remote + ("/" + rest), '/') == |remote|
  {
    var s := remote + ("/" + rest);
    assert s[|remote|] == '/';
    assert forall i :: 0 <= i < |remote| ==> s[i] == remote[i];
  }

  lemma OriginPrefix(remote: string, rest: string)
    requires Lacks(remote, '/')
    ensures StartsWith("[" + (remote + ("/" + rest)), "[origin/") <==> remote == "origin"
  {
    var s := "[" + (remote + ("/" + rest));
    if StartsWith(s, "[origin/") {
      var t := s[1..];
      assert t == remote + ("/" + rest);
      assert t == "origin" + ("/" + s[8..]);
      FirstSlash(remote, rest);
      FirstSlash("origin", s[8..]);
      assert remote == t[..6];
    }
  }

  lemma TrackingListingOk(w: World, current: Option<string>, bs: seq<string>)
    requires WellFormed(w, current, bs)
    ensures ListingOk(Lines(Unlines(Rendered(w, current, bs, Tracking))))
  {
    RenderedAreLines(w, current, bs, Tracking);
    ListedRendered(w, current, bs, Tracking);
  }

  /** The -vv line of a branch names an origin upstream that is not gone exactly when it has one. */
  lemma TrackingBodyLine(w: World, b: string)
    requires BranchOk(w, b) && PlainSubject(w.subjects(b))
    ensures IsTrackingLine(Body(w, Tracking, b)) <==> OriginTracked(w.upstreams(b))
    ensures BeforeSpace(Body(w, Tracking, b)) == b
  {
    var tip, u := w.tips(b), w.upstreams(b);
    var shown := Annotated(u, w.subjects(b));
    assert Contains(shown, "[origin/") <==> u.Some? && u.value.remote == "origin" by {
      if u.Some? {
        OriginAnnotation(u.value, w.subjects(b));
      }
    }
    assert Contains(shown, ": gone]") <==> u.Some? && u.value.gone by {
      if u.Some? {
        GoneAnnotation(u.value, w.subjects(b));
      }
    }
    SkipName(b, tip, shown, "[origin/");
    SkipName(b, tip, shown, ": gone]");
    var line := Body(w, Tracking, b);
    assert line[|b|] == ' ';
    assert IndexOf(line, ' ') == |b| by {
      assert forall i :: 0 <= i < |b| ==> line[i] == b[i];
      assert IsWhitespace(' ');
    }
  }

  /** A pattern starting with '[' or ':' cannot occur in the name and tip of a -vv line. */
  lemma SkipName(b: string, tip: string, shown: string, pattern: string)
    requires RefName(b) && RefName(tip)
    requires pattern != [] && (pattern[0] == '[' || pattern[0] == ':')
    ensures Contains(b + (" " + (tip + (" " + shown))), pattern) <==> Contains(shown, pattern)
  {
    ContainsSkip(" ", shown, pattern);
    ContainsSkip(tip, " " + shown, pattern);
    ContainsSkip(" ", tip + (" " + shown), pattern);
    ContainsSkip(b, " " + (tip + (" " + shown)), pattern);
  }

  /** The text after the '[' of an annotation, with a plain subject, holds no "[origin/". */
  lemma AfterBracket(up: Upstream, subject: string)
    requires UpstreamOk(Some(up)) && PlainSubject(subject)
    ensures !Contains(up.remote + ("/" + (up.branch + (GoneMark(up) + ("] " + subject)))), "[origin/")
  {
    var p := "[origin/";
    ContainsSkip("] ", subject, p);
    ContainsSkip(GoneMark(up), "] " + subject, p);
    ContainsSkip(up.branch, GoneMark(up) + ("] " + subject), p);
    ContainsSkip("/", up.branch + (GoneMark(up) + ("] " + subject)), p);
    ContainsSkip(up.remote, "/" + (up.branch + (GoneMark(up) + ("] " + subject))), p);
  }

  /** An annotation followed by a plain subject names origin exactly when its remote is origin. */
  lemma OriginAnnotation(up: Upstream, subject: string)
    requires UpstreamOk(Some(up)) && PlainSubject(subject)
    ensures Contains(Annotated(Some(up), subject), "[origin/") <==> up.remote == "origin"
  {
    var rest := up.branch + (GoneMark(up) + ("] " + subject));
    var inner := up.remote + ("/" + rest);
    var s := Annotated(Some(up), subject);
    assert s == "[" + inner;
    assert s[1..] == inner;
    AfterBracket(up, subject);
    OriginPrefix(up.remote, rest);
  }

  /** An annotation followed by a plain subject says ": gone]" exactly when the upstream is gone. */
  lemma GoneAnnotation(up: Upstream, subject: string)
    requires UpstreamOk(Some(up)) && PlainSubject(subject)
    ensures Contains(Annotated(Some(up), subject), ": gone]") <==> up.gone
  {
    var p := ": gone]";
    var after := GoneMark(up) + ("] " + subject);
    if up.gone {
      assert after[..7] == p;
    } else {
      assert after == "] " + subject;
      ContainsSkip("] ", subject, p);
    }
    ContainsSkip(up.branch, after, p);
    ContainsSkip("/", up.branch + after, p);
    ContainsSkip(up.remote, "/" + (up.branch + after), p);
    ContainsSkip("[", up.remote + ("/" + (up.branch + after)), p);
  }

  lemma {:induction false} TrackingOfBodies(w: World, bs: seq<string>)
    requires forall b :: b in bs ==> BranchOk(w, b) && PlainSubject(w.subjects(b))
    ensures TrackingBranches(Bodies(w, Tracking, bs)) == Tracked(w, bs)
  {
    if bs != [] {
      assert Bodies(w, Tracking, bs)[1..] == Bodies(w, Tracking, bs[1..]);
      assert bs[0] in bs;
      TrackingBodyLine(w, bs[0]);
      TrackingOfBodies(w, bs[1..]);
    }
  }

  /**
   * `list_tracking_branches` finds exactly the listed branches with a live
   * upstream on origin, provided no commit subject looks like an annotation.
   */
  lemma {:induction false} TrackingListingRoundTrip(w: World, current: Option<string>, bs: seq<string>)
    requires WellFormed(w, current, bs)
    requires forall b :: b in bs ==> PlainSubject(w.subjects(b))
    ensures ListingOk(Lines(Unlines(Rendered(w, current, bs, Tracking))))
    ensures TrackingBranches(ListedBranches(Lines(Unlines(Rendered(w, current, bs, Tracking)))))
              == Tracked(w, Visible(w, bs))
  {
    RenderedAreLines(w, current, bs, Tracking);
    ListedRendered(w, current, bs, Tracking);
    TrackingOfBodies(w, Visible(w, bs));
  }

  /** With a subject that looks like an annotation, a branch without upstream is taken for a tracking branch. */
  lemma SubjectMistakenForUpstream(w: World)
    requires w.upstreams("t") == None
    requires w.tips("t") == "c0" && w.subjects("t") == "[origin/x]"
    ensures !OriginTracked(w.upstreams("t"))
    ensures IsTrackingLine(Body(w, Tracking, "t"))
  {
    var line := Body(w, Tracking, "t");
    assert line == "t c0 " + "[origin/x]";
    assert StartsWith("[origin/x]", "[origin/");
    ContainsSuffix("t c0 ", "[origin/x]", "[origin/");
    assert Lacks(line, ':');
    ContainsSkip(line, "", ": gone]");
    assert line + "" == line;
  }

  // ------------------------------------------------------------ the class

  class Repository {
    const world: World
    var branches: seq<string>
    var current: Option<string>
    var faults: seq<Option<Fault>>
    ghost var log: seq<Op>

    ghost predicate Valid()
      reads this`current, this`branches
    {
      WellFormed(world, current, branches)
    }

    constructor (world: World, branches: seq<string>, current: Option<string>, faults: seq<Option<Fault>>)
      requires WellFormed(world, current, branches)
      ensures Valid()
      ensures this.world == world && this.branches == branches && this.current == current
      ensures this.faults == faults && log == []
    {
      this.world := world;
      this.branches := branches;
      this.current := current;
      this.faults := faults;
      log := [];
    }

    /** `Repository::git` for a read-only command. */
    function Query(q: Query): Result<string, GitError>
      reads this`current, this`branches
    {
      QueryResult(world, current, branches, q)
    }

    /** What `list_branches` means: the branches not checked out in another worktree. */
    function BranchListAnswer(): Result<seq<string>, GitError>
      reads this`branches
    {
      Answer(world, ListQuery, Visible(world, branches))
    }

    function Sha1sAnswer(): Result<seq<(string, string)>, GitError>
      reads this`branches
    {
      Answer(world, VerboseQuery, Sha1Pairs(world, Visible(world, branches)))
    }

    /** What `list_branches_containing` means: the listed branches from which `commit` is reachable. */
    function ContainingAnswer(commit: string): Result<seq<string>, GitError>
      reads this`branches
    {
      Answer(world, ContainsQuery(commit), Visible(world, Reaching(world, branches, commit)))
    }

    /**
     * What `list_merged_branches` is taken to mean: the listed branches reachable
     * from `branch`. Its definition is not part of this model.
     */
    function MergedAnswer(branch: string): Result<seq<string>, GitError>
      reads this`branches
    {
      Answer(world, MergedQuery(branch), Visible(world, MergedInto(world, branches, branch)))
    }

    /** `list_tracking_branches` as the parser reads `git branch -vv`. */
    function TrackingAnswer(): (r: Result<seq<string>, GitError>)
      reads this`current, this`branches
      requires Valid()
      ensures r.Err? <==> world.queryFault(TrackingQuery).Some?
      ensures r.Err? ==> r.error == FaultError(world.queryFault(TrackingQuery).value)
    {
      TrackingResult(world, current, branches)
    }

    /** What `get_current_branch` means: the checked-out branch, when git lists it. */
    function CurrentBranchAnswer(): Option<string>
      reads this`current, this`branches
    {
      if world.queryFault(ListQuery).Some? then None
      else if current.Some? && current.value in branches then current
      else None
    }

    /** What `has_changes` means: whether `git status --short` lists anything. */
    function ChangesAnswer(): Result<bool, GitError>
      reads this
    {
      Answer(world, StatusQuery, world.changes != [])
    }

    function NextFault(): Option<Fault>
      reads this`faults
    {
      if faults == [] then None else faults[0]
    }

    function LaterFaults(): (r: seq<Option<Fault>>)
      reads this`faults
      ensures NextFault() == FaultAt(faults, 0) && r == Remaining(faults, 1)
    {
      if faults == [] then [] else faults[1..]
    }

    // --------------------------------------------- read-only commands

    method ListBranches() returns (r: Result<seq<string>, GitError>)
      requires Valid()
      ensures r == BranchListAnswer()
    {
      PlainQuery(world, current, branches, ListQuery, branches);
      r := ListBranchesInternal(Query(ListQuery));
    }

    method ListBranchesWithSha1s() returns (r: Result<seq<(string, string)>, GitError>)
      requires Valid()
      ensures r == Sha1sAnswer()
    {
      VerboseListingRoundTrip(world, current, branches);
      r := GitOutput.ListBranchesWithSha1s(Query(VerboseQuery));
      if r.Ok? {
        assert r.value == Sha1Pairs(world, Visible(world, branches));
      }
    }

    method ListBranchesContaining(commit: string) returns (r: Result<seq<string>, GitError>)
      requires Valid()
      ensures r == ContainingAnswer(commit)
    {
      var shown := Reaching(world, branches, commit);
      WellFormedSublist(world, current, branches, shown);
      PlainQuery(world, current, branches, ContainsQuery(commit), shown);
      r := ListBranchesInternal(Query(ContainsQuery(commit)));
    }

    /** `list_merged_branches`, assumed to read `git branch --merged <branch>` like the other listings. */
    method ListMergedBranches(branch: string) returns (r: Result<seq<string>, GitError>)
      requires Valid()
      ensures r == MergedAnswer(branch)
    {
      var shown := MergedInto(world, branches, branch);
      WellFormedSublist(world, current, branches, shown);
      PlainQuery(world, current, branches, MergedQuery(branch), shown);
      r := ListBranchesInternal(Query(MergedQuery(branch)));
    }

    method ListTrackingBranches() returns (r: Result<seq<string>, GitError>)
      requires Valid()
      ensures r == TrackingAnswer()
    {
      TrackingQueryParses(world, current, branches);
      r := GitOutput.ListTrackingBranches(Query(TrackingQuery));
    }

    method GetCurrentBranch() returns (r: Option<string>)
      requires Valid()
      ensures r == CurrentBranchAnswer()
    {
      PlainQuery(world, current, branches, ListQuery, branches);
      r := GitOutput.GetCurrentBranch(Query(ListQuery));
    }

    method HasChanges() returns (r: Result<bool, GitError>)
      ensures r == ChangesAnswer()
    {
      assert Output(world, current, branches, StatusQuery) != [] <==> world.changes != [];
      r := GitOutput.HasChanges(Query(StatusQuery));
    }

    // ----------------------------------------- state-changing commands

    /** `checkout`: git refuses a branch that does not exist or is checked out in another worktree. */
    method Checkout(b: string) returns (r: Result<(), GitError>)
      requires Valid()
      modifies this
      ensures Valid()
      ensures r.Ok? <==> old(NextFault()).None? && b in old(branches) && b !in world.worktree
      ensures old(NextFault()).Some? ==> r == Err(FaultError(old(NextFault()).value))
      ensures r.Err? ==> r.error == CommandError(old(NextFault()))
      ensures branches == old(branches)
      ensures current == if r.Ok? then Some(b) else old(current)
      ensures faults == old(LaterFaults())
      ensures log == old(log) + [CheckoutOp(b, r.Ok?)]
    {
      var result := GitResult(CommandOutcome(NextFault(), b in branches && b !in world.worktree));
      faults := LaterFaults();
      if result.Ok? {
        current := Some(b);
        r := Ok(());
      } else {
        r := Err(result.error);
      }
      log := log + [CheckoutOp(b, r.Ok?)];
    }

    /** `delete_branch` (`git branch -D`): git refuses the checked-out branch, a missing one, or one checked out in another worktree. */
    method DeleteBranch(b: string) returns (r: Result<(), GitError>)
      requires Valid()
      modifies this
      ensures Valid()
      ensures r.Ok? <==> old(NextFault()).None? && b in old(branches) && old(current) != Some(b) && b !in world.worktree
      ensures old(NextFault()).Some? ==> r == Err(FaultError(old(NextFault()).value))
      ensures branches == if r.Ok? then Remove(old(branches), b) else old(branches)
      ensures current == old(current)
      ensures faults == old(LaterFaults())
      ensures log == old(log) + [DeleteOp(b, r.Ok?)]
    {
      var accepted := b in branches && current != Some(b) && b !in world.worktree;
      var result := GitResult(CommandOutcome(NextFault(), accepted));
      faults := LaterFaults();
      if result.Ok? {
        branches := Remove(branches, b);
        r := Ok(());
      } else {
        r := Err(result.error);
      }
      log := log + [DeleteOp(b, r.Ok?)];
    }

    /** `update_branch` (`git merge --ff-only`): it changes no branch the model tracks. */
    method UpdateBranch() returns (r: Result<(), GitError>)
      requires Valid()
      modifies this
      ensures Valid()
      ensures r.Ok? <==> old(NextFault()).None?
      ensures old(NextFault()).Some? ==> r == Err(FaultError(old(NextFault()).value))
      ensures branches == old(branches) && current == old(current)
      ensures faults == old(LaterFaults())
      ensures log == old(log) + [MergeOp(r.Ok?)]
    {
      var result := GitResult(CommandOutcome(NextFault(), true));
      faults := LaterFaults();
      r := if result.Ok? then Ok(()) else Err(result.error);
      log := log + [MergeOp(r.Ok?)];
    }

    /** `fetch` (`git fetch --prune`). */
    method Fetch() returns (r: Result<(), GitError>)
      requires Valid()
      modifies this
      ensures Valid()
      ensures r.Ok? <==> old(NextFault()).None?
      ensures old(NextFault()).Some? ==> r == Err(FaultError(old(NextFault()).value))
      ensures branches == old(branches) && current == old(current)
      ensures faults == old(LaterFaults())
      ensures log == old(log) + [FetchOp(r.Ok?)]
    {
      var result := GitResult(CommandOutcome(NextFault(), true));
      faults := LaterFaults();
      r := if result.Ok? then Ok(()) else Err(result.error);
      log := log + [FetchOp(r.Ok?)];
    }
  }

  /** Checks the branch that was current when it was made out again when it is dropped. */
  class BranchRestorer {
    const repository: Repository
    const branch: string

    /** `BranchRestorer::new`; its `expect` panics when there is no current branch, which callers rule out first. */
    constructor (repository: Repository)
      requires repository.Valid()
      requires repository.CurrentBranchAnswer().Some?
      ensures this.repository == repository
      ensures branch == repository.CurrentBranchAnswer().value
    {
      var current := repository.GetCurrentBranch();
      this.repository := repository;
      branch := current.value;
    }

    /** `Drop`: checks `branch` out; a failure is only reported. */
    method Drop()
      requires repository.Valid()
      modifies repository
      ensures repository.Valid()
      ensures var ok := old(repository.NextFault()).None? && branch in old(repository.branches)
                        && branch !in repository.world.worktree;
              repository.log == old(repository.log) + [CheckoutOp(branch, ok)]
              && repository.current == (if ok then Some(branch) else old(repository.current))
      ensures repository.branches == old(repository.branches)
      ensures repository.faults == old(repository.LaterFaults())
    {
      var _ := repository.Checkout(branch);
    }
  }
}
