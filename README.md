# git-bonsai branch cleanup, modelled in Dafny

git-bonsai keeps a git clone tidy. It refuses to work in a dirty tree. It fetches,
then fast-forwards every local branch that tracks `origin`. It then proposes for
deletion every unprotected branch whose history another branch already holds. For
each branch the user confirms, it checks out a branch that contains it and deletes
the branch. At the end it checks the original branch out again.

This project models that decision engine as it appears in two revisions of the
program, and proves what each revision does:

- `git_output.dfy` (module `GitOutput`): how `Repository::git` in src/git.rs maps a
  process outcome to `GitError`, and the parsers that read `git branch`,
  `git branch -v`, `git branch -vv` and `git status --short`. The parsers keep the
  loops of the source.
- `text.dfy` (module `Text`): the Rust string operations those parsers use:
  `lines`, `starts_with`, `contains`, `split_whitespace`, `split(' ')`, and the order
  of `String`.
- `repository.dfy` (module `Repo`): an abstract repository in place of the git
  process. It is a class holding the branch list and the checked-out branch. It
  also holds what the core only reads: worktrees, tips, commit subjects, upstreams,
  the reachability relation, and which read-only commands fail. A read-only command
  prints the text git would print for that state, and that text goes back through
  the parsers. Round-trip lemmas state what the parsers recover. A state-changing
  command (checkout, `branch -D`, `merge --ff-only`, `fetch`) fails if git would
  refuse it, or if the environment makes it fail. The environment's failures are a
  sequence `faults` with one entry per command. So every contract holds for every
  way commands can fail. A ghost `log` records each state-changing command and
  whether it succeeded. `BranchRestorer` is a class over this repository.
- `traces.dfy` (module `Traces`): the loops both revisions share (tracking update,
  deletion), the shapes of the command logs they produce, and safety predicates
  over the branch set.
- `app.dfy` (module `App`): src/app.rs, the `App` object and `run`.
- `main_revision.dfy` (module `MainRevision`): src/main.rs, the older revision, with
  co-candidate pruning. It finds candidates through `Repository::list_merged_branches`.
  That method is called at src/main.rs:55 but is not defined in any file modelled here.
  The model assumes that it lists the branches merged into the given branch. This
  reading comes from the comment at src/main.rs:45.
- `batch_ui.dfy` (module `BatchAppUi`) and `app_ui.dfy` (module `AppUi`):
  src/batchappui.rs, and the `BranchToDeleteInfo` record of src/appui.rs.

The two revisions are kept apart because they differ.

- src/app.rs looks up, for each unprotected branch, the branches that contain it.
  It drops branches with no container.
- src/main.rs builds a map from each unprotected branch to the branches it is merged
  into. It then removes every key from every value set. It keeps sets that become
  empty, and its `unwrap` panics on such a set (see Findings).

Errors are modelled as `GitError` in both revisions. Panics (`expect`, `unwrap`) are
explicit outcomes (`Panicked`, `Crash`). They are not preconditions, because inputs
can reach them. There is one exception: `BatchAppUi.SelectIdenticalBranchesToDeleteKeepOne`
requires a non-empty input, because `remove(0)` at src/batchappui.rs:51 panics on an
empty list and no modelled caller passes one.

Some plain facts about the program that the model keeps:

- The program protects the literal `master` plus the `-x` names. It does not detect
  a default branch or read a configuration key.
- The core does not sort out branches that sit at the same commit. The keep-one
  rule lives in the two UI implementations, and no modelled caller uses it. The batch
  UI drops the smallest name (src/batchappui.rs:48-53). The interactive UI prompts
  again until one branch is left unchecked (src/interactiveappui.rs:82-103). The
  interactive UI is not part of this model.
- The program does not check a branch again before deleting it. It has no special
  case for deleting the current branch, because it always checks out a container
  first.
- src/main.rs fetches unconditionally. Only src/app.rs honours `--no-fetch`.

## Model

| member | source | states |
|---|---|---|
| GitOutput.GitResult | src/git.rs:116-135 | A spawn failure gives `FailedToRunGit`. A non-zero exit code `c` gives `CommandFailed(c)`. No exit code gives `TerminatedBySignal`. Success gives `Ok(stdout)`. Each holds in both directions. |
| GitOutput.ListBranchesInternal | src/git.rs:161-174 | A git failure is passed on unchanged. Otherwise the result is the branch list read from the lines of the output. |
| Repo.ListedRendered | src/git.rs:166-172 | On any listing, the loop skips the lines of branches checked out in another worktree. It strips the two-character marker from every other line and keeps the order. |
| Repo.PlainListingRoundTrip | src/git.rs:143-145 | Reading `git branch` back gives exactly the branches not checked out in another worktree, in order. The starred line gives the current branch exactly when git lists it. |
| GitOutput.ListBranchesWithSha1s | src/git.rs:147-159 | There is exactly one pair per listed line, in order. Each pair is the first two whitespace-separated tokens of its line. |
| Repo.VerboseListingRoundTrip | src/git.rs:150-158 | Reading `git branch -v` back gives one (name, sha1) pair per visible branch, with the branch's real tip. |
| GitOutput.ListTrackingBranches | src/git.rs:180-192 | A git failure is passed on. Otherwise the result is the text before the first space of each listed line that contains `[origin/` and not `: gone]`, in order. |
| GitOutput.TrackingBranchesMembers | src/git.rs:185-190 | A name is returned exactly when it is the text before the first space of a tracking line. There are no more names than lines. |
| Repo.TrackingListingRoundTrip | src/git.rs:180-192 | If no commit subject looks like an upstream annotation, the result is exactly the visible branches with a live upstream on `origin`, in order. |
| Repo.SubjectMistakenForUpstream | src/git.rs:186 | A branch with no upstream, whose commit subject reads `[origin/x]`, passes the tracking-line test. |
| GitOutput.StarredBranch | src/git.rs:209-214 | It returns none exactly when no line starts with `*`. Otherwise it returns the first starred line without its two-character marker. |
| GitOutput.GetCurrentBranch | src/git.rs:204-215 | A git failure gives none. Otherwise the loop with its early return finds the first starred line. |
| GitOutput.HasChanges | src/git.rs:223-226 | A git failure is passed on. Otherwise the result is true exactly when `git status --short` printed something. |
| Repo.Repository.ListBranches | src/git.rs:143-145 | The branches outside other worktrees, or the command's error. |
| Repo.Repository.ListBranchesWithSha1s | src/git.rs:147-159 | Each visible branch paired with its tip, or the command's error. |
| Repo.Repository.ListBranchesContaining | src/git.rs:176-178 | The visible branches from which the commit is reachable, or the command's error. |
| Repo.Repository.ListMergedBranches | src/main.rs:55-61 | The visible branches reachable from the given branch, or the command's error. This meaning is assumed (see Left out). |
| Repo.Repository.ListTrackingBranches | src/git.rs:180-192 | The tracking parser applied to what the repository prints for `git branch -vv`. |
| Repo.Repository.GetCurrentBranch | src/git.rs:204-215 | The checked-out branch if git lists it. None if `git branch` fails. |
| Repo.Repository.HasChanges | src/git.rs:223-226 | Whether the status listing is non-empty, or the command's error. |
| Repo.Repository.Checkout | src/git.rs:194-197 | It succeeds exactly when no fault is pending and the branch exists outside other worktrees. On success the branch becomes current. Nothing else changes. The command is logged. |
| Repo.Repository.DeleteBranch | src/git.rs:199-202 | It succeeds exactly when no fault is pending and the branch exists, is not current and is outside other worktrees. Only that branch is removed. The command is logged. |
| Repo.Repository.UpdateBranch | src/git.rs:217-221 | It fails only through the environment. The branch set and the current branch are unchanged. The command is logged. |
| Repo.Repository.Fetch | src/git.rs:138-141 | It fails only through the environment. The branch set and the current branch are unchanged. The command is logged. |
| Repo.BranchRestorer.constructor | src/git.rs:65-71 | It records the branch git reports as current. |
| Repo.BranchRestorer.Drop | src/git.rs:74-80 | It issues exactly one checkout, of the recorded branch. A failure changes nothing and is only reported. |
| Traces.UpdateEach | src/app.rs:82-95 | The outcome is `Done` exactly when every branch was checked out, each followed by a merge, in order. A failed merge does not stop the loop. Otherwise the first failed checkout is the loop's last command, and the error returned is the one the environment gave that checkout. The outcome is never a panic. The last logged command is the restorer's checkout of the original branch. No branch is deleted or fetched. |
| Traces.UpdateTraceOps | src/app.rs:83-94 | The update loop checks out only the tracking branches it was given. It never deletes and never fetches. |
| Traces.DeleteOne | src/app.rs:118-126 | It checks out some member of the container set. Only if that succeeds does it try to delete the branch. The branch is gone only if the delete succeeded, and then only that branch is gone. |
| Traces.DeletionTraceDeletes | src/app.rs:116-128 | Every delete in a deletion log is of a selected name. It comes right after a successful checkout of one of that name's containers. |
| Traces.DeleteKeepsReachable | src/app.rs:119-126 | If a branch that reaches the deleted branch stays, no history is lost by the delete. |
| Traces.DeleteKeepsWitnessed | src/main.rs:139-147 | Deleting a candidate while a non-candidate container stays keeps every removed branch reachable from a non-candidate. |
| Traces.PhasesUpdateRemove | src/app.rs:184-189 | Running the update phase and then the removal phase gives an ordered log. No merge comes after a delete, and nothing fetches. |
| Traces.PhasesFetchFirst | src/app.rs:178-186 | If the fetches come first, the whole run stays phase-ordered. |
| App.SelectBranchesToDelete | src/app.rs:110 | The selection is a subsequence of the proposals. In batch mode it is all of them. Interactively it is exactly the confirmed ones. |
| App.App.constructor | src/app.rs:34-45 | The protected set is exactly `master` together with the `-x` names. |
| App.App.IsWorkingTreeClean | src/app.rs:47-66 | True exactly when git reports a current branch and the status query succeeds with no changes. |
| App.App.ContainedIn | src/app.rs:142-153 | The set is the listed branches other than the branch itself that contain it. It is empty if the query fails. |
| App.App.Deletable | src/app.rs:139-161 | Exactly the unprotected branches with a non-empty container set are kept, each with that set, in list order. |
| App.App.GetDeletableBranches | src/app.rs:131-164 | It returns `Err` exactly when listing branches fails. Each entry is a visible, unprotected branch with a non-empty container set that does not contain the branch itself. Every such branch is present, in list order. |
| App.App.ProposalsReady | src/app.rs:150-160 | No proposed name is protected. Each proposal has a container, and every container is another branch that reaches it. |
| App.App.FetchChanges | src/app.rs:68-71 | One fetch is logged. It fails exactly when the environment makes it fail, and then returns the environment's error. |
| App.App.FetchUnless | src/app.rs:178-182 | Without `--no-fetch`, exactly one fetch is logged. It fails exactly when the environment makes it fail, and then returns the environment's error. With `--no-fetch`, no command is issued and the result is `Ok`. The branches and the current branch are unchanged. |
| App.App.UpdateTrackingBranches | src/app.rs:73-96 | A listing failure returns `Err` before any checkout. If git names no current branch, the restorer panics. Otherwise the log is the update loop followed by a checkout of the original branch. The outcome is `Done` exactly when the loop went through every branch. On a failed checkout, the error returned is that checkout's own. No branch is deleted. |
| App.App.RemoveMergedBranches | src/app.rs:97-129 | A listing failure, nothing deletable, or an empty selection issue no command. Otherwise the log is the deletion loop over the selection followed by a checkout of the original branch. Only selected, unprotected branches disappear. When reachability is transitive, as it is in git, each of them stays reachable from a remaining branch. |
| App.App.DeleteEach | src/app.rs:115-128 | The loop always returns `Ok`. Its log is a deletion trace followed by the restorer's checkout. Only listed names are removed. When reachability is transitive, no history is lost. |
| App.App.UpdateThenRemove | src/app.rs:184-191 | The update's outcome is the one its log shows. It is `Done` exactly when every tracking branch was checked out. Otherwise it is the failed checkout's own error, or the listing's error with no command issued. The removal runs exactly when the update gave `Done`, and it then always succeeds. The exit is 0 (`Success`) exactly when both succeed, and otherwise the update's error. If there is an error, nothing is deleted. Protected branches survive. |
| App.App.FetchUpdateRemove | src/app.rs:178-191 | Unless `--no-fetch`, it fetches first. A failed fetch returns the environment's error, and only the fetch is logged. The update runs exactly when no fetch failed. Its outcome is the one its log shows after the fetch, as in `UpdateThenRemove`. The removal runs exactly when the update gave `Done`, and it then succeeds. The exit is 0 exactly when both succeed. The phases are ordered, and protected branches survive. |
| App.Run | src/app.rs:167-192 | It returns `NotClean` exactly when the tree is not clean, and then issues no command. A failed fetch returns the environment's error, and only the fetch is logged. The update runs exactly when the tree is clean and no fetch failed. Its outcome is the one its log shows: `Done` exactly when every tracking branch was checked out, and otherwise the listing's or the failed checkout's own error. The removal runs exactly when the update gave `Done`, and it then succeeds. The exit is 0 exactly when both ran and succeeded, and otherwise the failing step's error. The phases are ordered and protected branches survive. When reachability is transitive, no history is lost. |
| MainRevision.GetProtectedBranches | src/main.rs:36-43 | The protected set is exactly `master` together with the excluded names. |
| MainRevision.InsertMerged | src/main.rs:62-71 | The inner loop adds the branch to the set of every unprotected merged branch other than itself, creating the set if needed. Other entries are unchanged. |
| MainRevision.MergersMapStep | src/main.rs:54-72 | One round of the outer loop keeps the map equal to "each key to the listed branches whose merged list names it". |
| MainRevision.GetDeletableBranches | src/main.rs:46-74 | Key `k` maps to exactly the listed branches other than `k` whose merged list contains `k`. No key is protected or in its own set. The first listing failure returns `Err` with no partial map. |
| MainRevision.PruneCoCandidates | src/main.rs:115-124 | The keys are unchanged. Each set loses exactly the keys, so no set holds a key. Sets may become empty. |
| MainRevision.SameCommitBranchesLoseTheirContainers | src/main.rs:115-140 | Two unprotected branches at one commit ahead of `master` each lose their only container to pruning. |
| MainRevision.PruneKeepingContained | src/app.rs:160 | The corrected pruning drops keys whose set became empty. Every remaining key keeps a non-empty set of non-candidates. |
| MainRevision.KeptContainersReach | src/app.rs:150-160 | After the corrected pruning, every container reaches its key and is not a candidate. |
| MainRevision.DeleteSelectedKeepingContained | src/main.rs:136-149 | The deletion loop over the corrected pruning never panics. Every selected branch has a container, only selected branches disappear, and each stays reachable from a non-candidate. |
| MainRevision.SelectBranchesToDelete | src/main.rs:86-98 | The selection is the ticked candidates in the order the prompt returns them. |
| MainRevision.DeleteSelected | src/main.rs:136-149 | It deletes the selected branches in order, each after a checkout of a container. The first empty set panics. The restorer's checkout of the original branch is logged last either way. Every removed branch stays reachable from a non-candidate. |
| MainRevision.DeleteUntilEmpty | src/main.rs:137-148 | It processes every branch up to the end or up to the first empty container set. It panics exactly at that set. |
| MainRevision.DeletedStep | src/main.rs:139-147 | One round of the loop only removes the current name, and keeps every removed branch witnessed by a non-candidate. |
| MainRevision.ContainersReach | src/main.rs:115-124 | After pruning, every container reaches its key and is not a candidate. |
| MainRevision.RemoveMergedBranches | src/main.rs:100-150 | Any listing failure returns `Err` with no command issued. Otherwise the candidates are the pruned map of the starting state, and the selection is the ticked candidates. An empty map or an empty selection returns `Ok` with no command. Otherwise deletions follow container checkouts, and the original branch is checked out last. The outcome is `Done` exactly when every selected branch was processed. Otherwise it panics, exactly at the first selected branch whose container set is empty. Only selected, unprotected branches disappear, and no history is lost. |
| MainRevision.UpdateTrackingBranches | src/main.rs:157-180 | It returns `Done` exactly when the loop went through every branch. It aborts on a failed checkout and returns that checkout's own error. It continues past a failed fast-forward. The restorer's checkout of the original branch comes last. |
| MainRevision.IsWorkingTreeClean | src/main.rs:182-200 | True exactly when git reports a current branch and the status query succeeds with no changes. |
| MainRevision.FetchChanges | src/main.rs:152-155 | One fetch is logged. It fails exactly when the environment makes it fail, and then returns the environment's error. |
| MainRevision.RunApp | src/main.rs:202-223 | It returns `NotClean` exactly when the tree is not clean, with no command issued. Otherwise it always fetches first. A failed fetch returns the environment's error, and only the fetch is logged. The update runs exactly when the fetch succeeded, and its outcome is the one its log shows. The removal runs exactly when the update gave `Done`. Its outcome is the one `RemovedAs` derives from the starting state and the ticked names. It fails exactly when `git branch` or one of the `--merged` listings fails. It is `Done` exactly when every selected branch was processed, and otherwise a panic at the first empty container set. The exit is 0 exactly when both succeeded, `Crash` exactly when the removal panicked, and otherwise the failing step's error. The phases are ordered, protected branches survive, and no history is lost. |
| MainRevision.FetchUpdateRemove | src/main.rs:211-222 | It always fetches first. A failed fetch returns the environment's error, and only the fetch is logged. Otherwise the update and the removal run, and their outcomes decide the exit as in `UpdateThenRemove`. The phases are ordered, protected branches survive, and no history is lost. |
| MainRevision.UpdateThenRemove | src/main.rs:215-222 | When git names a current branch, the update does not panic, and its outcome is the one its log shows. The removal runs exactly when the update gave `Done`, and its outcome is the one `RemovedAs` derives from the starting state: a failure exactly when `git branch` or one of the `--merged` listings fails, `Done` exactly when every selected branch was processed, and a panic exactly at the first empty container set. The exit is 0 exactly when both succeed, `Crash` exactly when the removal panicked, and otherwise the failing step's error. If there is an error, nothing is deleted. |
| BatchAppUi.SelectBranchesToDelete | src/batchappui.rs:37-42 | Batch mode confirms every proposal unchanged. |
| BatchAppUi.SelectIdenticalBranchesToDelete | src/batchappui.rs:44-46 | Batch mode selects every identical branch. |
| BatchAppUi.Sort | src/batchappui.rs:50 | The result is ascending in `String` order and a permutation of the input. |
| BatchAppUi.SortStartsWithLeast | src/batchappui.rs:49-51 | After sorting, the first element is the smallest name. |
| BatchAppUi.SelectIdenticalBranchesToDeleteKeepOne | src/batchappui.rs:48-53 | It needs a non-empty input. It returns n−1 names, sorted. Together with the smallest name they are exactly the input, so the smallest is the one kept. |

## Left out

- Running git (`Command`, environment, `GB_DEBUG` output, UTF-8 decoding), `Repository::clone`, `create_test_repository` and `get_current_sha1`: these are process I/O. The abstract repository stands in for them. Only the mapping of a process outcome to `GitError` is kept.
- What git itself decides (reachability, merge bases, fast-forwarding) stays in the repository's `reaches` relation. A merge does not change any tip the model tracks.
- Logging (`log_info`, `log_warning`, `log_error`, `println!`): these are output only. The model records commands, not messages.
- The interactive prompts of src/interactiveappui.rs and src/tui.rs: a set of confirmed names (src/app.rs) or a list of ticked names (src/main.rs) stands for the user's answer. `format_select_item` is display text.
- Argument parsing (src/cliargs.rs, structopt): `excluded`, `no_fetch` and `yes` are plain inputs.
- src/libmain.rs, src/appui.rs's trait, tasks.py and the names tests/integ.rs calls that no shown file defines (identical-branch deletion, default-branch configuration) are not part of this model.
- `HashSet` and `HashMap` iteration order: the container picked by `iter().next()` is an arbitrary member, and the prompt lists candidates in an arbitrary order.
- BatchAppUi.SelectIdenticalBranchesToDeleteKeepOne: `slice::sort` works in place in the standard library. It is modelled as a function on sequences. The `remove(0)` panic on an empty list (src/batchappui.rs:51) is a precondition here, `branches != []`, not a modelled outcome.
- Repo.Repository.UpdateBranch: the printed merge output is not modelled.
- Repo.BranchRestorer.constructor: the `expect` panic is modelled by the callers. They query the current branch first and return `Panicked` when git names none. Within a whole run this case is not reached, as the `App.Run` line below explains.
- App.Run, MainRevision.RunApp: a read-only git command answers the same way all through a run. Whether it fails is a fixed property of the repository (`queryFault`), not one fault per command. So once the clean check's `git branch` has succeeded, the same listing cannot fail later in the run. Two failures of the program are therefore not modelled inside a run: the `expect` panic of `BranchRestorer::new` (src/git.rs:65-71), and the removal's `Err` from a failing `git branch`. The contracts of the update and removal methods still state both cases for a repository whose listing fails.
- App.Run, MainRevision.RunApp: the program's `i32` exit value is modelled by the datatype `Exit`. The `i32` errors of src/app.rs and src/main.rs are modelled by the `GitError` of the later src/git.rs. The program returns 1 for a dirty tree (src/app.rs:174-176, src/main.rs:207-209), and it returns a failing git command's exit code unchanged (`return x` at src/app.rs:180, 185 and 189, and at src/main.rs:212, 216 and 220). Git often exits with 1, so the program's number alone cannot tell the two apart. `Exit` keeps `NotClean` and `Error(CommandFailed(1))` distinct.
- Repo.Repository.GetCurrentBranch, Repo.Repository.ListBranches: a detached HEAD cannot be represented, because `current` is a branch name or none. Git prints `* (HEAD detached at <sha>)` in that state. `get_current_branch` (src/git.rs:204-215) would return `(HEAD detached at <sha>)`, and `list_branches_internal` (src/git.rs:161-174) would list it as a branch.
- Repo.Repository.ListMergedBranches: `list_merged_branches` is not defined in any file modelled here. The model assumes it lists the branches reachable from the given branch, reading the comment at src/main.rs:45. It is treated like the other `git branch` listings.
- `line.get(2..)` and `line[2..]` panic on lines shorter than two characters, and `unwrap` panics on a `-v` line with fewer than two tokens. The parsers require well-formed lines. The repository always prints them.

## Findings

| source | as written | input that shows it | evidently intended | confidence | as-written member | corrected member |
|---|---|---|---|---|---|---|
| src/main.rs:115-140 | Pruning removes every candidate from every container set but keeps sets that become empty. The deletion loop then calls `unwrap` on the first element of such a set. | Branches `master`, `topic` and `fix`, where `topic` and `fix` point at the same commit ahead of `master`. Each is the other's only container, so both sets become empty and deleting either one panics. | Drop candidates whose set becomes empty, as the later src/app.rs does at src/app.rs:160. Every selected branch then keeps a container that is not itself deleted. | high, not executed | MainRevision.SameCommitBranchesLoseTheirContainers | MainRevision.PruneKeepingContained, used by MainRevision.DeleteSelectedKeepingContained |
