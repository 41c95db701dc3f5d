/**
 * `App` and `run` (src/app.rs): the revision of the program built around a
 * user interface object. `run` checks that the working tree is clean, fetches,
 * fast-forwards every branch that tracks `origin`, then proposes the branches
 * contained in another branch for deletion and deletes the ones the user
 * confirms, checking a container out first and the original branch out at
 * the end.
 */
module App {
  import opened Wrappers
  import opened GitOutput
  import opened Repo
  import opened AppUi
  import opened Traces
  import BatchAppUi

  /** The options `run` reads; parsing them (src/cliargs.rs) is not part of this model. */
  datatype CliArgs = CliArgs(excluded: seq<string>, noFetch: bool, yes: bool)

  /**
   * The user interface: `BatchAppUi` confirms everything; of an interactive
   * session the model keeps only the names the user confirms.
   */
  datatype Ui = Batch | Interactive(confirmed: set<string>)

  /** `ui.select_branches_to_delete`. */
  function SelectBranchesToDelete(ui: Ui, infos: seq<BranchToDeleteInfo>): (r: seq<BranchToDeleteInfo>)
    ensures IsSubsequence(r, infos)
    ensures ui.Batch? ==> r == infos
    ensures ui.Interactive? ==> forall info :: info in r <==> info in infos && info.name in ui.confirmed
  {
    match ui
    case Batch => SubsequenceReflexive(infos); BatchAppUi.SelectBranchesToDelete(infos)
    case Interactive(confirmed) => Confirmed(infos, confirmed)
  }

  /** The proposals whose name was confirmed, in the order they were proposed. */
  function Confirmed(infos: seq<BranchToDeleteInfo>, confirmed: set<string>): (r: seq<BranchToDeleteInfo>)
    ensures IsSubsequence(r, infos)
    ensures forall info :: info in r <==> info in infos && info.name in confirmed
  {
    if infos == [] then []
    else
      var rest := Confirmed(infos[1..], confirmed);
      assert infos == [infos[0]] + infos[1..];
      if infos[0].name in confirmed then
        assert ([infos[0]] + rest)[1..] == rest;
        [infos[0]] + rest
      else rest
  }

  class App {
    const repo: Repository
    const protectedBranches: set<string>
    const ui: Ui

    /** `App::new`: `master` and the excluded branches are protected. */
    constructor (args: CliArgs, ui: Ui, repo: Repository)
      ensures this.repo == repo && this.ui == ui
      ensures forall b :: b in protectedBranches <==> b == "master" || b in args.excluded
    {
      var branches: set<string> := {};
      branches := branches + {"master"};
      for i := 0 to |args.excluded|
        invariant forall b :: b in branches <==> b == "master" || b in args.excluded[..i]
      {
        branches := branches + {args.excluded[i]};
      }
      assert args.excluded[..|args.excluded|] == args.excluded;
      this.repo := repo;
      protectedBranches := branches;
      this.ui := ui;
    }

    /** `is_working_tree_clean`: git lists a current branch and the working tree has no changes. */
    method IsWorkingTreeClean() returns (clean: bool)
      requires repo.Valid()
      ensures clean <==> repo.CurrentBranchAnswer().Some? && repo.ChangesAnswer() == Ok(false)
    {
      var current := repo.GetCurrentBranch();
      if current == None {
        return false;
      }
      var changes := repo.HasChanges();
      match changes
      case Ok(hasChanges) =>
        if hasChanges {
          return false;
        }
        return true;
      case Err(_) =>
        return false;
    }

    /** The `contained_in` set of `branch`: the listed branches other than itself that contain its tip; empty when git fails. */
    function ContainedIn(branch: string): (r: set<string>)
      reads repo`branches
      ensures forall x :: x in r <==>
                repo.world.queryFault(ContainsQuery(branch)).None? && x in repo.branches
                && x !in repo.world.worktree && repo.world.reaches(x, branch) && x != branch
    {
      match repo.ContainingAnswer(branch)
      case Ok(xs) => set x | x in xs && x != branch
      case Err(_) => {}
    }

    /** The filter and map of `get_deletable_branches` over the listed branches `bs`. */
    function Deletable(bs: seq<string>): (r: seq<BranchToDeleteInfo>)
      reads repo`branches
      ensures forall info :: info in r ==>
                info.name in bs && info.name !in protectedBranches
                && info.containedIn == ContainedIn(info.name) && info.containedIn != {}
      ensures forall b :: b in bs && b !in protectedBranches && ContainedIn(b) != {} ==>
                BranchToDeleteInfo(b, ContainedIn(b)) in r
      ensures IsSubsequence(Names(r), bs)
    {
      if bs == [] then []
      else
        var rest := Deletable(bs[1..]);
        var b := bs[0];
        assert bs == [b] + bs[1..];
        if b !in protectedBranches && ContainedIn(b) != {} then
          var r := [BranchToDeleteInfo(b, ContainedIn(b))] + rest;
          assert Names(r)[1..] == Names(rest);
          r
        else rest
    }

    /**
     * `get_deletable_branches`: the listed branches that are not protected and
     * are contained in another listed branch, each with its containers, in the
     * order git lists them; git's failure to list branches is passed on.
     */
    function GetDeletableBranches(): (r: Result<seq<BranchToDeleteInfo>, GitError>)
      reads repo`branches
      ensures r.Err? <==> repo.world.queryFault(ListQuery).Some?
      ensures r.Err? ==> r.error == FaultError(repo.world.queryFault(ListQuery).value)
      ensures r.Ok? ==> forall info :: info in r.value ==>
                info.name in repo.branches && info.name !in repo.world.worktree
                && info.name !in protectedBranches
                && info.containedIn == ContainedIn(info.name) && info.containedIn != {}
      ensures r.Ok? ==> forall b ::
                (b in repo.branches && b !in repo.world.worktree && b !in protectedBranches && ContainedIn(b) != {}) ==>
                BranchToDeleteInfo(b, ContainedIn(b)) in r.value
      ensures r.Ok? ==> IsSubsequence(Names(r.value), Visible(repo.world, repo.branches))
    {
      match repo.BranchListAnswer()
      case Err(e) => Err(e)
      case Ok(bs) => Ok(Deletable(bs))
    }

    /** What `get_deletable_branches` guarantees of each proposal, as the deletion loop needs it. */
    lemma ProposalsReady(infos: seq<BranchToDeleteInfo>)
      requires forall info :: info in infos ==>
                 info.name !in protectedBranches && info.containedIn == ContainedIn(info.name) && info.containedIn != {}
      ensures forall b :: b in Names(infos) ==> b !in protectedBranches
      ensures forall i :: 0 <= i < |infos| ==>
                Containers(infos)[i] != {}
                && forall c :: c in Containers(infos)[i] ==> c != Names(infos)[i] && repo.world.reaches(c, Names(infos)[i])
    {
      var names := Names(infos);
      forall b | b in names ensures b !in protectedBranches {
        var i :| 0 <= i < |infos| && names[i] == b;
        assert infos[i] in infos;
      }
      forall i | 0 <= i < |infos|
        ensures Containers(infos)[i] != {}
        ensures forall c :: c in Containers(infos)[i] ==> c != Names(infos)[i] && repo.world.reaches(c, Names(infos)[i])
      {
        assert infos[i] in infos;
      }
    }

    /** `fetch_changes`: `git fetch --prune`. */
    method FetchChanges() returns (r: Result<(), GitError>)
      requires repo.Valid()
      modifies repo
      ensures repo.Valid()
      ensures r.Ok? <==> old(repo.NextFault()).None?
      ensures old(repo.NextFault()).Some? ==> r == Err(FaultError(old(repo.NextFault()).value))
      ensures repo.branches == old(repo.branches) && repo.current == old(repo.current)
      ensures repo.log == old(repo.log) + [FetchOp(r.Ok?)]
      ensures repo.faults == old(repo.LaterFaults())
    {
      r := repo.Fetch();
    }

    /**
     * `update_tracking_branches`: every branch tracking `origin` is checked out
     * and fast-forwarded, a failed merge being only reported; the first failed
     * checkout ends the loop with its error; the restorer checks the original
     * branch out again on the way out. `body` is what the loop issued and
     * `restoredOk` whether the final checkout succeeded.
     */
    method UpdateTrackingBranches() returns (outcome: Outcome, ghost body: seq<Op>, ghost restoredOk: bool)
      requires repo.Valid()
      modifies repo
      ensures repo.Valid()
      ensures repo.branches == old(repo.branches)
      ensures old(repo.CurrentBranchAnswer()).Some? ==> repo.CurrentBranchAnswer().Some?
      ensures Extends(old(repo.log), repo.log)
      ensures NoDeleteSince(repo.log, |old(repo.log)|) && NoFetchSince(repo.log, |old(repo.log)|)
      ensures old(repo.TrackingAnswer()).Err? ==>
                outcome == Failed(old(repo.TrackingAnswer()).error) && repo.log == old(repo.log)
      ensures old(repo.TrackingAnswer()).Ok? && old(repo.CurrentBranchAnswer()).None? ==>
                outcome == Panicked && repo.log == old(repo.log)
      ensures old(repo.TrackingAnswer()).Ok? && old(repo.CurrentBranchAnswer()).Some? ==>
                repo.log == old(repo.log) + body + [CheckoutOp(old(repo.CurrentBranchAnswer()).value, restoredOk)]
      ensures old(repo.CurrentBranchAnswer()).Some? ==>
                UpdatedAs(old(repo.TrackingAnswer()), old(repo.CurrentBranchAnswer()).value,
                          repo.log, |old(repo.log)|, old(repo.faults), outcome, body)
      ensures repo.faults == Remaining(old(repo.faults), |repo.log| - |old(repo.log)|)
    {
      body, restoredOk := [], false;
      var listed := repo.ListTrackingBranches();
      assert listed == old(repo.TrackingAnswer());
      if listed.Err? {
        outcome := Failed(listed.error);
      } else {
        var current := repo.GetCurrentBranch();
        assert current == old(repo.CurrentBranchAnswer());
        if current.None? {
          // BranchRestorer::new panics through `expect` when git names no current branch
          outcome := Panicked;
        } else {
          ghost var before := repo.log;
          outcome, body, restoredOk := UpdateEach(repo, listed.value, current.value);
          Appended(before, body, CheckoutOp(current.value, restoredOk));
        }
      }
    }

    /**
     * `remove_merged_branches`: the deletable branches are proposed, and for
     * each confirmed one a container is checked out and, when that succeeds,
     * the branch is deleted; failures are only reported. A branch is deleted
     * only when a branch that contains it is still there, so no commit is lost.
     */
    method RemoveMergedBranches() returns (outcome: Outcome, ghost selected: seq<BranchToDeleteInfo>,
                                           ghost body: seq<Op>, ghost restoredOk: bool)
      requires repo.Valid()
      modifies repo
      ensures repo.Valid()
      ensures old(repo.CurrentBranchAnswer()).Some? ==> repo.CurrentBranchAnswer().Some?
      ensures Extends(old(repo.log), repo.log)
      ensures NoFetchSince(repo.log, |old(repo.log)|) && NoMergeSince(repo.log, |old(repo.log)|)
      ensures OnlyRemoved(old(repo.branches), repo.branches)
      ensures forall b :: b in old(repo.branches) && b !in repo.branches ==>
                b in Names(selected) && b !in protectedBranches
      ensures Transitive(repo.world) ==> NothingLost(repo.world, old(repo.branches), repo.branches)
      ensures old(GetDeletableBranches()).Err? ==>
                outcome == Failed(old(GetDeletableBranches()).error) && repo.log == old(repo.log)
      ensures old(GetDeletableBranches()).Ok? ==>
                selected == SelectBranchesToDelete(ui, old(GetDeletableBranches()).value)
      ensures old(GetDeletableBranches()).Ok? && selected == [] ==>
                outcome == Done && repo.log == old(repo.log)
      ensures old(GetDeletableBranches()).Ok? && selected != [] && old(repo.CurrentBranchAnswer()).None? ==>
                outcome == Panicked && repo.log == old(repo.log)
      ensures old(GetDeletableBranches()).Ok? && selected != [] && old(repo.CurrentBranchAnswer()).Some? ==>
                outcome == Done
                && repo.log == old(repo.log) + body + [CheckoutOp(old(repo.CurrentBranchAnswer()).value, restoredOk)]
                && DeletionTrace(Names(selected), Containers(selected), body)
    {
      selected, body, restoredOk := [], [], false;
      var toDelete := GetDeletableBranches();
      if toDelete.Err? {
        return Failed(toDelete.error), selected, body, restoredOk;
      }
      if toDelete.value == [] {
        // "No deletable branches"
        return Done, selected, body, restoredOk;
      }
      var chosen := SelectBranchesToDelete(ui, toDelete.value);
      selected := chosen;
      if chosen == [] {
        return Done, selected, body, restoredOk;
      }
      // BranchRestorer::new panics through `expect` when git names no current branch
      var current := repo.GetCurrentBranch();
      if current.None? {
        return Panicked, selected, body, restoredOk;
      }
      ProposalsReady(chosen);
      var restorer := new BranchRestorer(repo);
      ghost var before := repo.log;
      outcome, body, restoredOk := DeleteEach(Names(chosen), Containers(chosen), restorer);
      Appended(before, body, CheckoutOp(restorer.branch, restoredOk));
    }

    /**
     * The loop of `remove_merged_branches` and the drop of its restorer, over
     * the names of the selected proposals and their container sets.
     */
    method DeleteEach(names: seq<string>, containers: seq<set<string>>, restorer: BranchRestorer)
      returns (outcome: Outcome, ghost body: seq<Op>, ghost restoredOk: bool)
      requires repo.Valid() && repo.CurrentBranchAnswer().Some? && restorer.repository == repo
      requires |names| == |containers|
      requires forall i :: 0 <= i < |names| ==>
                 containers[i] != {} && forall c :: c in containers[i] ==> c != names[i] && repo.world.reaches(c, names[i])
      modifies repo
      ensures repo.Valid() && repo.CurrentBranchAnswer().Some?
      ensures outcome == Done
      ensures repo.log == old(repo.log) + body + [CheckoutOp(restorer.branch, restoredOk)]
      ensures DeletionTrace(names, containers, body)
      ensures forall op :: op in body ==> !op.FetchOp? && !op.MergeOp?
      ensures OnlyRemoved(old(repo.branches), repo.branches)
      ensures forall b :: b in old(repo.branches) && b !in repo.branches ==> b in names
      ensures Transitive(repo.world) ==> NothingLost(repo.world, old(repo.branches), repo.branches)
    {
      body := [];
      ghost var w := repo.world;
      ghost var start := repo.log;
      for i := 0 to |names|
        invariant repo.Valid() && repo.CurrentBranchAnswer().Some?
        invariant repo.log == start + body
        invariant DeletionTrace(names[..i], containers[..i], body)
        invariant OnlyRemoved(old(repo.branches), repo.branches)
        invariant forall b :: b in old(repo.branches) && b !in repo.branches ==> b in names[..i]
        invariant Transitive(w) ==> NothingLost(w, old(repo.branches), repo.branches)
      {
        assert names[..i + 1] == names[..i] + [names[i]];
        assert containers[..i + 1] == containers[..i] + [containers[i]];
        ghost var mid := repo.branches;
        var deleted, container, step := DeleteOne(repo, names[i], containers[i]);
        LogAppend(start, body, step);
        DeletionTraceStep(names[..i], containers[..i], body, names[i], containers[i], step);
        body := body + step;
        if deleted && Transitive(w) {
          DeleteKeepsReachable(w, old(repo.branches), mid, names[i], container);
        }
      }
      assert names[..|names|] == names && containers[..|names|] == containers;
      restoredOk := repo.NextFault().None? && restorer.branch in repo.branches
                    && restorer.branch !in repo.world.worktree;
      restorer.Drop();
      DeletionTraceDeletes(names, containers, body);
      return Done, body, restoredOk;
    }

    /**
     * `remove_merged_branches` as the run sees it: git names a current branch,
     * so `git branch` answers and the removal finishes.
     */
    method RemovalStep() returns (removal: Outcome)
      requires repo.Valid() && repo.CurrentBranchAnswer().Some?
      modifies repo
      ensures repo.Valid()
      ensures removal == Done
      ensures Extends(old(repo.log), repo.log)
      ensures NoFetchSince(repo.log, |old(repo.log)|) && NoMergeSince(repo.log, |old(repo.log)|)
      ensures OnlyRemoved(old(repo.branches), repo.branches)
      ensures forall b :: b in old(repo.branches) && b !in repo.branches ==> b !in protectedBranches
      ensures Transitive(repo.world) ==> NothingLost(repo.world, old(repo.branches), repo.branches)
    {
      var outcome, selected, _, _ := RemoveMergedBranches();
      removal := outcome;
      forall b | b in old(repo.branches) && b !in repo.branches
        ensures b !in protectedBranches
      {
        assert b in Names(selected);
      }
    }

    /**
     * The second half of `run`: update the tracking branches, then remove the
     * merged ones, the first error ending the run. `updated` is what the update
     * gave, `updateBody` the commands its loop issued, and `removed` what the
     * removal gave, when it ran. With git naming a current branch the update
     * does not panic and the removal, once it runs, finishes.
     */
    method UpdateThenRemove() returns (exit: Exit, ghost updated: Outcome, ghost removed: Option<Outcome>,
                                       ghost updateBody: seq<Op>)
      requires repo.Valid() && repo.CurrentBranchAnswer().Some?
      modifies repo
      ensures repo.Valid()
      ensures UpdatedAs(old(repo.TrackingAnswer()), old(repo.CurrentBranchAnswer()).value,
                        repo.log, |old(repo.log)|, old(repo.faults), updated, updateBody)
      ensures ExitChain(exit, Some(updated), removed)
      ensures removed.Some? ==> removed.value == Done
      ensures Extends(old(repo.log), repo.log)
      ensures NoFetchSince(repo.log, |old(repo.log)|) && PhaseOrdered(repo.log, |old(repo.log)|)
      ensures exit.Error? ==> NoDeleteSince(repo.log, |old(repo.log)|)
      ensures OnlyRemoved(old(repo.branches), repo.branches)
      ensures forall b :: b in old(repo.branches) && b !in repo.branches ==> b !in protectedBranches
      ensures Transitive(repo.world) ==> NothingLost(repo.world, old(repo.branches), repo.branches)
    {
      removed := None;
      ghost var tracking, current, start, prophecy := repo.TrackingAnswer(), repo.CurrentBranchAnswer().value, repo.log, repo.faults;
      var update, body, _ := UpdateTrackingBranches();
      updated, updateBody := update, body;
      ghost var afterUpdate := repo.log;
      exit := ExitOf(update);
      if update.Done? {
        var removal := RemovalStep();
        removed := Some(removal);
        exit := ExitOf(removal);
        UpdatedAsExtends(tracking, current, afterUpdate, repo.log, |start|, prophecy, update, body);
      }
      PhasesUpdateRemove(start, afterUpdate, repo.log);
    }

    /** `fetch_changes` when `run` calls it, that is unless `--no-fetch`. */
    method FetchUnless(noFetch: bool) returns (r: Result<(), GitError>)
      requires repo.Valid()
      modifies repo
      ensures repo.Valid()
      ensures r.Ok? <==> noFetch || old(repo.NextFault()).None?
      ensures r.Err? ==> r == Err(FaultError(old(repo.NextFault()).value))
      ensures repo.branches == old(repo.branches) && repo.current == old(repo.current)
      ensures repo.log == old(repo.log) + (if noFetch then [] else [FetchOp(r.Ok?)])
      ensures repo.faults == Remaining(old(repo.faults), |repo.log| - |old(repo.log)|)
    {
      r := Ok(());
      if !noFetch {
        r := FetchChanges();
      }
    }

    /**
     * `run` after the clean check: fetch unless `noFetch`, then update the
     * tracking branches and remove the merged ones, the first error ending the
     * run. `updated` and `removed` are what those two steps gave, when they ran,
     * and `updateBody` the commands of the update loop, which starts after the
     * fetch.
     */
    method FetchUpdateRemove(noFetch: bool)
      returns (exit: Exit, ghost updated: Option<Outcome>, ghost removed: Option<Outcome>, ghost updateBody: seq<Op>)
      requires repo.Valid() && repo.CurrentBranchAnswer().Some?
      modifies repo
      ensures repo.Valid()
      ensures !noFetch && old(repo.NextFault()).Some? ==>
                exit == Error(FaultError(old(repo.NextFault()).value)) && repo.log == old(repo.log) + [FetchOp(false)]
      ensures updated.Some? <==> noFetch || old(repo.NextFault()).None?
      ensures var fetches := if noFetch then 0 else 1;
              updated.Some? ==>
                UpdatedAs(old(repo.TrackingAnswer()), old(repo.CurrentBranchAnswer()).value,
                          repo.log, |old(repo.log)| + fetches, Remaining(old(repo.faults), fetches), updated.value, updateBody)
      ensures ExitChain(exit, updated, removed)
      ensures removed.Some? ==> removed.value == Done
      ensures !noFetch ==> |repo.log| > |old(repo.log)| && repo.log[|old(repo.log)|].FetchOp?
      ensures noFetch ==> NoFetchSince(repo.log, |old(repo.log)|)
      ensures PhaseOrdered(repo.log, |old(repo.log)|)
      ensures exit.Error? ==> NoDeleteSince(repo.log, |old(repo.log)|)
      ensures OnlyRemoved(old(repo.branches), repo.branches)
      ensures forall b :: b in old(repo.branches) && b !in repo.branches ==> b !in protectedBranches
      ensures Transitive(repo.world) ==> NothingLost(repo.world, old(repo.branches), repo.branches)
    {
      updated, removed, updateBody := None, None, [];
      var fetched := FetchUnless(noFetch);
      ghost var afterFetch := repo.log;
      if fetched.Err? {
        exit := Error(fetched.error);
      } else {
        assert repo.TrackingAnswer() == old(repo.TrackingAnswer());
        assert repo.CurrentBranchAnswer() == old(repo.CurrentBranchAnswer());
        ghost var update;
        exit, update, removed, updateBody := UpdateThenRemove();
        updated := Some(update);
      }
      PhasesFetchFirst(old(repo.log), afterFetch, repo.log);
    }
  }

  /**
   * `run`: a tree that is not clean ends the run with 1 before any command;
   * otherwise fetch (unless `--no-fetch`), update the tracking branches and
   * remove the merged ones, the first error ending the run. `confirmed` stands
   * for the answers of an interactive session; `updated` and `removed` are what
   * the update and the removal gave, when they ran, and `updateBody` the
   * commands of the update loop, which starts after the fetch.
   */
  method Run(args: CliArgs, confirmed: set<string>, repo: Repository)
    returns (exit: Exit, ghost updated: Option<Outcome>, ghost removed: Option<Outcome>, ghost updateBody: seq<Op>)
    requires repo.Valid()
    modifies repo
    ensures repo.Valid()
    ensures exit == NotClean <==> !(old(repo.CurrentBranchAnswer()).Some? && old(repo.ChangesAnswer()) == Ok(false))
    ensures exit == NotClean ==> repo.log == old(repo.log)
    ensures exit != NotClean && !args.noFetch && old(repo.NextFault()).Some? ==>
              exit == Error(FaultError(old(repo.NextFault()).value)) && repo.log == old(repo.log) + [FetchOp(false)]
    ensures updated.Some? <==> exit != NotClean && (args.noFetch || old(repo.NextFault()).None?)
    ensures var fetches := if args.noFetch then 0 else 1;
            updated.Some? ==>
              old(repo.CurrentBranchAnswer()).Some?
              && UpdatedAs(old(repo.TrackingAnswer()), old(repo.CurrentBranchAnswer()).value,
                           repo.log, |old(repo.log)| + fetches, Remaining(old(repo.faults), fetches), updated.value, updateBody)
    ensures ExitChain(exit, updated, removed)
    ensures removed.Some? ==> removed.value == Done
    ensures exit != NotClean && !args.noFetch ==> |repo.log| > |old(repo.log)| && repo.log[|old(repo.log)|].FetchOp?
    ensures args.noFetch ==> NoFetchSince(repo.log, |old(repo.log)|)
    ensures PhaseOrdered(repo.log, |old(repo.log)|)
    ensures exit.Error? ==> NoDeleteSince(repo.log, |old(repo.log)|)
    ensures OnlyRemoved(old(repo.branches), repo.branches)
    ensures forall b :: b in old(repo.branches) && b !in repo.branches ==> b != "master" && b !in args.excluded
    ensures Transitive(repo.world) ==> NothingLost(repo.world, old(repo.branches), repo.branches)
  {
    updated, removed, updateBody := None, None, [];
    var ui := if args.yes then Batch else Interactive(confirmed);
    var app := new App(args, ui, repo);
    var clean := app.IsWorkingTreeClean();
    if !clean {
      return NotClean, updated, removed, updateBody;
    }
    assert repo.TrackingAnswer() == old(repo.TrackingAnswer());
    exit, updated, removed, updateBody := app.FetchUpdateRemove(args.noFetch);
  }
}
