/**
 * What the src/app.rs and src/main.rs revisions share: the outcomes of their
 * steps, the two branch loops they run against the repository, the shapes of
 * the command sequences those loops issue, and what those shapes imply.
 */
module Traces {
  import opened Wrappers
  import opened GitOutput
  import opened Repo

  /** What `update_tracking_branches` and `remove_merged_branches` return: `Ok(())`, `Err(x)`, or a panic. */
  datatype Outcome = Done | Failed(error: GitError) | Panicked

  /** What `run` returns: 0, 1 for a tree it cannot work in, the error of the failing step, or a panic. */
  datatype Exit = Success | NotClean | Error(error: GitError) | Crash

  /** What `run` makes of a step's result: `?` passes its error on, and a panic ends the process. */
  function ExitOf(o: Outcome): (e: Exit)
    ensures e == Success <==> o == Done
    ensures e == Crash <==> o == Panicked
    ensures o.Failed? <==> e.Error?
    ensures o.Failed? ==> e.error == o.error
  {
    match o
    case Done => Success
    case Failed(x) => Error(x)
    case Panicked => Crash
  }

  /**
   * `run`'s `?` chain over its update and removal steps, with what each gave
   * when it ran: the removal runs exactly when the update succeeded, the exit
   * is 0 exactly when both succeeded, and otherwise it is what the first step
   * that did not succeed gave.
   */
  predicate ExitChain(exit: Exit, updated: Option<Outcome>, removed: Option<Outcome>) {
    (removed.Some? <==> updated == Some(Done))
    && (exit == Success <==> updated == Some(Done) && removed == Some(Done))
    && (updated.Some? && !updated.value.Done? ==> exit == ExitOf(updated.value))
    && (removed.Some? ==> exit == ExitOf(removed.value))
  }

  /**
   * `update_tracking_branches`' loop over `branches`: each branch is checked out
   * and, when that succeeds, fast-forwarded whatever the merge gives; the first
   * checkout that fails ends the loop. `completed` says whether it ran to the end.
   */
  ghost predicate UpdateTrace(branches: seq<string>, ops: seq<Op>, completed: bool)
    decreases |branches|
  {
    if branches == [] then ops == [] && completed
    else
      |ops| >= 1 && ops[0].CheckoutOp? && ops[0].branch == branches[0]
      && if ops[0].ok then |ops| >= 2 && ops[1].MergeOp? && UpdateTrace(branches[1..], ops[2..], completed)
         else ops == [ops[0]] && !completed
  }

  lemma {:induction false} UpdateTraceStep(done: seq<string>, ops: seq<Op>, b: string, merged: bool)
    requires UpdateTrace(done, ops, true)
    ensures UpdateTrace(done + [b], ops + [CheckoutOp(b, true), MergeOp(merged)], true)
    decreases |done|
  {
    if done == [] {
      assert ops == [];
      assert (done + [b])[1..] == [];
    } else {
      assert ops[0].ok;
      UpdateTraceStep(done[1..], ops[2..], b, merged);
      assert (done + [b])[1..] == done[1..] + [b];
      assert (ops + [CheckoutOp(b, true), MergeOp(merged)])[2..] == ops[2..] + [CheckoutOp(b, true), MergeOp(merged)];
    }
  }

  lemma {:induction false} UpdateTraceStop(done: seq<string>, ops: seq<Op>, b: string, rest: seq<string>)
    requires UpdateTrace(done, ops, true)
    ensures UpdateTrace(done + [b] + rest, ops + [CheckoutOp(b, false)], false)
    decreases |done|
  {
    if done == [] {
      assert ops == [];
      assert (done + [b] + rest)[0] == b;
    } else {
      assert ops[0].ok;
      UpdateTraceStop(done[1..], ops[2..], b, rest);
      assert (done + [b] + rest)[1..] == done[1..] + [b] + rest;
      assert (ops + [CheckoutOp(b, false)])[2..] == ops[2..] + [CheckoutOp(b, false)];
    }
  }

  /** The update loop stops at the `i`th branch, whose checkout fails. */
  lemma UpdateStopsAt(branches: seq<string>, i: nat, ops: seq<Op>)
    requires i < |branches| && UpdateTrace(branches[..i], ops, true)
    ensures UpdateTrace(branches, ops + [CheckoutOp(branches[i], false)], false)
  {
    UpdateTraceStop(branches[..i], ops, branches[i], branches[i + 1..]);
    assert branches[..i] + [branches[i]] + branches[i + 1..] == branches;
  }

  /** The update loop checks out only the branches it was given, and deletes nothing. */
  lemma {:induction false} UpdateTraceOps(branches: seq<string>, ops: seq<Op>, completed: bool)
    requires UpdateTrace(branches, ops, completed)
    ensures forall op :: op in ops ==> !op.DeleteOp? && !op.FetchOp?
    ensures forall op :: op in ops && op.CheckoutOp? ==> op.branch in branches
    decreases |branches|
  {
    if branches != [] {
      if ops[0].ok {
        UpdateTraceOps(branches[1..], ops[2..], completed);
        assert ops == [ops[0], ops[1]] + ops[2..];
      }
    }
  }

  /**
   * The deletion loop over the selected `names`, `containers[i]` being the set the
   * container of `names[i]` is taken from: a checkout of a container, then, only
   * when that succeeded, a delete of the name, whatever the delete gives.
   */
  ghost predicate DeletionTrace(names: seq<string>, containers: seq<set<string>>, ops: seq<Op>)
    requires |names| == |containers|
    decreases |names|
  {
    if names == [] then ops == []
    else
      |ops| >= 1 && ops[0].CheckoutOp? && ops[0].branch in containers[0]
      && if ops[0].ok then |ops| >= 2 && ops[1].DeleteOp? && ops[1].branch == names[0]
                           && DeletionTrace(names[1..], containers[1..], ops[2..])
         else DeletionTrace(names[1..], containers[1..], ops[1..])
  }

  lemma {:induction false} DeletionTraceStep(names: seq<string>, containers: seq<set<string>>, ops: seq<Op>,
                                             name: string, cs: set<string>, step: seq<Op>)
    requires |names| == |containers| && DeletionTrace(names, containers, ops)
    requires DeletionTrace([name], [cs], step)
    ensures DeletionTrace(names + [name], containers + [cs], ops + step)
    decreases |names|
  {
    if names == [] {
      assert ops == [];
      assert names + [name] == [name] && containers + [cs] == [cs] && ops + step == step;
    } else {
      var k := if ops[0].ok then 2 else 1;
      DeletionTraceStep(names[1..], containers[1..], ops[k..], name, cs, step);
      assert (names + [name])[1..] == names[1..] + [name];
      assert (containers + [cs])[1..] == containers[1..] + [cs];
      assert (ops + step)[k..] == ops[k..] + step;
    }
  }

  /**
   * Every delete in a deletion trace is of a selected name and comes right after a
   * successful checkout of one of that name's containers.
   */
  lemma {:induction false} DeletionTraceDeletes(names: seq<string>, containers: seq<set<string>>, ops: seq<Op>)
    requires |names| == |containers| && DeletionTrace(names, containers, ops)
    ensures forall op :: op in ops ==> op.CheckoutOp? || op.DeleteOp?
    ensures forall k :: 0 <= k < |ops| && ops[k].DeleteOp? ==>
              k > 0 && ops[k - 1].CheckoutOp? && ops[k - 1].ok
              && exists i :: 0 <= i < |names| && names[i] == ops[k].branch && ops[k - 1].branch in containers[i]
    decreases |names|
  {
    if names != [] {
      var n := if ops[0].ok then 2 else 1;
      DeletionTraceDeletes(names[1..], containers[1..], ops[n..]);
      assert ops == ops[..n] + ops[n..];
      forall k | 0 <= k < |ops| && ops[k].DeleteOp?
        ensures k > 0 && ops[k - 1].CheckoutOp? && ops[k - 1].ok
          && exists i :: 0 <= i < |names| && names[i] == ops[k].branch && ops[k - 1].branch in containers[i]
      {
        if k >= n {
          assert ops[k] == ops[n..][k - n];
          if k > n {
            assert ops[k - 1] == ops[n..][k - 1 - n];
          }
          var i :| 0 <= i < |names[1..]| && names[1..][i] == ops[k].branch && ops[n..][k - n - 1].branch in containers[1..][i];
          assert names[i + 1] == ops[k].branch && ops[k - 1].branch in containers[i + 1];
        } else {
          assert k == 1 && names[0] == ops[k].branch;
        }
      }
    }
  }

  lemma LogAppend(log: seq<Op>, body: seq<Op>, step: seq<Op>)
    ensures log + body + step == log + (body + step)
  {
  }

  /** `after` is `before` with more commands issued after it. */
  ghost predicate Extends(before: seq<Op>, after: seq<Op>) {
    |before| <= |after| && after[..|before|] == before
  }

  /** A prefix of a prefix of the log is a prefix of the log. */
  lemma ExtendsShorter(prefix: seq<Op>, more: seq<Op>, after: seq<Op>)
    requires Extends(prefix + more, after)
    ensures Extends(prefix, after)
  {
    assert after[..|prefix|] == (prefix + more)[..|prefix|];
  }

  /** A loop's commands and the restorer's checkout, issued after `log`. */
  lemma Appended(log: seq<Op>, body: seq<Op>, last: Op)
    ensures Extends(log, log + body + [last])
    ensures (forall op :: op in body ==> !op.FetchOp?) && !last.FetchOp? ==>
              NoFetchSince(log + body + [last], |log|)
    ensures (forall op :: op in body ==> !op.DeleteOp?) && !last.DeleteOp? ==>
              NoDeleteSince(log + body + [last], |log|)
    ensures (forall op :: op in body ==> !op.MergeOp?) && !last.MergeOp? ==>
              NoMergeSince(log + body + [last], |log|)
  {
    var after := log + body + [last];
    assert after[..|log|] == log;
    forall k | |log| <= k < |after| ensures after[k] == last || after[k] in body {
      if k < |log| + |body| {
        assert after[k] == body[k - |log|];
      }
    }
  }

  /** None of the commands issued since position `start` of the log is a delete. */
  ghost predicate NoDeleteSince(log: seq<Op>, start: nat) {
    forall k :: start <= k < |log| ==> !log[k].DeleteOp?
  }

  /** None of the commands issued since position `start` of the log is a fetch. */
  ghost predicate NoFetchSince(log: seq<Op>, start: nat) {
    forall k :: start <= k < |log| ==> !log[k].FetchOp?
  }

  /** None of the commands issued since position `start` of the log is a merge. */
  ghost predicate NoMergeSince(log: seq<Op>, start: nat) {
    forall k :: start <= k < |log| ==> !log[k].MergeOp?
  }

  /**
   * What `update_tracking_branches` did from position `start` of `log` on, when
   * git lists the tracking branches as `answer`, `current` is the branch it
   * started on and `faults` the prophecy at `start`: a listing error is the
   * outcome and no command is issued; otherwise the loop's commands `body` come
   * first, then the restorer's checkout of `current`, the outcome is `Done`
   * exactly when the loop ran to its end, and a failure is the error of the
   * checkout that ended it.
   */
  ghost predicate UpdatedAs(answer: Result<seq<string>, GitError>, current: string, log: seq<Op>, start: nat,
                            faults: seq<Option<Fault>>, outcome: Outcome, body: seq<Op>)
  {
    match answer
    case Err(e) => outcome == Failed(e) && body == [] && |log| == start
    case Ok(tracked) =>
      start + |body| < |log| && log[start..start + |body|] == body
      && log[start + |body|].CheckoutOp? && log[start + |body|].branch == current
      && outcome != Panicked && UpdateTrace(tracked, body, outcome == Done)
      && (outcome.Failed? ==> |body| > 0 && outcome.error == CommandError(FaultAt(faults, |body| - 1)))
  }

  /** The update loop's commands, then the restorer's checkout, as `UpdatedAs` reads them. */
  lemma UpdatedAsLogged(tracked: seq<string>, current: string, log: seq<Op>, body: seq<Op>, ok: bool,
                        faults: seq<Option<Fault>>, outcome: Outcome)
    requires outcome != Panicked && UpdateTrace(tracked, body, outcome == Done)
    requires outcome.Failed? ==> |body| > 0 && outcome.error == CommandError(FaultAt(faults, |body| - 1))
    ensures UpdatedAs(Ok(tracked), current, log + body + [CheckoutOp(current, ok)], |log|, faults, outcome, body)
  {
    var after := log + body + [CheckoutOp(current, ok)];
    assert after[|log|..|log| + |body|] == body;
    assert after[|log| + |body|] == CheckoutOp(current, ok);
  }

  /** The update's account of the log survives the commands issued after it, when it listed its branches. */
  lemma UpdatedAsExtends(answer: Result<seq<string>, GitError>, current: string, log: seq<Op>, later: seq<Op>,
                         start: nat, faults: seq<Option<Fault>>, outcome: Outcome, body: seq<Op>)
    requires UpdatedAs(answer, current, log, start, faults, outcome, body)
    requires Extends(log, later) && (answer.Err? ==> later == log)
    ensures UpdatedAs(answer, current, later, start, faults, outcome, body)
  {
    if answer.Ok? {
      assert later[start..start + |body|] == log[start..start + |body|] by {
        assert later[..|log|] == log;
      }
      assert later[start + |body|] == log[start + |body|] by {
        assert later[..|log|] == log;
      }
    }
  }

  /**
   * The phases of a run since position `start`: fetches come first, and no
   * merge of the update phase comes after a delete of the removal phase.
   */
  ghost predicate PhaseOrdered(log: seq<Op>, start: nat) {
    forall i, j :: start <= i < j < |log| ==>
      (log[j].FetchOp? ==> log[i].FetchOp?) && (log[i].DeleteOp? ==> !log[j].MergeOp?)
  }

  /** An update phase that neither fetches nor deletes, then a removal phase that neither fetches nor merges. */
  lemma PhasesUpdateRemove(l1: seq<Op>, l2: seq<Op>, l3: seq<Op>)
    requires Extends(l1, l2) && Extends(l2, l3)
    requires NoFetchSince(l2, |l1|) && NoDeleteSince(l2, |l1|)
    requires NoFetchSince(l3, |l2|) && NoMergeSince(l3, |l2|)
    ensures Extends(l1, l3) && NoFetchSince(l3, |l1|) && PhaseOrdered(l3, |l1|)
  {
    forall k | |l1| <= k < |l2| ensures l3[k] == l2[k] {
      assert l3[k] == l3[..|l2|][k];
    }
    assert l3[..|l1|] == l3[..|l2|][..|l1|];
  }

  /** Fetches, then a phase that does not fetch and is ordered. */
  lemma PhasesFetchFirst(l0: seq<Op>, l1: seq<Op>, l3: seq<Op>)
    requires Extends(l0, l1) && Extends(l1, l3)
    requires forall k :: |l0| <= k < |l1| ==> l1[k].FetchOp?
    requires NoFetchSince(l3, |l1|) && PhaseOrdered(l3, |l1|)
    ensures Extends(l0, l3) && PhaseOrdered(l3, |l0|)
    ensures forall k :: |l0| <= k < |l1| ==> l3[k] == l1[k]
  {
    forall k | |l0| <= k < |l1| ensures l3[k] == l1[k] {
      assert l3[k] == l3[..|l1|][k];
    }
    assert l3[..|l0|] == l3[..|l1|][..|l0|];
  }

  // ---------------------------------------------------- the shared loops

  /**
   * `update_tracking_branches` once the branches are listed, the same in both
   * revisions: a restorer records `current`, each branch is checked out and
   * fast-forwarded, a failed merge being only reported, the first failed
   * checkout ends the loop with its error, and the restorer's drop checks
   * `current` out again.
   */
  method UpdateEach(repo: Repository, branches: seq<string>, current: string)
    returns (outcome: Outcome, ghost body: seq<Op>, ghost restoredOk: bool)
    requires repo.Valid() && repo.CurrentBranchAnswer() == Some(current)
    modifies repo
    ensures repo.Valid() && repo.CurrentBranchAnswer().Some?
    ensures repo.branches == old(repo.branches)
    ensures repo.log == old(repo.log) + body + [CheckoutOp(current, restoredOk)]
    ensures UpdatedAs(Ok(branches), current, repo.log, |old(repo.log)|, old(repo.faults), outcome, body)
    ensures forall op :: op in body ==> !op.DeleteOp? && !op.FetchOp?
    ensures repo.faults == Remaining(old(repo.faults), |body| + 1)
  {
    body := [];
    ghost var start := repo.log;
    ghost var prophecy := repo.faults;
    var restorer := new BranchRestorer(repo);
    for i := 0 to |branches|
      invariant repo.Valid() && repo.CurrentBranchAnswer().Some?
      invariant repo.branches == old(repo.branches)
      invariant repo.log == start + body
      invariant repo.faults == Remaining(prophecy, |body|)
      invariant UpdateTrace(branches[..i], body, true)
    {
      var checkout;
      checkout, body := UpdateNext(repo, branches, i, start, prophecy, body);
      if checkout.Err? {
        restoredOk := RestoreAfterUpdate(repo, restorer, branches, start, prophecy, body, Failed(checkout.error));
        return Failed(checkout.error), body, restoredOk;
      }
    }
    assert branches[..|branches|] == branches;
    restoredOk := RestoreAfterUpdate(repo, restorer, branches, start, prophecy, body, Done);
    return Done, body, restoredOk;
  }

  /** The restorer's checkout that ends the update, whichever way the loop ended. */
  method RestoreAfterUpdate(repo: Repository, restorer: BranchRestorer, branches: seq<string>,
                            ghost start: seq<Op>, ghost prophecy: seq<Option<Fault>>, ghost body: seq<Op>,
                            ghost outcome: Outcome)
    returns (ghost restoredOk: bool)
    requires restorer.repository == repo
    requires repo.Valid() && repo.CurrentBranchAnswer().Some?
    requires repo.log == start + body && repo.faults == Remaining(prophecy, |body|)
    requires outcome != Panicked && UpdateTrace(branches, body, outcome == Done)
    requires outcome.Failed? ==> |body| > 0 && outcome.error == CommandError(FaultAt(prophecy, |body| - 1))
    modifies repo
    ensures repo.Valid() && repo.CurrentBranchAnswer().Some?
    ensures repo.branches == old(repo.branches)
    ensures repo.log == start + body + [CheckoutOp(restorer.branch, restoredOk)]
    ensures UpdatedAs(Ok(branches), restorer.branch, repo.log, |start|, prophecy, outcome, body)
    ensures forall op :: op in body ==> !op.DeleteOp? && !op.FetchOp?
    ensures repo.faults == Remaining(prophecy, |body| + 1)
  {
    restoredOk := repo.NextFault().None? && restorer.branch in repo.branches
                  && restorer.branch !in repo.world.worktree;
    RemainingAfter(prophecy, |body|, 1);
    restorer.Drop();
    UpdateTraceOps(branches, body, outcome == Done);
    UpdatedAsLogged(branches, restorer.branch, start, body, restoredOk, prophecy, outcome);
  }

  /**
   * One round of the update loop: check `branches[i]` out and, when that
   * succeeds, fast-forward it. `body` is what the loop issued before, from the
   * prophecy's start.
   */
  method UpdateNext(repo: Repository, branches: seq<string>, i: nat,
                    ghost start: seq<Op>, ghost prophecy: seq<Option<Fault>>, ghost body: seq<Op>)
    returns (checkout: Result<(), GitError>, ghost next: seq<Op>)
    requires repo.Valid() && repo.CurrentBranchAnswer().Some?
    requires i < |branches|
    requires repo.log == start + body && repo.faults == Remaining(prophecy, |body|)
    requires UpdateTrace(branches[..i], body, true)
    modifies repo
    ensures repo.Valid() && repo.CurrentBranchAnswer().Some?
    ensures repo.branches == old(repo.branches)
    ensures repo.log == start + next && repo.faults == Remaining(prophecy, |next|)
    ensures checkout.Ok? ==> UpdateTrace(branches[..i + 1], next, true)
    ensures checkout.Err? ==>
              UpdateTrace(branches, next, false) && |next| > 0
              && checkout.error == CommandError(FaultAt(prophecy, |next| - 1))
  {
    checkout, next := CheckoutNext(repo, branches, i, start, prophecy, body);
    if checkout.Err? {
      return;
    }
    assert branches[..i + 1] == branches[..i] + [branches[i]];
    RemainingAfter(prophecy, |body| + 1, 1);
    var merged := repo.UpdateBranch();
    LogAppend(start, body, [CheckoutOp(branches[i], true), MergeOp(merged.Ok?)]);
    UpdateTraceStep(branches[..i], body, branches[i], merged.Ok?);
    next := body + [CheckoutOp(branches[i], true), MergeOp(merged.Ok?)];
  }

  /** The checkout that starts a round of the update loop; when it fails, the loop ends there. */
  method CheckoutNext(repo: Repository, branches: seq<string>, i: nat,
                      ghost start: seq<Op>, ghost prophecy: seq<Option<Fault>>, ghost body: seq<Op>)
    returns (checkout: Result<(), GitError>, ghost next: seq<Op>)
    requires repo.Valid() && repo.CurrentBranchAnswer().Some?
    requires i < |branches|
    requires repo.log == start + body && repo.faults == Remaining(prophecy, |body|)
    requires UpdateTrace(branches[..i], body, true)
    modifies repo
    ensures repo.Valid() && repo.CurrentBranchAnswer().Some?
    ensures repo.branches == old(repo.branches)
    ensures repo.log == start + next && repo.faults == Remaining(prophecy, |next|)
    ensures checkout.Ok? ==> next == body + [CheckoutOp(branches[i], true)]
    ensures checkout.Err? ==>
              UpdateTrace(branches, next, false) && |next| > 0
              && checkout.error == CommandError(FaultAt(prophecy, |next| - 1))
  {
    RemainingAfter(prophecy, |body|, 0);
    RemainingAfter(prophecy, |body|, 1);
    assert repo.NextFault() == FaultAt(prophecy, |body|);
    checkout := repo.Checkout(branches[i]);
    next := body + [CheckoutOp(branches[i], checkout.Ok?)];
    LogAppend(start, body, [CheckoutOp(branches[i], checkout.Ok?)]);
    if checkout.Err? {
      UpdateStopsAt(branches, i, body);
    }
  }

  /**
   * One round of the deletion loop, the same in both revisions: a container
   * of `name` is checked out and, when that succeeds, `name` is deleted.
   * `deleted` says whether the branch is gone, `container` which branch was
   * checked out.
   */
  method DeleteOne(repo: Repository, name: string, containedIn: set<string>)
    returns (deleted: bool, container: string, ghost step: seq<Op>)
    requires repo.Valid() && repo.CurrentBranchAnswer().Some?
    requires containedIn != {}
    modifies repo
    ensures repo.Valid() && repo.CurrentBranchAnswer().Some?
    ensures repo.log == old(repo.log) + step
    ensures DeletionTrace([name], [containedIn], step)
    ensures forall op :: op in step ==> !op.FetchOp?
    ensures container in containedIn
    ensures deleted ==> container in old(repo.branches) && repo.branches == Remove(old(repo.branches), name)
    ensures !deleted ==> repo.branches == old(repo.branches)
  {
    // contained_in.iter().next().unwrap(): the set is not empty, by get_deletable_branches
    container :| container in containedIn;
    var checkout := repo.Checkout(container);
    if checkout.Err? {
      step := [CheckoutOp(container, false)];
      assert step[1..] == [];
      return false, container, step;
    }
    var r := repo.DeleteBranch(name);
    step := [CheckoutOp(container, true), DeleteOp(name, r.Ok?)];
    assert step[2..] == [];
    return r.Ok?, container, step;
  }

  // --------------------------------------------------------- safety

  /** No branch appears that was not there before: the loops only remove. */
  ghost predicate OnlyRemoved(before: seq<string>, after: seq<string>) {
    forall b :: b in after ==> b in before
  }

  /** Every branch removed since `before` is reachable from a branch still there: no commit was lost. */
  ghost predicate NothingLost(w: World, before: seq<string>, after: seq<string>) {
    forall b :: b in before && b !in after ==> exists e :: e in after && w.reaches(e, b)
  }

  ghost predicate Transitive(w: World) {
    forall a, b, c :: w.reaches(a, b) && w.reaches(b, c) ==> w.reaches(a, c)
  }

  /** Deleting `x` while `e` is kept and reaches it loses nothing, given that nothing was lost before. */
  lemma DeleteKeepsReachable(w: World, before: seq<string>, mid: seq<string>, x: string, e: string)
    requires Transitive(w)
    requires NothingLost(w, before, mid) && OnlyRemoved(before, mid)
    requires e in mid && e != x && w.reaches(e, x)
    ensures NothingLost(w, before, Remove(mid, x)) && OnlyRemoved(before, Remove(mid, x))
  {
    var after := Remove(mid, x);
    forall b | b in before && b !in after ensures exists f :: f in after && w.reaches(f, b) {
      if b == x {
        assert e in after;
      } else {
        var f :| f in mid && w.reaches(f, b);
        if f == x {
          assert e in after && w.reaches(e, b);
        } else {
          assert f in after;
        }
      }
    }
  }

  /**
   * Every branch removed since `before` is reachable from a branch still there
   * that is not in `keys`: a branch the deletion loop of src/main.rs never deletes.
   */
  ghost predicate Witnessed(w: World, before: seq<string>, after: seq<string>, keys: set<string>) {
    forall b :: b in before && b !in after ==> exists e :: e in after && e !in keys && w.reaches(e, b)
  }

  /** Deleting a key `x` while `e`, not a key, is kept and reaches it keeps every removed branch witnessed. */
  lemma DeleteKeepsWitnessed(w: World, before: seq<string>, mid: seq<string>, keys: set<string>, x: string, e: string)
    requires Witnessed(w, before, mid, keys) && x in keys
    requires e in mid && e !in keys && w.reaches(e, x)
    ensures Witnessed(w, before, Remove(mid, x), keys)
  {
    var after := Remove(mid, x);
    forall b | b in before && b !in after ensures exists f :: f in after && f !in keys && w.reaches(f, b) {
      if b == x {
        assert e in after;
      } else {
        var f :| f in mid && f !in keys && w.reaches(f, b);
        assert f in after;
      }
    }
  }
}
